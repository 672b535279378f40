/** The hub and its database as the handlers change them; every search over a map visits it in any order. */
module HubServer {
  import opened Options
  import opened HubState
  import opened HubInvariant

  class Store {
    var rows: map<string, Row>
    var bans: set<Ban>

    constructor (rows: map<string, Row>, bans: set<Ban>)
      ensures this.rows == rows && this.bans == bans
    {
      this.rows, this.bans := rows, bans;
    }

    method SaveRoom(room: Room)
      modifies this`rows
      ensures rows == old(rows)[room.key := Row(room.name, room.passwordHash, room.bytesRelayed, room.persistent)]
    {
      rows := rows[room.key := Row(room.name, room.passwordHash, room.bytesRelayed, room.persistent)];
    }

    method DeleteRoom(key: string)
      modifies this
      ensures rows == old(rows) - {key} && bans == set b | b in old(bans) && b.roomKey != key
    {
      rows := rows - {key};
      bans := set b | b in bans && b.roomKey != key;
    }

    method SaveBan(key: string, id: string)
      modifies this`bans
      ensures bans == old(bans) + {Ban(key, id)}
    {
      bans := bans + {Ban(key, id)};
    }

    method DeleteBan(key: string, id: string)
      modifies this`bans
      ensures bans == old(bans) - {Ban(key, id)}
    {
      bans := bans - {Ban(key, id)};
    }

    method UpdateBytesRelayed(key: string, n: int)
      modifies this`rows
      ensures rows == if key in old(rows) then old(rows)[key := old(rows)[key].(bytesRelayed := n)] else old(rows)
    {
      if key in rows {
        rows := rows[key := rows[key].(bytesRelayed := n)];
      }
    }

    /** First the rooms, then the bans of each. */
    method LoadRooms() returns (rooms: map<string, Room>)
      ensures rooms == LoadedRooms(rows, bans)
    {
      rooms := map k | k in rows ::
        Room(rows[k].name, rows[k].passwordHash, k, map[], {}, rows[k].bytesRelayed, "", "", rows[k].persistent, false, false);
      var todo := rows.Keys;
      while todo != {}
        invariant todo <= rows.Keys
        invariant rooms.Keys == rows.Keys
        invariant forall k :: k in rows ==>
          rooms[k] == if k in todo then LoadedRooms(rows, bans)[k].(blacklist := {}) else LoadedRooms(rows, bans)[k]
        decreases todo
      {
        var k :| k in todo;
        todo := todo - {k};
        rooms := rooms[k := rooms[k].(blacklist := set b | b in bans && b.roomKey == k :: b.clientID)];
      }
    }
  }

  lemma KeysAfterLeaving(s: State, conn: nat, req: Request)
    requires Inv(s) && conn in s.clients
    ensures KeysOk(Left(Renamed(s, conn, req), conn))
  {
    RenameKeeps(s, conn, req);
    LeaveKeeps(Renamed(s, conn, req), conn);
  }

  class Hub {
    const store: Store
    var rooms: map<string, Room>
    var clients: map<nat, Client>
    var relayOff: bool

    ghost function View(): (s: State)
      reads this, store
    {
      State(rooms, clients, relayOff, store.rows, store.bans)
    }

    ghost predicate Valid()
      reads this, store
    {
      Inv(View())
    }

    constructor (store: Store)
      ensures this.store == store && View() == Restarted(store.rows, store.bans)
      ensures GoodRows(store.rows) ==> Valid()
    {
      this.store := store;
      var loaded := store.LoadRooms();
      rooms, clients, relayOff := loaded, map[], false;
      if GoodRows(store.rows) {
        RestartKeeps(store.rows, store.bans);
      }
    }

    /** disconnectExisting: the client id goes from every room. */
    method DisconnectExisting(id: string)
      modifies this`rooms
      ensures rooms == map k | k in old(rooms) :: old(rooms)[k].(members := old(rooms)[k].members - {id})
    {
      ghost var was := rooms;
      var todo := rooms.Keys;
      while todo != {}
        invariant todo <= was.Keys && rooms.Keys == was.Keys
        invariant forall k :: k in was ==>
          rooms[k] == if k in todo then was[k] else was[k].(members := was[k].members - {id})
        decreases todo
        modifies this`rooms
      {
        var k :| k in todo;
        todo := todo - {k};
        if id in rooms[k].members {
          rooms := rooms[k := rooms[k].(members := rooms[k].members - {id})];
        } else {
          assert rooms[k].members - {id} == rooms[k].members;
        }
      }
    }

    /** serveWs: older connections of the same client id are dropped, then the client is made. */
    method Connect(conn: nat, id: string)
      requires Valid() && conn !in clients && id != ""
      modifies this
      ensures Valid() && View() == Connected(old(View()), conn, id)
    {
      ConnectKeeps(View(), conn, id);
      DisconnectExisting(id);
      clients := clients[conn := Client(id, "", "", "", [])];
    }

    method FindRoomByName(name: string, hash: string) returns (r: Lookup)
      requires KeysOk(View())
      ensures r == LookedUp(View(), name, hash)
    {
      var found := false;
      var todo := rooms.Keys;
      while todo != {}
        invariant todo <= rooms.Keys
        invariant found <==> exists k :: k in rooms && k !in todo && rooms[k].name == name
        invariant forall k :: k in rooms && k !in todo ==> !(rooms[k].name == name && rooms[k].passwordHash == hash)
        decreases todo
      {
        var k :| k in todo;
        todo := todo - {k};
        if rooms[k].name == name {
          found := true;
          if rooms[k].passwordHash == hash {
            assert KeyDerived(View(), k);
            return Found(k);
          }
        }
      }
      return if found then WrongPassword else NoRoom;
    }

    method GetOrCreateRoom(name: string, hash: string, ownerID: string, ownerName: string) returns (key: string)
      modifies this`rooms, store
      ensures key == RoomKey(name, hash)
      ensures View() == GotOrCreated(old(View()), name, hash, ownerID, ownerName)
    {
      key := RoomKey(name, hash);
      if key in rooms {
        return;
      }
      var persistent := ownerID == "";
      var room := Room(name, hash, key, map[], {}, 0, ownerID, ownerName, persistent, false, false);
      rooms := rooms[key := room];
      if persistent {
        store.SaveRoom(room);
      }
    }

    /** The dashboard makes a persistent room. */
    method CreateRoom(name: string, hash: string)
      requires Valid() && name != ""
      modifies this`rooms, store
      ensures Valid() && View() == GotOrCreated(old(View()), name, hash, "", "")
    {
      ghost var s := View();
      var key := GetOrCreateRoom(name, hash, "", "");
      CreateKeeps(s, name, hash, "", "");
    }

    method RemoveClientFromRoom(conn: nat)
      requires conn in clients
      modifies this
      ensures View() == Left(old(View()), conn)
    {
      var c := clients[conn];
      if c.roomKey == "" {
        return;
      }
      if c.roomKey !in rooms {
        return;
      }
      var key := c.roomKey;
      var room := rooms[key].(members := rooms[key].members - {c.id});
      var isEmpty := room.members == map[];
      var isOwner := room.ownerID != "" && room.ownerID == c.id;
      if isOwner && !room.persistent {
        rooms := rooms - {key};
      } else if isEmpty && !room.persistent {
        rooms := rooms - {key};
      } else {
        rooms := rooms[key := room];
      }
      clients := clients[conn := c.(room := "", roomKey := "")];
    }

    /** handleLeave, and the unregistration of a closed connection. */
    method HandleLeave(conn: nat)
      requires Valid() && conn in clients
      modifies this
      ensures Valid() && View() == Left(old(View()), conn)
    {
      ghost var s := View();
      RemoveClientFromRoom(conn);
      LeaveKeeps(s, conn);
    }

    /** The member loop of handleJoin: same-name connections of other ids go, then `conn` is filed. */
    method Admit(key: string, conn: nat)
      requires key in rooms && conn in clients
      modifies this`rooms
      ensures rooms == old(rooms)[key := old(rooms)[key].(members :=
                Admitted(old(rooms)[key].members, clients, conn, clients[conn].id, clients[conn].name))]
    {
      var c := clients[conn];
      var members := rooms[key].members;
      ghost var was := members;
      if c.name != "" {
        var todo := members.Keys;
        while todo != {}
          invariant todo <= members.Keys <= was.Keys
          invariant forall m :: m in members ==> members[m] == was[m]
          invariant forall m :: m in was && m !in todo ==>
            (m in members <==> !(m != c.id && was[m] in clients && clients[was[m]].name == c.name))
          decreases todo
        {
          var m :| m in todo;
          todo := todo - {m};
          if m != c.id && members[m] in clients && clients[members[m]].name == c.name {
            members := members - {m};
          }
        }
      }
      members := members[c.id := conn];
      assert members == Admitted(was, clients, conn, c.id, c.name);
      rooms := rooms[key := rooms[key].(members := members)];
    }

    method HandleJoin(conn: nat, req: Request, allowed: bool) returns (answer: Answer)
      requires Valid() && conn in clients
      modifies this, store
      ensures Valid() && (View(), answer) == Joined(old(View()), conn, req, allowed)
    {
      ghost var s := View();
      KeysAfterLeaving(s, conn, req);
      answer := Join(conn, req, allowed);
      JoinKeeps(s, conn, req, allowed);
    }

    method Join(conn: nat, req: Request, allowed: bool) returns (answer: Answer)
      requires conn in clients && KeysOk(Left(Renamed(View(), conn, req), conn))
      modifies this, store
      ensures (View(), answer) == Joined(old(View()), conn, req, allowed)
    {
      clients := clients[conn := clients[conn].(name := if req.name != "" then req.name else clients[conn].name)];
      if req.room == "" {
        return NameRequired;
      }
      if !allowed {
        return RateLimited;
      }
      if clients[conn].roomKey != "" {
        RemoveClientFromRoom(conn);
      }
      answer := Choose(conn, req);
    }

    method Choose(conn: nat, req: Request) returns (answer: Answer)
      requires conn in clients && KeysOk(View())
      modifies this, store
      ensures (View(), answer) == Chosen(old(View()), conn, req)
    {
      var found := FindRoomByName(req.room, req.passwordHash);
      if found == WrongPassword {
        return BadPassword;
      }
      var key := RoomKey(req.room, req.passwordHash);
      if found == NoRoom {
        key := GetOrCreateRoom(req.room, req.passwordHash, clients[conn].id, clients[conn].name);
      }
      answer := Enter(conn, req, key);
    }

    /** The end of handleJoin, once a room is chosen. */
    method Enter(conn: nat, req: Request, key: string) returns (answer: Answer)
      requires conn in clients && key in rooms
      modifies this`rooms, this`clients
      ensures var s, id := old(View()), old(clients)[conn].id;
              (View(), answer) ==
              if id in s.rooms[key].blacklist then (s, Banned)
              else if s.rooms[key].locked then (s, Locked)
              else (Entering(s, conn, req, key), Entered(key))
    {
      var c := clients[conn];
      if c.id in rooms[key].blacklist {
        return Banned;
      }
      if rooms[key].locked {
        return Locked;
      }
      Admit(key, conn);
      clients := clients[conn := c.(room := req.room, roomKey := rooms[key].key)];
      return Entered(key);
    }

    /** The search that ban, unban, kick and the switches start with: some room of that name. */
    method FirstByName(name: string) returns (key: Option<string>)
      ensures key.Some? ==> key.value in rooms && rooms[key.value].name == name
      ensures key.None? ==> forall k :: k in rooms ==> rooms[k].name != name
    {
      var todo := rooms.Keys;
      while todo != {}
        invariant todo <= rooms.Keys
        invariant forall k :: k in rooms && k !in todo ==> rooms[k].name != name
        decreases todo
      {
        var k :| k in todo;
        todo := todo - {k};
        if rooms[k].name == name {
          return Some(k);
        }
      }
      return None;
    }

    method BanClient(roomName: string, id: string) returns (key: Option<string>)
      requires Valid()
      modifies this`rooms, store
      ensures Valid()
      ensures key.None? ==> View() == old(View()) && forall k :: k in rooms ==> rooms[k].name != roomName
      ensures key.Some? ==>
                && key.value in old(rooms) && old(rooms)[key.value].name == roomName
                && View() == BannedFrom(old(View()), key.value, id)
    {
      key := FirstByName(roomName);
      if key.Some? {
        var k := key.value;
        BanKeeps(View(), k, id);
        rooms := rooms[k := rooms[k].(blacklist := rooms[k].blacklist + {id})];
        store.SaveBan(k, id);
      }
    }

    method UnbanClient(roomName: string, id: string) returns (key: Option<string>)
      requires Valid()
      modifies this`rooms, store
      ensures Valid()
      ensures key.None? ==> View() == old(View()) && forall k :: k in rooms ==> rooms[k].name != roomName
      ensures key.Some? ==>
                && key.value in old(rooms) && old(rooms)[key.value].name == roomName
                && View() == UnbannedFrom(old(View()), key.value, id)
    {
      key := FirstByName(roomName);
      if key.Some? {
        var k := key.value;
        UnbanKeeps(View(), k, id);
        rooms := rooms[k := rooms[k].(blacklist := rooms[k].blacklist - {id})];
        store.DeleteBan(k, id);
      }
    }

    method KickClient(roomName: string, id: string) returns (key: Option<string>, connected: bool)
      requires Valid()
      modifies this`rooms
      ensures Valid() && (connected <==> key.Some? && IsMember(old(View()), key.value, id))
      ensures key.None? ==> View() == old(View()) && forall k :: k in rooms ==> rooms[k].name != roomName
      ensures key.Some? ==>
                && key.value in old(rooms) && old(rooms)[key.value].name == roomName
                && View() == KickedFrom(old(View()), key.value, id)
    {
      key := FirstByName(roomName);
      connected := false;
      if key.Some? {
        var k := key.value;
        KickKeeps(View(), k, id);
        connected := id in rooms[k].members;
        rooms := rooms[k := rooms[k].(members := rooms[k].members - {id})];
      }
    }

    method DeleteRoom(name: string) returns (deleted: bool)
      requires Valid()
      modifies this`rooms, store
      ensures Valid() && View() == Deleted(old(View()), name)
      ensures deleted <==> exists k :: k in old(rooms) && old(rooms)[k].name == name
    {
      ghost var s := View();
      DeleteKeeps(s, name);
      var gone := Named(name);
      DropRooms(gone);
      deleted := gone != {};
      assert View() == Deleted(s, name);
    }

    method Named(name: string) returns (keys: set<string>)
      ensures keys == set k | k in rooms && rooms[k].name == name
      ensures keys != {} <==> exists k :: k in rooms && rooms[k].name == name
    {
      keys := set k | k in rooms && rooms[k].name == name;
      if k :| k in rooms && rooms[k].name == name {
        assert k in keys;
      }
    }

    /** The delete loop of deleteRoom, in memory and in the database. */
    method DropRooms(gone: set<string>)
      modifies this`rooms, store
      ensures rooms == old(rooms) - gone
      ensures store.rows == old(store.rows) - gone
      ensures store.bans == set b | b in old(store.bans) && b.roomKey !in gone
    {
      var todo := gone;
      while todo != {}
        invariant todo <= gone
        invariant rooms == old(rooms) - (gone - todo)
        invariant store.rows == old(store.rows) - (gone - todo)
        invariant store.bans == set b | b in old(store.bans) && b.roomKey !in gone - todo
        decreases todo
        modifies this`rooms, store
      {
        var k :| k in todo;
        assert gone - (todo - {k}) == (gone - todo) + {k};
        todo := todo - {k};
        rooms := rooms - {k};
        store.DeleteRoom(k);
      }
      assert gone - {} == gone;
    }

    /** findClient: some live room's member of that id. */
    method FindClient(id: string) returns (at: Option<string>)
      ensures at.Some? ==> IsMember(View(), at.value, id)
      ensures at.None? ==> forall k :: !IsMember(View(), k, id)
    {
      var todo := rooms.Keys;
      while todo != {}
        invariant todo <= rooms.Keys
        invariant forall k :: k in rooms && k !in todo ==> id !in rooms[k].members
        decreases todo
      {
        var k :| k in todo;
        todo := todo - {k};
        if id in rooms[k].members {
          return Some(k);
        }
      }
      return None;
    }

    /** relayData; `isData` is what isDataRelay says of the payload. */
    method RelayData(from: string, to: string, data: Payload, isData: bool) returns (a: Option<string>, b: Option<string>)
      requires Valid()
      modifies this`rooms, this`clients
      ensures Valid()
      ensures a.None? || b.None? ==> View() == old(View())
      ensures a.Some? && b.Some? ==>
                && IsMember(old(View()), a.value, from) && IsMember(old(View()), b.value, to)
                && old(rooms)[a.value].members[from] in old(clients) && old(rooms)[b.value].members[to] in old(clients)
                && View() == Relayed(old(View()), from, to, old(rooms)[a.value].members[from],
                                     old(rooms)[b.value].members[to], data, isData)
    {
      a := FindClient(from);
      b := FindClient(to);
      if a.None? || b.None? {
        return;
      }
      assert MemberOk(View(), a.value, from) && MemberOk(View(), b.value, to);
      var sender, target := rooms[a.value].members[from], rooms[b.value].members[to];
      RelayKeeps(View(), from, to, sender, target, data, isData);
      Deliver(from, to, sender, target, data, isData);
    }

    /** relayData after its two searches. */
    method Deliver(from: string, to: string, sender: nat, target: nat, data: Payload, isData: bool)
      requires sender in clients && target in clients
      modifies this`rooms, this`clients
      ensures View() == Relayed(old(View()), from, to, sender, target, data, isData)
    {
      var key := clients[target].roomKey;
      if clients[sender].roomKey == "" || clients[sender].roomKey != key {
        return;
      }
      var off := relayOff;
      if !off && key in rooms && rooms[key].relayDisabled {
        off := true;
      }
      if off && isData {
        return;
      }
      if key in rooms {
        rooms := rooms[key := rooms[key].(bytesRelayed := rooms[key].bytesRelayed + |data|)];
      }
      var c := clients[target];
      if |c.inbox| < INBOX {
        clients := clients[target := c.(inbox := c.inbox + [Envelope(from, to, data)])];
      } else {
        assert clients[target := c] == clients;
      }
    }

    method SyncBytesToStore()
      requires Valid()
      modifies store
      ensures Valid() && View() == Synced(old(View()))
    {
      SyncKeeps(View());
      WriteCounters();
    }

    method WriteCounters()
      modifies store
      ensures View() == Synced(old(View()))
    {
      ghost var was := store.rows;
      var todo := rooms.Keys;
      while todo != {}
        invariant todo <= rooms.Keys && store.rows.Keys == was.Keys && store.bans == old(store.bans)
        invariant forall k :: k in was ==>
          store.rows[k] == if k in rooms && k !in todo then was[k].(bytesRelayed := rooms[k].bytesRelayed) else was[k]
        decreases todo
        modifies store
      {
        var k :| k in todo;
        todo := todo - {k};
        store.UpdateBytesRelayed(k, rooms[k].bytesRelayed);
      }
      assert store.rows == Synced(old(View())).rows;
    }
  }
}
