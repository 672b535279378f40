/** Every operation of the hub keeps the invariant that ties members, room keys and database rows together. */
module HubInvariant {
  import opened HubState

  // ---- Frames: what an operation need not look at ----

  /** The part of a room that neither members nor traffic change. */
  predicate SameRoom(a: Room, b: Room) {
    && a.name == b.name && a.passwordHash == b.passwordHash && a.key == b.key
    && a.persistent == b.persistent && a.blacklist == b.blacklist
  }

  lemma StoreFrame(s: State, r: State)
    requires StoreOk(s) && KeysOk(s)
    requires r.rooms.Keys == s.rooms.Keys && forall k :: k in s.rooms ==> SameRoom(s.rooms[k], r.rooms[k])
    requires r.rows == s.rows && r.bans == s.bans
    ensures StoreOk(r) && KeysOk(r)
  {
    forall k
      ensures RowOk(r, k)
    {
      assert RowOk(s, k);
    }
    forall k | k in r.rooms
      ensures RoomOk(r, k) && BansOk(r, k) && KeyDerived(r, k)
    {
      assert RoomOk(s, k) && BansOk(s, k) && KeyDerived(s, k);
    }
  }

  lemma OneRoomFrame(s: State, r: State, key: string, room: Room)
    requires StoreOk(s) && KeysOk(s)
    requires key in s.rooms && SameRoom(s.rooms[key], room) && r.rooms == s.rooms[key := room]
    requires r.rows == s.rows && r.bans == s.bans
    ensures StoreOk(r) && KeysOk(r)
  {
    assert r.rooms.Keys == s.rooms.Keys;
    StoreFrame(s, r);
  }

  /** Removing the rooms in `gone`, together with their rows. */
  lemma StoreRestrict(s: State, r: State, gone: set<string>)
    requires StoreOk(s) && KeysOk(s)
    requires r.rooms == s.rooms - gone && r.rows == s.rows - gone
    requires forall k :: k in r.rooms ==> BansOf(r.bans, k) == BansOf(s.bans, k)
    ensures StoreOk(r) && KeysOk(r)
  {
    forall k
      ensures RowOk(r, k)
    {
      assert RowOk(s, k);
    }
    forall k | k in r.rooms
      ensures RoomOk(r, k) && BansOk(r, k) && KeyDerived(r, k)
    {
      assert RoomOk(s, k) && BansOk(s, k) && KeyDerived(s, k);
    }
  }

  /** Members can only have gone, and whoever is left keeps id and room key. */
  lemma MembersFrame(s: State, r: State)
    requires MembersOk(s)
    requires forall conn :: conn in r.clients ==> r.clients[conn].id != ""
    requires forall k, id :: IsMember(r, k, id) ==>
               IsMember(s, k, id) && r.rooms[k].members[id] == s.rooms[k].members[id] &&
               var conn := s.rooms[k].members[id];
               conn in s.clients ==>
                 conn in r.clients && r.clients[conn].id == s.clients[conn].id && r.clients[conn].roomKey == s.clients[conn].roomKey
    ensures MembersOk(r)
  {
    forall k, id | IsMember(r, k, id)
      ensures MemberOk(r, k, id)
    {
      assert MemberOk(s, k, id);
    }
  }

  // ---- One lemma per operation ----

  lemma ConnectKeeps(s: State, conn: nat, id: string)
    requires Inv(s) && conn !in s.clients && id != ""
    ensures Inv(Connected(s, conn, id))
  {
    var r := Connected(s, conn, id);
    StoreFrame(s, r);
    MembersFrame(s, r);
  }

  lemma CreateKeeps(s: State, name: string, hash: string, ownerID: string, ownerName: string)
    requires Inv(s) && name != ""
    ensures Inv(GotOrCreated(s, name, hash, ownerID, ownerName))
  {
    var key := RoomKey(name, hash);
    if key !in s.rooms {
      CreateKeepsStore(s, name, hash, ownerID, ownerName);
      MembersFrame(s, Created(s, name, hash, ownerID, ownerName));
    }
  }

  lemma CreateKeepsStore(s: State, name: string, hash: string, ownerID: string, ownerName: string)
    requires StoreOk(s) && KeysOk(s) && name != "" && RoomKey(name, hash) !in s.rooms
    ensures var r := Created(s, name, hash, ownerID, ownerName); StoreOk(r) && KeysOk(r)
  {
    var key, r := RoomKey(name, hash), Created(s, name, hash, ownerID, ownerName);
    assert key != "";
    forall k
      ensures RowOk(r, k)
    {
      assert RowOk(s, k);
    }
    forall k | k in r.rooms
      ensures RoomOk(r, k) && BansOk(r, k) && KeyDerived(r, k)
    {
      if k != key {
        assert RoomOk(s, k) && BansOk(s, k) && KeyDerived(s, k);
      }
    }
  }

  /** The connection is a member of no live room. */
  ghost predicate Outside(s: State, conn: nat) {
    forall k, id :: IsMember(s, k, id) ==> s.rooms[k].members[id] != conn
  }

  /** Leaving takes the connection out of every live room. */
  lemma LeaveKeeps(s: State, conn: nat)
    requires Inv(s) && conn in s.clients
    ensures Inv(Left(s, conn)) && Outside(Left(s, conn), conn)
  {
    var r, c := Left(s, conn), s.clients[conn];
    if c.roomKey == "" || c.roomKey !in s.rooms {
      assert forall k, id :: IsMember(s, k, id) ==> MemberOk(s, k, id) && RoomOk(s, k);
    } else {
      LeaveKeepsStore(s, conn);
      forall k, id | IsMember(r, k, id)
        ensures MemberOk(r, k, id) && r.rooms[k].members[id] != conn
      {
        LeaveKeepsMember(s, conn, k, id);
      }
    }
  }

  lemma LeaveKeepsMember(s: State, conn: nat, k: string, id: string)
    requires Inv(s) && conn in s.clients && s.clients[conn].roomKey != "" && s.clients[conn].roomKey in s.rooms
    requires IsMember(Left(s, conn), k, id)
    ensures MemberOk(Left(s, conn), k, id) && Left(s, conn).rooms[k].members[id] != conn
  {
    assert IsMember(s, k, id) && MemberOk(s, k, id);
  }

  lemma LeaveKeepsStore(s: State, conn: nat)
    requires Inv(s) && conn in s.clients && s.clients[conn].roomKey in s.rooms
    ensures StoreOk(Left(s, conn)) && KeysOk(Left(s, conn))
  {
    var r, key := Left(s, conn), s.clients[conn].roomKey;
    assert RoomOk(s, key) && RowOk(s, key);
    if key in r.rooms {
      OneRoomFrame(s, r, key, r.rooms[key]);
    } else {
      assert key !in s.rows;
      RemoveOneRoom(s, r, key);
    }
  }

  lemma RemoveOneRoom(s: State, r: State, key: string)
    requires StoreOk(s) && KeysOk(s) && key !in s.rows
    requires r.rooms == s.rooms - {key} && r.rows == s.rows && r.bans == s.bans
    ensures StoreOk(r) && KeysOk(r)
  {
    assert s.rows - {key} == s.rows;
    StoreRestrict(s, r, {key});
  }

  lemma RenameKeeps(s: State, conn: nat, req: Request)
    requires Inv(s) && conn in s.clients
    ensures Inv(Renamed(s, conn, req))
  {
    var r := Renamed(s, conn, req);
    StoreFrame(s, r);
    MembersFrame(s, r);
  }

  /** Entering keeps the invariant because the connection has left every room first. */
  lemma EnterKeeps(s: State, conn: nat, req: Request, key: string)
    requires Inv(s) && conn in s.clients && key in s.rooms && Outside(s, conn)
    ensures Inv(Entering(s, conn, req, key))
  {
    var r, id := Entering(s, conn, req, key), s.clients[conn].id;
    OneRoomFrame(s, r, key, r.rooms[key]);
    assert RoomOk(s, key);
    forall k, m | IsMember(r, k, m)
      ensures MemberOk(r, k, m)
    {
      if !(k == key && m == id) {
        assert IsMember(s, k, m) && MemberOk(s, k, m);
      }
    }
  }

  lemma CreateStaysOutside(s: State, name: string, hash: string, ownerID: string, ownerName: string, conn: nat)
    requires Outside(s, conn)
    ensures Outside(GotOrCreated(s, name, hash, ownerID, ownerName), conn)
  {
    var v := GotOrCreated(s, name, hash, ownerID, ownerName);
    forall k, id | IsMember(v, k, id)
      ensures v.rooms[k].members[id] != conn
    {
      assert IsMember(s, k, id);
    }
  }

  lemma ChooseKeeps(u: State, conn: nat, req: Request)
    requires Inv(u) && conn in u.clients && Outside(u, conn) && req.room != ""
    ensures Inv(Chosen(u, conn, req).0)
  {
    var c := u.clients[conn];
    CreateKeeps(u, req.room, req.passwordHash, c.id, c.name);
    CreateStaysOutside(u, req.room, req.passwordHash, c.id, c.name, conn);
    EnterKeeps(GotOrCreated(u, req.room, req.passwordHash, c.id, c.name), conn, req, RoomKey(req.room, req.passwordHash));
  }

  lemma JoinKeeps(s: State, conn: nat, req: Request, allowed: bool)
    requires Inv(s) && conn in s.clients
    ensures Inv(Joined(s, conn, req, allowed).0)
  {
    var t := Renamed(s, conn, req);
    RenameKeeps(s, conn, req);
    if req.room != "" && allowed {
      LeaveKeeps(t, conn);
      ChooseKeeps(Left(t, conn), conn, req);
    }
  }

  lemma DeleteKeeps(s: State, name: string)
    requires Inv(s)
    ensures Inv(Deleted(s, name))
  {
    var r := Deleted(s, name);
    MembersFrame(s, r);
    StoreRestrict(s, r, set k | k in s.rooms && s.rooms[k].name == name);
  }

  /** A change of the bans of one room, in memory and in the database alike. */
  lemma BlacklistFrame(s: State, r: State, key: string)
    requires Inv(s) && key in s.rooms
    requires r.rooms.Keys == s.rooms.Keys && r.rooms[key] == s.rooms[key].(blacklist := r.rooms[key].blacklist)
    requires r.clients == s.clients && r.rows == s.rows
    requires forall k :: k in s.rooms && k != key ==> r.rooms[k] == s.rooms[k]
    requires forall k :: k in s.rooms && k != key ==> BansOf(r.bans, k) == BansOf(s.bans, k)
    requires BansOk(r, key)
    ensures Inv(r)
  {
    MembersFrame(s, r);
    forall k
      ensures RowOk(r, k)
    {
      assert RowOk(s, k);
    }
    forall k | k in r.rooms
      ensures RoomOk(r, k) && BansOk(r, k) && KeyDerived(r, k)
    {
      assert RoomOk(s, k) && BansOk(s, k) && KeyDerived(s, k);
    }
  }

  lemma BansOfAdd(bans: set<Ban>, k: string, id: string, k': string)
    ensures BansOf(bans + {Ban(k, id)}, k') == BansOf(bans, k') + if k == k' then {id} else {}
  {
  }

  lemma BansOfRemove(bans: set<Ban>, k: string, id: string, k': string)
    ensures BansOf(bans - {Ban(k, id)}, k') == BansOf(bans, k') - if k == k' then {id} else {}
  {
    forall m | m in BansOf(bans, k') && !(k == k' && m == id)
      ensures m in BansOf(bans - {Ban(k, id)}, k')
    {
      assert Ban(k', m) in bans - {Ban(k, id)};
    }
  }

  lemma BanKeeps(s: State, key: string, id: string)
    requires Inv(s) && key in s.rooms
    ensures Inv(BannedFrom(s, key, id))
  {
    var r := BannedFrom(s, key, id);
    assert BansOk(r, key) by {
      assert BansOk(s, key);
      BansOfAdd(s.bans, key, id, key);
    }
    forall k | k in s.rooms && k != key
      ensures BansOf(r.bans, k) == BansOf(s.bans, k)
    {
      BansOfAdd(s.bans, key, id, k);
    }
    BlacklistFrame(s, r, key);
  }

  lemma UnbanKeeps(s: State, key: string, id: string)
    requires Inv(s) && key in s.rooms
    ensures Inv(UnbannedFrom(s, key, id))
  {
    var r := UnbannedFrom(s, key, id);
    assert BansOk(r, key) by {
      assert BansOk(s, key);
      BansOfRemove(s.bans, key, id, key);
    }
    forall k | k in s.rooms && k != key
      ensures BansOf(r.bans, k) == BansOf(s.bans, k)
    {
      BansOfRemove(s.bans, key, id, k);
    }
    BlacklistFrame(s, r, key);
  }

  lemma KickKeeps(s: State, key: string, id: string)
    requires Inv(s) && key in s.rooms
    ensures Inv(KickedFrom(s, key, id))
  {
    OneRoomFrame(s, KickedFrom(s, key, id), key, KickedFrom(s, key, id).rooms[key]);
    MembersFrame(s, KickedFrom(s, key, id));
  }

  lemma ConfigureKeeps(s: State, key: string, locked: bool, relayDisabled: bool)
    requires Inv(s) && key in s.rooms
    ensures Inv(Configured(s, key, locked, relayDisabled))
  {
    var r := Configured(s, key, locked, relayDisabled);
    OneRoomFrame(s, r, key, r.rooms[key]);
    MembersFrame(s, r);
  }

  lemma SyncKeeps(s: State)
    requires Inv(s)
    ensures Inv(Synced(s))
  {
    var r := Synced(s);
    MembersFrame(s, r);
    forall k
      ensures RowOk(r, k)
    {
      assert RowOk(s, k);
    }
    forall k | k in r.rooms
      ensures RoomOk(r, k) && BansOk(r, k) && KeyDerived(r, k)
    {
      assert RoomOk(s, k) && BansOk(s, k) && KeyDerived(s, k);
    }
  }

  lemma RelayKeeps(s: State, from: string, to: string, sender: nat, target: nat, data: Payload, isData: bool)
    requires Inv(s) && sender in s.clients && target in s.clients
    ensures Inv(Relayed(s, from, to, sender, target, data, isData))
  {
    var r, key := Relayed(s, from, to, sender, target, data, isData), s.clients[target].roomKey;
    if MayRelay(s, sender, target, isData) {
      if key in s.rooms {
        OneRoomFrame(s, r, key, r.rooms[key]);
      } else {
        StoreFrame(s, r);
      }
      RelayMembers(s, r, target);
    }
  }

  lemma RelayMembers(s: State, r: State, target: nat)
    requires MembersOk(s) && target in s.clients
    requires r.rooms.Keys == s.rooms.Keys && forall k :: k in s.rooms ==> r.rooms[k].members == s.rooms[k].members
    requires r.clients.Keys == s.clients.Keys
    requires forall c :: c in s.clients ==> r.clients[c].id == s.clients[c].id && r.clients[c].roomKey == s.clients[c].roomKey
    ensures MembersOk(r)
  {
    MembersFrame(s, r);
  }

  lemma RestartKeeps(rows: map<string, Row>, bans: set<Ban>)
    requires GoodRows(rows)
    ensures Inv(Restarted(rows, bans))
  {
  }

  /** What a server has stored is what a restart needs. */
  lemma RowsAreGood(s: State)
    requires Inv(s)
    ensures GoodRows(s.rows)
  {
    forall k | k in s.rows
      ensures s.rows[k].persistent && k != "" && k == RoomKey(s.rows[k].name, s.rows[k].passwordHash)
    {
      assert RowOk(s, k) && RoomOk(s, k) && KeyDerived(s, k);
    }
  }
}
