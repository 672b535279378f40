/** When each answer to a join is given, who stays in which room, and what else every operation changes. */
module HubEffects {
  import opened HubState
  import opened HubInvariant
  import opened HubTheorems
  import opened HubJoins

  // ---- Leaving ----

  /** Leaving ends this room: a client made it, and that client leaves or nobody else is in it. */
  predicate EndsWith(room: Room, id: string) {
    !room.persistent && (room.ownerID == id != "" || room.members.Keys <= {id})
  }

  /**
   The room of the connection loses it, or ends; every other room stays as it was.  The connection forgets
   a room that was live, and stays as it was otherwise.
   */
  lemma LeaveEffects(s: State, conn: nat)
    requires Inv(s) && conn in s.clients
    ensures var r, c := Left(s, conn), s.clients[conn];
            && (forall k :: k in r.rooms <==> k in s.rooms && !(k == c.roomKey && EndsWith(s.rooms[k], c.id)))
            && (forall k :: k in r.rooms ==>
                  r.rooms[k] == if k == c.roomKey then s.rooms[k].(members := s.rooms[k].members - {c.id}) else s.rooms[k])
            && r.rows == s.rows && r.bans == s.bans && r.relayOff == s.relayOff && r.clients.Keys == s.clients.Keys
            && (forall x :: x in s.clients && x != conn ==> r.clients[x] == s.clients[x])
            && r.clients[conn] == if c.roomKey in s.rooms then c.(room := "", roomKey := "") else c
  {
    var c := s.clients[conn];
    if c.roomKey in s.rooms {
      assert RoomOk(s, c.roomKey);
      var members := s.rooms[c.roomKey].members;
      EmptyAfter(members, c.id);
    }
  }

  lemma EmptyAfter(members: map<string, nat>, id: string)
    ensures members - {id} == map[] <==> members.Keys <= {id}
  {
    assert (members - {id}).Keys == members.Keys - {id};
    assert members - {id} == map[] <==> (members - {id}).Keys == {};
  }

  // ---- Joining ----

  /** The state in which the room is chosen: the name is recorded, the old room left. */
  function Ready(s: State, conn: nat, req: Request): (u: State)
    requires conn in s.clients
  {
    Left(Renamed(s, conn, req), conn)
  }

  ghost predicate Named(u: State, name: string) {
    exists k :: k in u.rooms && u.rooms[k].name == name
  }

  ghost predicate Matched(u: State, name: string, hash: string) {
    exists k :: k in u.rooms && u.rooms[k].name == name && u.rooms[k].passwordHash == hash
  }

  /** The key under which a room of this name and password is filed. */
  function FiledUnder(req: Request): (key: string) {
    if req.passwordHash == "" then req.room else req.room + ":" + req.passwordHash
  }

  predicate BannedIn(u: State, key: string, id: string) {
    key in u.rooms && id in u.rooms[key].blacklist
  }

  predicate LockedIn(u: State, key: string) {
    key in u.rooms && u.rooms[key].locked
  }

  lemma MatchedIff(u: State, req: Request)
    requires KeysOk(u)
    ensures var key := FiledUnder(req);
            Matched(u, req.room, req.passwordHash) <==> key in u.rooms && AskedFor(u.rooms[key], req)
  {
    if Matched(u, req.room, req.passwordHash) {
      var k :| k in u.rooms && u.rooms[k].name == req.room && u.rooms[k].passwordHash == req.passwordHash;
      assert KeyDerived(u, k);
    }
  }

  lemma ChosenIff(u: State, conn: nat, req: Request)
    requires KeysOk(u) && conn in u.clients && req.room != ""
    ensures var answer, key, id := Chosen(u, conn, req).1, FiledUnder(req), u.clients[conn].id;
            var wrong := Named(u, req.room) && !Matched(u, req.room, req.passwordHash);
            answer == if wrong then BadPassword
                      else if BannedIn(u, key, id) then Banned
                      else if LockedIn(u, key) then Locked
                      else Entered(key)
  {
    MatchedIff(u, req);
  }

  /**
   The answer to every join request: a name is required, then the rate limit holds; a password is wrong
   exactly if rooms of that name are live and none of them has it; a ban comes before a lock.
   */
  lemma AnswerIs(s: State, conn: nat, req: Request, allowed: bool)
    requires Inv(s) && conn in s.clients
    ensures var u, key, id := Ready(s, conn, req), FiledUnder(req), s.clients[conn].id;
            var wrong := Named(u, req.room) && !Matched(u, req.room, req.passwordHash);
            Joined(s, conn, req, allowed).1 ==
              if req.room == "" then NameRequired
              else if !allowed then RateLimited
              else if wrong then BadPassword
              else if BannedIn(u, key, id) then Banned
              else if LockedIn(u, key) then Locked
              else Entered(key)
  {
    var t := Renamed(s, conn, req);
    RenameKeeps(s, conn, req);
    LeaveKeeps(t, conn);
    LeaveKeepsIdentity(t, conn);
    if req.room != "" && allowed {
      ChosenIff(Left(t, conn), conn, req);
    }
  }

  /** The room as it is when somebody enters it: live, or new and owned by the one who enters. */
  function RoomFor(u: State, conn: nat, req: Request): (room: Room)
    requires conn in u.clients
  {
    var key, c := FiledUnder(req), u.clients[conn];
    if key in u.rooms then u.rooms[key]
    else Room(req.room, req.passwordHash, key, map[], {}, 0, c.id, c.name, c.id == "", false, false)
  }

  /** Member `m` of the room has to go when `conn` enters: another client of the same, non-empty name. */
  predicate Displaced(u: State, conn: nat, room: Room, m: string)
    requires conn in u.clients && m in room.members
  {
    && m != u.clients[conn].id && u.clients[conn].name != "" && room.members[m] in u.clients
    && u.clients[room.members[m]].name == u.clients[conn].name
  }

  /** Whoever enters is in, exactly the same-name members of other ids are out, and nothing else of any room changes. */
  lemma EnterEffects(u: State, conn: nat, req: Request)
    requires Inv(u) && conn in u.clients && Chosen(u, conn, req).1.Entered?
    ensures var r, key, id, room := Chosen(u, conn, req).0, FiledUnder(req), u.clients[conn].id, RoomFor(u, conn, req);
            && key in r.rooms && r.rooms.Keys == u.rooms.Keys + {key}
            && (forall k :: k in u.rooms && k != key ==> r.rooms[k] == u.rooms[k])
            && r.rooms[key] == room.(members := r.rooms[key].members)
            && (forall m :: m in r.rooms[key].members <==>
                  m == id || (m in room.members && !Displaced(u, conn, room, m)))
            && (forall m :: m in r.rooms[key].members ==>
                  r.rooms[key].members[m] == if m == id then conn else room.members[m])
            && r.clients == u.clients[conn := u.clients[conn].(room := req.room, roomKey := key)]
            && r.bans == u.bans && r.relayOff == u.relayOff
  {
    var key, c := FiledUnder(req), u.clients[conn];
    assert key in u.rooms ==> RoomOk(u, key);
    assert key == RoomKey(req.room, req.passwordHash);
    var v := GotOrCreated(u, req.room, req.passwordHash, c.id, c.name);
    assert v.rooms[key] == RoomFor(u, conn, req) && v.clients == u.clients;
    assert Chosen(u, conn, req).0 == Entering(v, conn, req, key);
  }

  /** A request that the search or the room refuses leaves everything as it was when the room was chosen. */
  lemma RefusedEffects(u: State, conn: nat, req: Request)
    requires conn in u.clients && !Chosen(u, conn, req).1.Entered?
    ensures Chosen(u, conn, req).0 == u
  {
  }

  // ---- Bans ----

  /** A ban shuts the client out of the room it asks for, and lifting it lets the client pass the ban again. */
  lemma BanDecides(s: State, key: string, id: string, conn: nat, req: Request)
    requires Inv(s) && key in s.rooms && conn in s.clients && s.clients[conn].id == id
    requires AskedFor(s.rooms[key], req) && req.room != "" && s.clients[conn].roomKey != key
    ensures Joined(BannedFrom(s, key, id), conn, req, true).1 == Banned
    ensures Joined(UnbannedFrom(s, key, id), conn, req, true).1 != Banned
  {
    assert KeyDerived(s, key);
    BanKeeps(s, key, id);
    UnbanKeeps(s, key, id);
    BannedJoin(BannedFrom(s, key, id), key, conn, req);
    BannedJoin(UnbannedFrom(s, key, id), key, conn, req);
  }

  lemma BannedJoin(s: State, key: string, conn: nat, req: Request)
    requires Inv(s) && key in s.rooms && key == FiledUnder(req) && conn in s.clients
    requires AskedFor(s.rooms[key], req) && req.room != "" && s.clients[conn].roomKey != key
    ensures Joined(s, conn, req, true).1 == Banned <==> s.clients[conn].id in s.rooms[key].blacklist
  {
    var u := Ready(s, conn, req);
    AnswerIs(s, conn, req, true);
    RenameKeeps(s, conn, req);
    LeaveEffects(Renamed(s, conn, req), conn);
    assert key in u.rooms && u.rooms[key] == s.rooms[key];
    assert Matched(u, req.room, req.passwordHash);
  }

  /** A ban is recorded in the room and in the database, and moves nobody out. */
  lemma BanEffects(s: State, key: string, id: string)
    requires key in s.rooms
    ensures var r := BannedFrom(s, key, id);
            && r.rooms.Keys == s.rooms.Keys && r.clients == s.clients && r.rows == s.rows
            && (forall k, i :: BannedIn(r, k, i) <==> BannedIn(s, k, i) || (k == key && i == id))
            && (forall b :: b in r.bans <==> b in s.bans || (b.roomKey == key && b.clientID == id))
            && (forall k :: k in s.rooms ==> r.rooms[k] == s.rooms[k].(blacklist := r.rooms[k].blacklist))
  {
  }

  lemma UnbanEffects(s: State, key: string, id: string)
    requires key in s.rooms
    ensures var r := UnbannedFrom(s, key, id);
            && r.rooms.Keys == s.rooms.Keys && r.clients == s.clients && r.rows == s.rows
            && (forall k, i :: BannedIn(r, k, i) <==> BannedIn(s, k, i) && !(k == key && i == id))
            && (forall b :: b in r.bans <==> b in s.bans && !(b.roomKey == key && b.clientID == id))
            && (forall k :: k in s.rooms ==> r.rooms[k] == s.rooms[k].(blacklist := r.rooms[k].blacklist))
  {
  }

  // ---- The other operations ----

  /** No client but this one changes, and this one keeps its id and has this name. */
  ghost predicate OnlyOf(s: State, r: State, conn: nat, name: string)
    requires conn in s.clients
  {
    && conn in r.clients && r.clients[conn].id == s.clients[conn].id && r.clients[conn].name == name
    && r.clients.Keys == s.clients.Keys
    && forall x :: x in s.clients && x != conn ==> r.clients[x] == s.clients[x]
  }

  lemma LeaveIsOwn(s: State, conn: nat)
    requires conn in s.clients
    ensures OnlyOf(s, Left(s, conn), conn, s.clients[conn].name)
  {
  }

  lemma ChooseIsOwn(u: State, conn: nat, req: Request)
    requires conn in u.clients
    ensures OnlyOf(u, Chosen(u, conn, req).0, conn, u.clients[conn].name)
  {
  }

  /** Whatever the answer to a join is, the announced name is recorded and no other client changes. */
  lemma NameAfter(s: State, conn: nat, req: Request, allowed: bool)
    requires conn in s.clients
    ensures OnlyOf(s, Joined(s, conn, req, allowed).0, conn, if req.name != "" then req.name else s.clients[conn].name)
  {
    var t := Renamed(s, conn, req);
    LeaveIsOwn(t, conn);
    ChooseIsOwn(Left(t, conn), conn, req);
  }

  /** The dashboard's new room is persistent, empty, open and stored; a live one under its key is left as it is. */
  lemma CreateEffects(s: State, name: string, hash: string)
    ensures var key := if hash == "" then name else name + ":" + hash;
            GotOrCreated(s, name, hash, "", "") ==
              if key in s.rooms then s
              else s.(rooms := s.rooms[key := Room(name, hash, key, map[], {}, 0, "", "", true, false, false)],
                      rows := s.rows[key := Row(name, hash, 0, true)])
  {
  }

  lemma ConnectEffects(s: State, conn: nat, id: string)
    ensures var r := Connected(s, conn, id);
            && r.rooms.Keys == s.rooms.Keys
            && (forall k, m :: IsMember(r, k, m) <==> IsMember(s, k, m) && m != id)
            && (forall k, m :: IsMember(r, k, m) ==> r.rooms[k].members[m] == s.rooms[k].members[m])
            && conn in r.clients && r.clients[conn].id == id && r.clients[conn].roomKey == "" && r.clients[conn].inbox == []
  {
  }

  lemma KickEffects(s: State, key: string, id: string)
    requires key in s.rooms
    ensures var r := KickedFrom(s, key, id);
            && r.rooms.Keys == s.rooms.Keys && r.clients == s.clients
            && (forall k, m :: IsMember(r, k, m) <==> IsMember(s, k, m) && !(k == key && m == id))
            && (forall k, m :: IsMember(r, k, m) ==> r.rooms[k].members[m] == s.rooms[k].members[m])
  {
  }

  lemma DeleteEffects(s: State, name: string)
    ensures var r := Deleted(s, name);
            && (forall k :: k in r.rooms <==> k in s.rooms && s.rooms[k].name != name)
            && (forall k :: k in r.rooms ==> r.rooms[k] == s.rooms[k])
            && (forall k :: k in r.rows <==> k in s.rows && !(k in s.rooms && s.rooms[k].name == name))
            && r.clients == s.clients
  {
  }

  /** After a sync the row of every live persistent room carries its counter, and nothing else has changed. */
  lemma SyncEffects(s: State)
    requires Inv(s)
    ensures var r := Synced(s);
            && r == s.(rows := r.rows) && r.rows.Keys == s.rows.Keys
            && forall k :: k in r.rows ==>
                 k in s.rooms && r.rows[k] == Row(s.rows[k].name, s.rows[k].passwordHash, s.rooms[k].bytesRelayed, true)
  {
    forall k | k in s.rows
      ensures k in s.rooms && s.rows[k].persistent
    {
      assert RowOk(s, k);
    }
  }

  /** The dashboard's switches: a locked room shuts out whoever is not in it, banned clients before others. */
  lemma LockDecides(s: State, key: string, locked: bool, relayDisabled: bool, conn: nat, req: Request)
    requires Inv(s) && key in s.rooms && conn in s.clients && s.clients[conn].roomKey != key
    requires AskedFor(s.rooms[key], req) && req.room != "" && s.clients[conn].id !in s.rooms[key].blacklist
    ensures var t := Configured(s, key, locked, relayDisabled);
            Joined(t, conn, req, true).1 == (if locked then Locked else Entered(key))
  {
    assert KeyDerived(s, key);
    var t := Configured(s, key, locked, relayDisabled);
    ConfigureKeeps(s, key, locked, relayDisabled);
    var u := Ready(t, conn, req);
    AnswerIs(t, conn, req, true);
    RenameKeeps(t, conn, req);
    LeaveEffects(Renamed(t, conn, req), conn);
    assert key in u.rooms && u.rooms[key] == t.rooms[key];
    assert Matched(u, req.room, req.passwordHash);
  }

  /** Data stops in a room whose relay is switched off, and only there. */
  lemma SwitchDecides(s: State, key: string, locked: bool, relayDisabled: bool, from: string, to: string, data: Payload)
    requires Inv(s) && IsMember(s, key, from) && IsMember(s, key, to) && !s.relayOff
    ensures var t := Configured(s, key, locked, relayDisabled);
            var r := Step(t, RelayData(from, to, key, key, data, true));
            && (relayDisabled ==> r == t)
            && key in r.rooms
            && r.rooms[key].bytesRelayed == s.rooms[key].bytesRelayed + if relayDisabled then 0 else |data|
  {
    var t := Configured(s, key, locked, relayDisabled);
    ConfigureKeeps(s, key, locked, relayDisabled);
    RelayIsolation(t, from, to, key, key, data, true);
  }

  /** After a sync and a restart the persistent rooms are back, unlocked and without members, with bans and counters. */
  lemma RestartEffects(s: State)
    requires Inv(s)
    ensures var r := Restarted(Synced(s).rows, Synced(s).bans);
            && r.clients == map[]
            && (forall k :: k in r.rooms <==> k in s.rooms && s.rooms[k].persistent)
            && forall k :: k in r.rooms ==>
                 && r.rooms[k] == Room(s.rooms[k].name, s.rooms[k].passwordHash, k, map[], r.rooms[k].blacklist,
                                       s.rooms[k].bytesRelayed, "", "", true, false, false)
                 && forall id :: id in r.rooms[k].blacklist <==> Ban(k, id) in s.bans
  {
    var r := Restarted(Synced(s).rows, Synced(s).bans);
    forall k
      ensures k in r.rooms <==> k in s.rooms && s.rooms[k].persistent
      ensures k in r.rooms ==>
                r.rooms[k] == Room(s.rooms[k].name, s.rooms[k].passwordHash, k, map[], BansOf(s.bans, k),
                                   s.rooms[k].bytesRelayed, "", "", true, false, false)
    {
      assert RowOk(s, k);
    }
  }
}
