/** What joining decides: who gets in, and into which room. */
module HubJoins {
  import opened HubState
  import opened HubInvariant
  import opened HubTheorems

  /** What an answer to a join request means for the connection, from the state before to the state after. */
  ghost predicate Means(s: State, conn: nat, req: Request, allowed: bool, r: State, answer: Answer)
    requires conn in s.clients
  {
    var id, key := s.clients[conn].id, RoomKey(req.room, req.passwordHash);
    match answer
    case Entered(k) =>
      && allowed && k == key && IsMember(r, key, id) && r.rooms[key].members[id] == conn
      && conn in r.clients && r.clients[conn].id == id && r.clients[conn].roomKey == key
      && id !in r.rooms[key].blacklist && !r.rooms[key].locked
    case NameRequired => req.room == "" && r.rooms == s.rooms
    case RateLimited => req.room != "" && !allowed && r.rooms == s.rooms
    case BadPassword =>
      && allowed && Outside(r, conn) && (exists k :: k in r.rooms && r.rooms[k].name == req.room)
      && forall k :: k in r.rooms && r.rooms[k].name == req.room ==> r.rooms[k].passwordHash != req.passwordHash
    case Banned => allowed && Outside(r, conn) && key in r.rooms && id in r.rooms[key].blacklist
    case Locked => allowed && Outside(r, conn) && key in r.rooms && r.rooms[key].locked && id !in r.rooms[key].blacklist
  }

  lemma LeaveKeepsIdentity(s: State, conn: nat)
    requires conn in s.clients
    ensures conn in Left(s, conn).clients && Left(s, conn).clients[conn].id == s.clients[conn].id
  {
  }

  lemma EnterMeans(v: State, conn: nat, req: Request, key: string)
    requires conn in v.clients && key in v.rooms && RoomOk(v, key)
    ensures var r, id := Entering(v, conn, req, key), v.clients[conn].id;
            && IsMember(r, key, id) && r.rooms[key].members[id] == conn && conn in r.clients
            && r.clients[conn].id == id && r.clients[conn].roomKey == key
            && r.rooms[key].blacklist == v.rooms[key].blacklist && r.rooms[key].locked == v.rooms[key].locked
  {
  }

  lemma ChooseMeans(u: State, conn: nat, req: Request)
    requires Inv(u) && conn in u.clients && Outside(u, conn) && req.room != ""
    ensures var (r, answer) := Chosen(u, conn, req);
            !answer.NameRequired? && !answer.RateLimited? && Means(u, conn, req, true, r, answer)
  {
    if LookedUp(u, req.room, req.passwordHash) == WrongPassword {
      assert forall k :: k in u.rooms ==> KeyDerived(u, k);
    } else {
      var c, key := u.clients[conn], RoomKey(req.room, req.passwordHash);
      var v := GotOrCreated(u, req.room, req.passwordHash, c.id, c.name);
      CreateStaysOutside(u, req.room, req.passwordHash, c.id, c.name, conn);
      CreateKeeps(u, req.room, req.passwordHash, c.id, c.name);
      EnterMeans(v, conn, req, key);
    }
  }

  /** Who gets in, and where an unsuccessful request leaves the connection. */
  lemma JoinOutcome(s: State, conn: nat, req: Request, allowed: bool)
    requires Inv(s) && conn in s.clients
    ensures var (r, answer) := Joined(s, conn, req, allowed); Means(s, conn, req, allowed, r, answer)
  {
    var t := Renamed(s, conn, req);
    RenameKeeps(s, conn, req);
    if req.room != "" && allowed {
      LeaveKeeps(t, conn);
      LeaveKeepsIdentity(t, conn);
      ChooseMeans(Left(t, conn), conn, req);
    }
  }

  // ---- Is the room entered the room asked for? ----

  /** The room has the name and the password of the request. */
  predicate AskedFor(room: Room, req: Request) {
    room.name == req.room && room.passwordHash == req.passwordHash
  }

  /** Once the connection has left its old room, another name's room is live under the key of the request. */
  predicate Shadowed(s: State, conn: nat, req: Request)
    requires conn in s.clients
  {
    var u, key := Left(Renamed(s, conn, req), conn), RoomKey(req.room, req.passwordHash);
    key in u.rooms && u.rooms[key].name != req.room
  }

  lemma SameNameSamePassword(n: string, h: string, h': string)
    requires RoomKey(n, h) == RoomKey(n, h')
    ensures h == h'
  {
    assert h != "" ==> RoomKey(n, h)[|n| + 1..] == h;
    assert h' != "" ==> RoomKey(n, h')[|n| + 1..] == h';
  }

  lemma ChosenIsAskedIff(u: State, conn: nat, req: Request)
    requires KeysOk(u) && conn in u.clients && Chosen(u, conn, req).1.Entered?
    ensures var (r, answer) := Chosen(u, conn, req);
            var key := RoomKey(req.room, req.passwordHash);
            && answer.key == key && key in r.rooms
            && (AskedFor(r.rooms[key], req) <==> !(key in u.rooms && u.rooms[key].name != req.room))
  {
    var key := RoomKey(req.room, req.passwordHash);
    if key in u.rooms && u.rooms[key].name == req.room {
      assert KeyDerived(u, key);
      SameNameSamePassword(req.room, req.passwordHash, u.rooms[key].passwordHash);
    }
  }

  /** Whoever enters has entered the room of that name and password exactly when no other room shadows it. */
  lemma EntersAskedRoomIff(s: State, conn: nat, req: Request, allowed: bool)
    requires Inv(s) && conn in s.clients && Joined(s, conn, req, allowed).1.Entered?
    ensures var (r, answer) := Joined(s, conn, req, allowed);
            answer.key in r.rooms && (AskedFor(r.rooms[answer.key], req) <==> !Shadowed(s, conn, req))
  {
    var t := Renamed(s, conn, req);
    RenameKeeps(s, conn, req);
    LeaveKeeps(t, conn);
    ChosenIsAskedIff(Left(t, conn), conn, req);
  }

  /** Two different (name, password) pairs share a key only when a name contains a colon. */
  lemma RoomKeyInjective(n: string, h: string, n': string, h': string)
    requires ':' !in n && ':' !in n' && RoomKey(n, h) == RoomKey(n', h')
    ensures n == n' && h == h'
  {
    var k, k' := RoomKey(n, h), RoomKey(n', h');
    if h != "" {
      assert k[|n|] == ':';
    }
    if h' != "" {
      assert k'[|n'|] == ':';
    }
    assert h != "" ==> k[|n| + 1..] == h;
    assert h' != "" ==> k'[|n'| + 1..] == h';
    assert k[..|n|] == n && k'[..|n'|] == n';
  }

  /** No live room has a colon in its name. */
  predicate PlainRooms(s: State) {
    forall k :: k in s.rooms ==> ':' !in s.rooms[k].name
  }

  predicate PlainOp(op: Op) {
    && (op.Create? ==> ':' !in op.name)
    && (op.Join? ==> ':' !in op.req.room)
  }

  lemma PlainLeft(s: State, conn: nat)
    requires PlainRooms(s) && conn in s.clients
    ensures PlainRooms(Left(s, conn))
  {
  }

  lemma PlainCreated(s: State, name: string, hash: string, ownerID: string, ownerName: string)
    requires PlainRooms(s) && ':' !in name
    ensures PlainRooms(GotOrCreated(s, name, hash, ownerID, ownerName))
  {
  }

  lemma PlainChosen(u: State, conn: nat, req: Request)
    requires PlainRooms(u) && conn in u.clients && ':' !in req.room
    ensures PlainRooms(Chosen(u, conn, req).0)
  {
    PlainCreated(u, req.room, req.passwordHash, u.clients[conn].id, u.clients[conn].name);
  }

  lemma PlainRestart(s: State)
    requires Inv(s) && PlainRooms(s)
    ensures PlainRooms(Restarted(s.rows, s.bans))
  {
    forall k | k in s.rows
      ensures ':' !in s.rows[k].name
    {
      assert RowOk(s, k);
    }
  }

  lemma PlainStep(s: State, op: Op)
    requires PlainRooms(s) && Enabled(s, op) && PlainOp(op) && !op.Restart?
    ensures PlainRooms(Step(s, op))
  {
    match op
    case Connect(conn, id) => assert PlainRooms(Connected(s, conn, id));
    case Create(name, hash) => PlainCreated(s, name, hash, "", "");
    case Join(conn, req, allowed) =>
      PlainLeft(Renamed(s, conn, req), conn);
      PlainChosen(Left(Renamed(s, conn, req), conn), conn, req);
    case Leave(conn) => PlainLeft(s, conn);
    case BanIn(key, id) => assert PlainRooms(BannedFrom(s, key, id));
    case UnbanIn(key, id) => assert PlainRooms(UnbannedFrom(s, key, id));
    case KickIn(key, id) => assert PlainRooms(KickedFrom(s, key, id));
    case Configure(key, locked, relayDisabled) => assert PlainRooms(Configured(s, key, locked, relayDisabled));
    case RelaySwitch(_) =>
    case Delete(name) => assert PlainRooms(Deleted(s, name));
    case RelayData(_, _, _, _, _, _) => assert PlainRooms(Step(s, op));
    case Sync => assert PlainRooms(Synced(s));
  }

  lemma {:induction false} PlainRun(ops: seq<Op>)
    requires Run(EMPTY, ops).At? && forall op :: op in ops ==> PlainOp(op)
    ensures PlainRooms(Run(EMPTY, ops).state)
  {
    if ops != [] {
      var most, op := ops[..|ops| - 1], ops[|ops| - 1];
      PlainRun(most);
      RunKeeps(most);
      assert op in ops;
      if op.Restart? {
        PlainRestart(Run(EMPTY, most).state);
      } else {
        PlainStep(Run(EMPTY, most).state, op);
      }
    }
  }

  /** On a server that has only seen names without a colon, whoever enters has entered the room asked for. */
  lemma PlainNamesEnterAskedRoom(ops: seq<Op>, s: State, conn: nat, req: Request, allowed: bool)
    requires Run(EMPTY, ops) == At(s) && (forall op :: op in ops ==> PlainOp(op)) && ':' !in req.room
    requires conn in s.clients && Joined(s, conn, req, allowed).1.Entered?
    ensures var (r, answer) := Joined(s, conn, req, allowed);
            answer.key in r.rooms && AskedFor(r.rooms[answer.key], req)
  {
    RunKeeps(ops);
    PlainRun(ops);
    EntersAskedRoomIff(s, conn, req, allowed);
    var u, key := Left(Renamed(s, conn, req), conn), RoomKey(req.room, req.passwordHash);
    if key in u.rooms {
      assert KeyDerived(s, key);
      RoomKeyInjective(req.room, req.passwordHash, s.rooms[key].name, s.rooms[key].passwordHash);
    }
  }

  // ---- With a colon it need not be ----

  const OWNER := Request("a", "h", "")
  const GUEST := Request("a:h", "", "")
  const PRIVATE := Room("a", "h", "a:h", map["x" := 1], {}, 0, "x", "", false, false, false)
  const WITH_PRIVATE := State(map["a:h" := PRIVATE], map[1 := Client("x", "", "a", "a:h", [])], false, map[], {})

  lemma OwnerMakesPrivate()
    ensures Run(EMPTY, [Connect(1, "x"), Join(1, OWNER, true)]) == At(WITH_PRIVATE)
  {
    var s1, o1, o2 := Connected(EMPTY, 1, "x"), Connect(1, "x"), Join(1, OWNER, true);
    assert RoomKey("a", "h") == "a:h";
    var t := Renamed(s1, 1, OWNER);
    assert t == State(map[], map[1 := Client("x", "", "", "", [])], false, map[], {});
    assert LookedUp(t, "a", "h") == NoRoom;
    var v := GotOrCreated(t, "a", "h", "x", "");
    assert v == t.(rooms := map["a:h" := PRIVATE.(members := map[])]);
    assert Admitted(map[], v.clients, 1, "x", "") == map["x" := 1];
    assert Entering(v, 1, OWNER, "a:h") == WITH_PRIVATE;
    assert [] + [o1] == [o1] && [o1] + [o2] == [o1, o2];
    RunStep(EMPTY, [], o1, EMPTY, s1);
    RunStep(EMPTY, [o1], o2, s1, WITH_PRIVATE);
  }

  /** The owner of room "a" has set a password; a guest who asks for "a:h" without one is let into it. */
  lemma GuestEntersProtectedRoom()
    ensures var q := Run(EMPTY, [Connect(1, "x"), Join(1, OWNER, true), Connect(2, "y")]);
            && q.At? && 2 in q.state.clients
            && var (r, answer) := Joined(q.state, 2, GUEST, true);
               && answer == Entered("a:h") && IsMember(r, "a:h", "y") && !AskedFor(r.rooms["a:h"], GUEST)
               && r.rooms["a:h"].name == "a" && r.rooms["a:h"].passwordHash == "h"
  {
    var ops, o3 := [Connect(1, "x"), Join(1, OWNER, true)], Connect(2, "y");
    var s := Connected(WITH_PRIVATE, 2, "y");
    OwnerMakesPrivate();
    assert ops + [o3] == [ops[0], ops[1], o3];
    RunStep(EMPTY, ops, o3, WITH_PRIVATE, s);
    assert RoomKey("a:h", "") == "a:h" && s.rooms["a:h"] == PRIVATE;
    assert LookedUp(Renamed(s, 2, GUEST), "a:h", "") == NoRoom;
  }
}
