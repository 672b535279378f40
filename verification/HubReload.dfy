/** What a restart finds in the database, over every run of the hub. */
module HubReload {
  import opened HubState
  import opened HubInvariant
  import opened HubTheorems

  // ---- The rooms ----

  /** What a reload makes of the live room under `k`. */
  ghost predicate ReloadedAs(s: State, loaded: map<string, Room>, k: string)
    requires k in loaded && k in s.rooms
  {
    && loaded[k].name == s.rooms[k].name && loaded[k].passwordHash == s.rooms[k].passwordHash
    && loaded[k].key == k && loaded[k].persistent
    && s.rooms[k].blacklist <= loaded[k].blacklist == BansOf(s.bans, k)
  }

  /** Reloading yields exactly the live persistent rooms, each with at least its live bans and only stored ones. */
  lemma ReloadMatches(s: State)
    requires Inv(s)
    ensures var loaded := LoadedRooms(s.rows, s.bans);
            && (forall k :: k in loaded <==> k in s.rooms && s.rooms[k].persistent)
            && forall k :: k in loaded ==> ReloadedAs(s, loaded, k)
  {
    forall k
      ensures k in LoadedRooms(s.rows, s.bans) <==> k in s.rooms && s.rooms[k].persistent
      ensures k in LoadedRooms(s.rows, s.bans) ==> ReloadedAs(s, LoadedRooms(s.rows, s.bans), k)
    {
      assert RowOk(s, k);
      assert k in s.rows ==> BansOk(s, k);
    }
  }

  // ---- Which bans are stored ----

  predicate Records(op: Op, b: Ban) {
    op == BanIn(b.roomKey, b.clientID)
  }

  /** An unban of this client, or the deletion of the live room under this key. */
  predicate Removes(s: State, op: Op, b: Ban) {
    || op == UnbanIn(b.roomKey, b.clientID)
    || (op.Delete? && b.roomKey in s.rooms && s.rooms[b.roomKey].name == op.name)
  }

  /** For each operation of a run: does it remove `b`? */
  function Removals(ops: seq<Op>, b: Ban): (r: seq<bool>)
    ensures |r| == |ops|
  {
    if ops == [] then []
    else
      var q := Run(EMPTY, ops[..|ops| - 1]);
      Removals(ops[..|ops| - 1], b) + [q.At? && Removes(q.state, ops[|ops| - 1], b)]
  }

  /** The ban was recorded at `i` and nothing after that removed it. */
  predicate Stands(ops: seq<Op>, b: Ban, i: int) {
    && 0 <= i < |ops| && Records(ops[i], b)
    && var removals := Removals(ops, b);
       forall j :: i < j < |ops| ==> !removals[j]
  }

  lemma StepBans(s: State, op: Op, b: Ban)
    requires Enabled(s, op)
    ensures b in Step(s, op).bans <==> Records(op, b) || (b in s.bans && !Removes(s, op, b))
  {
    match op
    case Create(name, hash) => assert GotOrCreated(s, name, hash, "", "").bans == s.bans;
    case Join(conn, req, allowed) => JoinBans(s, conn, req, allowed);
    case Leave(conn) => assert Left(s, conn).bans == s.bans;
    case Delete(name) =>
    case _ =>
  }

  lemma JoinBans(s: State, conn: nat, req: Request, allowed: bool)
    requires conn in s.clients
    ensures Joined(s, conn, req, allowed).0.bans == s.bans
  {
    assert Left(Renamed(s, conn, req), conn).bans == s.bans;
  }

  lemma StandsSnoc(ops: seq<Op>, b: Ban, i: int, last: bool)
    requires ops != [] && i < |ops| - 1 && Removals(ops, b) == Removals(ops[..|ops| - 1], b) + [last]
    ensures Stands(ops, b, i) <==> Stands(ops[..|ops| - 1], b, i) && !last
  {
    var removals, n := Removals(ops, b), |ops| - 1;
    assert removals[n] == last;
    assert forall j :: 0 <= j < n ==> removals[j] == Removals(ops[..n], b)[j];
  }

  /** In every run a ban is stored exactly when it was recorded and neither unbanned nor deleted with its room since. */
  lemma {:induction false} StoredIff(ops: seq<Op>, b: Ban)
    requires Run(EMPTY, ops).At?
    ensures b in Run(EMPTY, ops).state.bans <==> exists i :: Stands(ops, b, i)
  {
    if ops != [] {
      var n := |ops| - 1;
      var most, s := ops[..n], Run(EMPTY, ops[..n]).state;
      StoredIff(most, b);
      StepBans(s, ops[n], b);
      forall i | 0 <= i < n
        ensures Stands(ops, b, i) <==> Stands(most, b, i) && !Removes(s, ops[n], b)
      {
        StandsSnoc(ops, b, i, Removes(s, ops[n], b));
      }
      if Records(ops[n], b) {
        assert Stands(ops, b, n);
      } else if b in Step(s, ops[n]).bans {
        var i :| Stands(most, b, i);
        assert Stands(ops, b, i);
      }
    }
  }

  /** So the reloaded blacklist of a room holds exactly the clients whose ban under its key still stands. */
  lemma ReloadedBansStand(ops: seq<Op>, k: string, id: string)
    requires Run(EMPTY, ops).At?
    ensures var s := Run(EMPTY, ops).state;
            var loaded := LoadedRooms(s.rows, s.bans);
            k in loaded ==> (id in loaded[k].blacklist <==> exists i :: Stands(ops, Ban(k, id), i))
  {
    StoredIff(ops, Ban(k, id));
    var s := Run(EMPTY, ops).state;
    assert id in BansOf(s.bans, k) <==> Ban(k, id) in s.bans;
  }

  // ---- When a reload gives back the live blacklist ----

  /** The clients whose ban from room `k` an operation sets or lifts. */
  function NamedBy(op: Op, k: string): (ids: set<string>) {
    if (op.BanIn? || op.UnbanIn?) && op.key == k then {op.id} else {}
  }

  function Named(ops: seq<Op>, k: string): (ids: set<string>) {
    if ops == [] then {} else Named(ops[..|ops| - 1], k) + NamedBy(ops[|ops| - 1], k)
  }

  /** The room under `k` is the same room before and after; a join may delete it and make it anew, a restart always does. */
  predicate Lives(s: State, op: Op, k: string)
    requires Enabled(s, op)
  {
    && k in s.rooms && k in Step(s, op).rooms && !op.Restart?
    && (op.Join? && op.req.room != "" && op.allowed ==> k in Left(Renamed(s, op.conn, op.req), op.conn).rooms)
  }

  predicate LivesThrough(s: State, ops: seq<Op>, k: string) {
    if ops == [] then k in s.rooms
    else
      var q, op := Run(s, ops[..|ops| - 1]), ops[|ops| - 1];
      LivesThrough(s, ops[..|ops| - 1], k) && q.At? && Enabled(q.state, op) && Lives(q.state, op, k)
  }

  /** Stored bans that the live room does not know. */
  function Unlisted(s: State, k: string): (ids: set<string>)
    requires k in s.rooms
  {
    BansOf(s.bans, k) - s.rooms[k].blacklist
  }

  /** The same room, with `ids` no longer among its unlisted bans. */
  ghost predicate Follows(s: State, r: State, k: string, ids: set<string>) {
    && k in s.rooms && k in r.rooms && r.rooms[k].persistent == s.rooms[k].persistent
    && Unlisted(r, k) == Unlisted(s, k) - ids
  }

  lemma LeftFollows(s: State, conn: nat, k: string)
    requires conn in s.clients && k in Left(s, conn).rooms
    ensures Follows(s, Left(s, conn), k, {})
  {
  }

  lemma CreatedFollows(s: State, name: string, hash: string, ownerID: string, ownerName: string, k: string)
    ensures var r := GotOrCreated(s, name, hash, ownerID, ownerName);
            && (k in s.rooms ==> Follows(s, r, k, {}))
            && (k !in s.rooms && k in r.rooms ==>
                  Unlisted(r, k) == BansOf(s.bans, k) && (r.rooms[k].persistent <==> ownerID == ""))
  {
  }

  lemma ChosenFollows(u: State, conn: nat, req: Request, k: string)
    requires conn in u.clients
    ensures var r := Chosen(u, conn, req).0;
            && (k in u.rooms ==> Follows(u, r, k, {}))
            && (k !in u.rooms && k in r.rooms ==>
                  Unlisted(r, k) == BansOf(u.bans, k) && (r.rooms[k].persistent <==> u.clients[conn].id == ""))
  {
    CreatedFollows(u, req.room, req.passwordHash, u.clients[conn].id, u.clients[conn].name, k);
  }

  lemma DeletedFollows(s: State, name: string, k: string)
    requires k in Deleted(s, name).rooms
    ensures Follows(s, Deleted(s, name), k, {})
  {
    var r := Deleted(s, name);
    forall id | id in BansOf(s.bans, k)
      ensures id in BansOf(r.bans, k)
    {
      assert Ban(k, id) in r.bans;
    }
  }

  lemma JoinedFollows(s: State, conn: nat, req: Request, allowed: bool, k: string)
    requires Enabled(s, Join(conn, req, allowed)) && Lives(s, Join(conn, req, allowed), k)
    ensures Follows(s, Joined(s, conn, req, allowed).0, k, {})
  {
    if req.room != "" && allowed {
      LeftFollows(Renamed(s, conn, req), conn, k);
      ChosenFollows(Left(Renamed(s, conn, req), conn), conn, req, k);
    }
  }

  /** While a room lives, an operation takes from its unlisted bans exactly those it names. */
  lemma StepFollows(s: State, op: Op, k: string)
    requires Enabled(s, op) && Lives(s, op, k)
    ensures Follows(s, Step(s, op), k, NamedBy(op, k))
  {
    match op
    case Connect(conn, id) => assert Follows(s, Connected(s, conn, id), k, {});
    case Create(name, hash) => CreatedFollows(s, name, hash, "", "", k);
    case Join(conn, req, allowed) => JoinedFollows(s, conn, req, allowed, k);
    case Leave(conn) => LeftFollows(s, conn, k);
    case BanIn(key, id) => BansOfAdd(s.bans, key, id, k);
    case UnbanIn(key, id) => BansOfRemove(s.bans, key, id, k);
    case KickIn(key, id) => assert Follows(s, KickedFrom(s, key, id), k, {});
    case Configure(_, _, _) => assert Follows(s, Step(s, op), k, {});
    case RelaySwitch(_) =>
    case Delete(name) => DeletedFollows(s, name, k);
    case RelayData(_, _, _, _, _, _) => assert Follows(s, Step(s, op), k, {});
    case Sync => assert Follows(s, Synced(s), k, {});
  }

  lemma {:induction false} RunFollows(s: State, ops: seq<Op>, k: string)
    requires LivesThrough(s, ops, k)
    ensures Run(s, ops).At? && Follows(s, Run(s, ops).state, k, Named(ops, k))
  {
    if ops != [] {
      var most := ops[..|ops| - 1];
      RunFollows(s, most, k);
      StepFollows(Run(s, most).state, ops[|ops| - 1], k);
    }
  }

  /** Only creating, joining and restarting make rooms. */
  lemma OthersMakeNoRoom(s: State, op: Op, k: string)
    requires Enabled(s, op) && k in Step(s, op).rooms && !op.Create? && !op.Join? && !op.Restart?
    ensures Lives(s, op, k)
  {
    match op
    case Connect(conn, id) => assert Connected(s, conn, id).rooms.Keys == s.rooms.Keys;
    case Leave(conn) => LeftFollows(s, conn, k);
    case BanIn(key, id) => assert BannedFrom(s, key, id).rooms.Keys == s.rooms.Keys;
    case UnbanIn(key, id) => assert UnbannedFrom(s, key, id).rooms.Keys == s.rooms.Keys;
    case KickIn(key, id) => assert KickedFrom(s, key, id).rooms.Keys == s.rooms.Keys;
    case Configure(_, _, _) => assert Step(s, op).rooms.Keys == s.rooms.Keys;
    case RelaySwitch(_) =>
    case Delete(_) =>
    case RelayData(_, _, _, _, _, _) => assert Step(s, op).rooms.Keys == s.rooms.Keys;
    case Sync =>
  }

  lemma JoinMadeRoom(s: State, conn: nat, req: Request, allowed: bool, k: string)
    requires conn in s.clients && s.clients[conn].id != "" && k in Joined(s, conn, req, allowed).0.rooms
    requires !Lives(s, Join(conn, req, allowed), k)
    ensures var r := Joined(s, conn, req, allowed).0; Unlisted(r, k) == BansOf(s.bans, k) && !r.rooms[k].persistent
  {
    var u := Left(Renamed(s, conn, req), conn);
    assert u.bans == s.bans && u.clients[conn].id == s.clients[conn].id;
    assert k in u.rooms ==> k in s.rooms;
    ChosenFollows(u, conn, req, k);
  }

  /**
   A room that an operation makes knows none of the stored bans, except after a restart, when it knows
   them all; it is persistent unless a client made it.
   */
  lemma MadeRoom(s: State, op: Op, k: string)
    requires Inv(s) && Enabled(s, op) && k in Step(s, op).rooms && !Lives(s, op, k)
    ensures op.Create? || op.Join? || op.Restart?
    ensures Unlisted(Step(s, op), k) == if op.Restart? then {} else BansOf(s.bans, k)
    ensures Step(s, op).rooms[k].persistent <==> !op.Join?
  {
    if op.Create? {
      CreatedFollows(s, op.name, op.hash, "", "", k);
    } else if op.Join? {
      JoinMadeRoom(s, op.conn, op.req, op.allowed, k);
    } else if op.Restart? {
      assert RowOk(s, k);
    } else {
      OthersMakeNoRoom(s, op, k);
    }
  }

  /**
   From the operation that makes room `k`, through any run in which the room lives: it is reloaded
   exactly if it was not a client that made it, and then with its live blacklist exactly if a restart made
   it or every ban stored under `k` at that moment has been set or lifted since.
   */
  lemma ReloadIff(before: seq<Op>, s: State, op: Op, after: seq<Op>, k: string)
    requires Run(EMPTY, before) == At(s) && Enabled(s, op)
    requires k in Step(s, op).rooms && !Lives(s, op, k) && LivesThrough(Step(s, op), after, k)
    ensures Run(Step(s, op), after).At? && k in Run(Step(s, op), after).state.rooms
    ensures var r := Run(Step(s, op), after).state;
            var loaded := LoadedRooms(r.rows, r.bans);
            && (k in loaded <==> !op.Join?)
            && (k in loaded ==>
                  (loaded[k].blacklist == r.rooms[k].blacklist <==> op.Restart? || BansOf(s.bans, k) <= Named(after, k)))
  {
    RunKeeps(before);
    StepKeeps(s, op);
    MadeRoom(s, op, k);
    ReloadAfter(Step(s, op), after, k);
  }

  lemma ReloadOne(s: State, k: string)
    requires Inv(s) && k in s.rooms
    ensures var loaded := LoadedRooms(s.rows, s.bans);
            && (k in loaded <==> s.rooms[k].persistent)
            && (k in loaded ==> (loaded[k].blacklist == s.rooms[k].blacklist <==> Unlisted(s, k) == {}))
  {
    assert RowOk(s, k) && BansOk(s, k);
    var stored, live := BansOf(s.bans, k), s.rooms[k].blacklist;
    if stored - live == {} {
      forall id | id in stored
        ensures id in live
      {
        assert id in live || id in stored - live;
      }
    }
  }

  lemma ReloadAfter(s: State, ops: seq<Op>, k: string)
    requires Inv(s) && LivesThrough(s, ops, k) && k in s.rooms
    ensures Run(s, ops).At? && k in Run(s, ops).state.rooms
    ensures var r := Run(s, ops).state;
            var loaded := LoadedRooms(r.rows, r.bans);
            && (k in loaded <==> s.rooms[k].persistent)
            && (k in loaded ==> (loaded[k].blacklist == r.rooms[k].blacklist <==> Unlisted(s, k) <= Named(ops, k)))
  {
    RunFollows(s, ops, k);
    RunFrom(s, ops);
    ReloadOne(Run(s, ops).state, k);
    var d, n := Unlisted(s, k), Named(ops, k);
    assert d - n == {} <==> d <= n;
  }

  // ---- A ban that comes back ----

  const ALICE := Request("lab", "", "alice")
  const BOB := Request("lab", "", "")
  const LAB := Room("lab", "", "lab", map["a" := 1], {}, 0, "a", "alice", false, false, false)
  const WITH_LAB := State(map["lab" := LAB], map[1 := Client("a", "alice", "lab", "lab", [])], false, map[], {})

  /** The room that the dashboard makes after the ban. */
  const LAB_AGAIN := Room("lab", "", "lab", map[], {}, 0, "", "", true, false, false)
  const WITH_LAB_AGAIN := State(
    map["lab" := LAB_AGAIN], map[1 := Client("a", "alice", "", "", [])], false,
    map["lab" := Row("lab", "", 0, true)], {Ban("lab", "b")})

  /** Alice makes room "lab" by joining it, Bob is banned, Alice leaves, the dashboard makes "lab" again. */
  const STORY := [Connect(1, "a"), Join(1, ALICE, true), BanIn("lab", "b"), Leave(1), Create("lab", "")]

  /** A first client joins "lab" on an empty server and owns the room. */
  lemma AliceMakesLab()
    ensures Joined(Connected(EMPTY, 1, "a"), 1, ALICE, true).0 == WITH_LAB
  {
    var t := Renamed(Connected(EMPTY, 1, "a"), 1, ALICE);
    assert t == State(map[], map[1 := Client("a", "alice", "", "", [])], false, map[], {});
    assert LookedUp(t, "lab", "") == NoRoom;
    var v := GotOrCreated(t, "lab", "", "a", "alice");
    assert v == t.(rooms := map["lab" := LAB.(members := map[])]);
    assert Admitted(map[], v.clients, 1, "a", "alice") == map["a" := 1];
    assert Entering(v, 1, ALICE, "lab") == WITH_LAB;
  }

  lemma BanThenLeave()
    ensures GotOrCreated(Left(BannedFrom(WITH_LAB, "lab", "b"), 1), "lab", "", "", "") == WITH_LAB_AGAIN
  {
    var s3 := BannedFrom(WITH_LAB, "lab", "b");
    assert s3.rooms["lab"] == LAB.(blacklist := {"b"}) && s3.bans == {Ban("lab", "b")};
    var s4 := Left(s3, 1);
    assert s4.rooms == map[] && s4.clients == WITH_LAB_AGAIN.clients;
  }

  lemma StoryToLab()
    ensures Run(EMPTY, STORY[..2]) == At(WITH_LAB)
  {
    var s1 := Connected(EMPTY, 1, "a");
    AliceMakesLab();
    StoryStep(0, EMPTY, s1);
    StoryStep(1, s1, WITH_LAB);
  }

  lemma StoryToBan()
    ensures Run(EMPTY, STORY[..3]) == At(BannedFrom(WITH_LAB, "lab", "b"))
  {
    StoryToLab();
    StoryStep(2, WITH_LAB, BannedFrom(WITH_LAB, "lab", "b"));
  }

  lemma StoryToLeave()
    ensures Run(EMPTY, STORY[..4]) == At(Left(BannedFrom(WITH_LAB, "lab", "b"), 1))
  {
    var s := BannedFrom(WITH_LAB, "lab", "b");
    StoryToBan();
    assert 1 in s.clients;
    StoryStep(3, s, Left(s, 1));
  }

  lemma StoryRuns()
    ensures Run(EMPTY, STORY) == At(WITH_LAB_AGAIN)
  {
    StoryToLeave();
    BanThenLeave();
    StoryStep(4, Left(BannedFrom(WITH_LAB, "lab", "b"), 1), WITH_LAB_AGAIN);
    assert STORY[..5] == STORY;
  }

  lemma StoryStep(i: nat, q: State, r: State)
    requires i < |STORY| && Run(EMPTY, STORY[..i]) == At(q) && Enabled(q, STORY[i]) && Step(q, STORY[i]) == r
    ensures Run(EMPTY, STORY[..i + 1]) == At(r)
  {
    RunStep(EMPTY, STORY[..i], STORY[i], q, r);
    assert STORY[..i + 1] == STORY[..i] + [STORY[i]];
  }

  /** Bob may enter the new "lab" until the server restarts; then the ban from the old one is back. */
  lemma StaleBanIsReloaded()
    ensures var before, after := Run(EMPTY, STORY), Run(EMPTY, STORY + [Restart]);
            && before.At? && after.At?
            && Joined(Connected(before.state, 2, "b"), 2, BOB, true).1 == Entered("lab")
            && Joined(Connected(after.state, 2, "b"), 2, BOB, true).1 == Banned
  {
    StoryRuns();
    var s := Restarted(WITH_LAB_AGAIN.rows, WITH_LAB_AGAIN.bans);
    RunStep(EMPTY, STORY, Restart, WITH_LAB_AGAIN, s);
    BobEnters();
    BobIsBanned(s);
  }

  lemma BobEnters()
    ensures Joined(Connected(WITH_LAB_AGAIN, 2, "b"), 2, BOB, true).1 == Entered("lab")
  {
    var t := Renamed(Connected(WITH_LAB_AGAIN, 2, "b"), 2, BOB);
    assert t.rooms["lab"].name == "lab" && t.rooms["lab"].blacklist == {} && !t.rooms["lab"].locked;
    assert LookedUp(t, "lab", "") == Found("lab");
  }

  lemma BobIsBanned(s: State)
    requires s == Restarted(WITH_LAB_AGAIN.rows, WITH_LAB_AGAIN.bans)
    ensures Joined(Connected(s, 2, "b"), 2, BOB, true).1 == Banned
  {
    assert Ban("lab", "b") in s.bans && "b" in BansOf(s.bans, "lab");
    var t := Renamed(Connected(s, 2, "b"), 2, BOB);
    assert t.rooms["lab"].name == "lab" && "b" in t.rooms["lab"].blacklist;
    assert LookedUp(t, "lab", "") == Found("lab");
  }
}
