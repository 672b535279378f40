/** Runs of the hub's handlers, restarts included, and the isolation of rooms in all of them. */
module HubTheorems {
  import opened HubState
  import opened HubInvariant

  /** One handler, with the room or connection that its search over a map happened to pick. */
  datatype Op =
    | Connect(conn: nat, id: string)
    | Create(name: string, hash: string)
    | Join(conn: nat, req: Request, allowed: bool)
    | Leave(conn: nat)
    | BanIn(key: string, id: string)
    | UnbanIn(key: string, id: string)
    | KickIn(key: string, id: string)
    | Configure(key: string, locked: bool, relayDisabled: bool)
    | RelaySwitch(off: bool)
    | Delete(name: string)
    | RelayData(from: string, to: string, fromRoom: string, toRoom: string, data: Payload, isData: bool)
    | Sync
    | Restart

  /** What each handler can rely on: fresh connections, non-empty names, searches that found something. */
  predicate Enabled(s: State, op: Op) {
    match op
    case Connect(conn, id) => conn !in s.clients && id != ""
    case Create(name, _) => name != ""
    case Join(conn, _, _) => conn in s.clients
    case Leave(conn) => conn in s.clients
    case BanIn(key, _) => key in s.rooms
    case UnbanIn(key, _) => key in s.rooms
    case KickIn(key, _) => key in s.rooms
    case Configure(key, _, _) => key in s.rooms
    case RelaySwitch(_) => true
    case Delete(_) => true
    case RelayData(from, to, fromRoom, toRoom, _, _) =>
      && IsMember(s, fromRoom, from) && s.rooms[fromRoom].members[from] in s.clients
      && IsMember(s, toRoom, to) && s.rooms[toRoom].members[to] in s.clients
    case Sync => true
    case Restart => true
  }

  function Step(s: State, op: Op): (r: State)
    requires Enabled(s, op)
  {
    match op
    case Connect(conn, id) => Connected(s, conn, id)
    case Create(name, hash) => GotOrCreated(s, name, hash, "", "")
    case Join(conn, req, allowed) => Joined(s, conn, req, allowed).0
    case Leave(conn) => Left(s, conn)
    case BanIn(key, id) => BannedFrom(s, key, id)
    case UnbanIn(key, id) => UnbannedFrom(s, key, id)
    case KickIn(key, id) => KickedFrom(s, key, id)
    case Configure(key, locked, relayDisabled) => Configured(s, key, locked, relayDisabled)
    case RelaySwitch(off) => s.(relayOff := off)
    case Delete(name) => Deleted(s, name)
    case RelayData(from, to, fromRoom, toRoom, data, isData) =>
      Relayed(s, from, to, s.rooms[fromRoom].members[from], s.rooms[toRoom].members[to], data, isData)
    case Sync => Synced(s)
    case Restart => Restarted(s.rows, s.bans)
  }

  datatype Outcome = Stuck | At(state: State)

  /** The state after the handlers `ops`, if each of them could run. */
  function Run(s: State, ops: seq<Op>): (r: Outcome) {
    if ops == [] then At(s)
    else
      var q, op := Run(s, ops[..|ops| - 1]), ops[|ops| - 1];
      if q.At? && Enabled(q.state, op) then At(Step(q.state, op)) else Stuck
  }

  lemma StepKeeps(s: State, op: Op)
    requires Inv(s) && Enabled(s, op)
    ensures Inv(Step(s, op))
  {
    match op
    case Connect(conn, id) => ConnectKeeps(s, conn, id);
    case Create(name, hash) => CreateKeeps(s, name, hash, "", "");
    case Join(conn, req, allowed) => JoinKeeps(s, conn, req, allowed);
    case Leave(conn) => LeaveKeeps(s, conn);
    case BanIn(key, id) => BanKeeps(s, key, id);
    case UnbanIn(key, id) => UnbanKeeps(s, key, id);
    case KickIn(key, id) => KickKeeps(s, key, id);
    case Configure(key, locked, relayDisabled) => ConfigureKeeps(s, key, locked, relayDisabled);
    case RelaySwitch(off) =>
      StoreFrame(s, s.(relayOff := off));
      MembersFrame(s, s.(relayOff := off));
    case Delete(name) => DeleteKeeps(s, name);
    case RelayData(from, to, fromRoom, toRoom, data, isData) =>
      RelayKeeps(s, from, to, s.rooms[fromRoom].members[from], s.rooms[toRoom].members[to], data, isData);
    case Sync => SyncKeeps(s);
    case Restart =>
      RowsAreGood(s);
      RestartKeeps(s.rows, s.bans);
  }

  /** A server that has just started on an empty database. */
  const EMPTY := State(map[], map[], false, map[], {})

  lemma {:induction false} RunFrom(s: State, ops: seq<Op>)
    requires Inv(s) && Run(s, ops).At?
    ensures Inv(Run(s, ops).state)
  {
    if ops != [] {
      var q := Run(s, ops[..|ops| - 1]);
      RunFrom(s, ops[..|ops| - 1]);
      StepKeeps(q.state, ops[|ops| - 1]);
    }
  }

  /**
   In every state that a new server reaches, through any number of restarts, members know their room and
   the database mirrors the rooms; so every restart finds rows that this program wrote.
   */
  lemma RunKeeps(ops: seq<Op>)
    requires Run(EMPTY, ops).At?
    ensures Inv(Run(EMPTY, ops).state) && GoodRows(Run(EMPTY, ops).state.rows)
  {
    assert Inv(EMPTY);
    RunFrom(EMPTY, ops);
    RowsAreGood(Run(EMPTY, ops).state);
  }

  lemma RunStep(s: State, ops: seq<Op>, op: Op, q: State, r: State)
    requires Run(s, ops) == At(q) && Enabled(q, op) && Step(q, op) == r
    ensures Run(s, ops + [op]) == At(r)
  {
    assert (ops + [op])[..|ops|] == ops;
  }

  // ---- Isolation ----

  /** A connection is a member of at most one live room, under its own id. */
  lemma OneRoomPerConnection(s: State, k: string, id: string, k': string, id': string)
    requires Inv(s) && IsMember(s, k, id) && IsMember(s, k', id')
    requires s.rooms[k].members[id] == s.rooms[k'].members[id']
    ensures k == k' && id == id'
  {
    assert MemberOk(s, k, id) && MemberOk(s, k', id');
  }

  lemma RelayBetween(s: State, from: string, to: string, sender: nat, target: nat, data: Payload, isData: bool, a: string, b: string)
    requires sender in s.clients && s.clients[sender].roomKey == a && a in s.rooms && a != ""
    requires target in s.clients && s.clients[target].roomKey == b && b in s.rooms
    ensures var r := Relayed(s, from, to, sender, target, data, isData);
            if a == b && !(isData && (s.relayOff || s.rooms[b].relayDisabled))
            then
              && r.rooms == s.rooms[b := s.rooms[b].(bytesRelayed := s.rooms[b].bytesRelayed + |data|)]
              && r.clients == s.clients[target := s.clients[target].(inbox := r.clients[target].inbox)]
              && r.clients[target].inbox ==
                   s.clients[target].inbox + (if |s.clients[target].inbox| < 4096 then [Envelope(from, to, data)] else [])
            else r == s
  {
    var q := s.clients[target].inbox;
    assert q + [] == q;
  }

  /**
   Data crosses between two members exactly when their rooms are the same room and its relay is not
   switched off for it; then that room's counter grows by the payload length, the target's queue by the
   envelope unless it is full, and nothing else changes.
   */
  lemma RelayIsolation(s: State, from: string, to: string, fromRoom: string, toRoom: string, data: Payload, isData: bool)
    requires Inv(s) && Enabled(s, RelayData(from, to, fromRoom, toRoom, data, isData))
    ensures var target := s.rooms[toRoom].members[to];
            var r := Step(s, RelayData(from, to, fromRoom, toRoom, data, isData));
            if fromRoom == toRoom && !(isData && (s.relayOff || s.rooms[toRoom].relayDisabled))
            then
              && r.rooms == s.rooms[toRoom := s.rooms[toRoom].(bytesRelayed := s.rooms[toRoom].bytesRelayed + |data|)]
              && r.clients == s.clients[target := s.clients[target].(inbox := r.clients[target].inbox)]
              && r.clients[target].inbox ==
                   s.clients[target].inbox + (if |s.clients[target].inbox| < 4096 then [Envelope(from, to, data)] else [])
            else r == s
  {
    assert MemberOk(s, fromRoom, from) && MemberOk(s, toRoom, to) && RoomOk(s, toRoom);
    RelayBetween(s, from, to, s.rooms[fromRoom].members[from], s.rooms[toRoom].members[to], data, isData, fromRoom, toRoom);
  }

  /** Membership implies the room key; the converse fails, for instance after a kick. */
  lemma StaleKeyAfterKick(s: State, key: string, id: string)
    requires Inv(s) && IsMember(s, key, id)
    ensures var r, conn := KickedFrom(s, key, id), s.rooms[key].members[id];
            conn in r.clients && r.clients[conn].roomKey == key && !IsMember(r, key, id)
  {
    assert MemberOk(s, key, id);
  }
}
