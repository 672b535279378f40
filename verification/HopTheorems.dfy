/** What crosses a bridge, over every run of the three-party system. */
module HopTheorems {
  import opened HopRelay
  import opened HopSystem

  // ---- The invariant ----

  /** A message about a tunnel travels on the link of the peer at that end. */
  ghost predicate Tagged(ends: map<string, End>, p: Packet) {
    !p.msg.HopAccept? && !p.msg.HopReject? ==> p.msg.id in ends && ends[p.msg.id].peer == p.peer
  }

  /** Ends come in pairs, each naming the other. */
  ghost predicate EndOk(s: Sys, x: string)
    requires x in s.ends
  {
    var y := s.ends[x].partner;
    && x in s.logs && y in s.ends && y in s.logs && y != x && s.ends[y].partner == x
    && (x in s.table.byTunnel ==>
          && y in s.table.byTunnel && s.table.byTunnel[y] == s.table.byTunnel[x]
          && OtherID(s.table.byTunnel[x], x) == y && OtherPeer(s.table.byTunnel[x], x) == s.ends[y].peer)
  }

  /** What has crossed B from end `x`: delivered at the partner, or on its way there. */
  ghost function Crossed(s: Sys, x: string): (d: seq<Payload>)
    requires x in s.ends && EndOk(s, x)
  {
    s.logs[s.ends[x].partner].delivered + Flying(s.fromB, s.ends[x].partner)
  }

  /** Everything delivered at the partner or on its way there came from this end, in order and without a gap;
      while the bridge stands, nothing is missing. */
  ghost predicate FlowOk(s: Sys, x: string)
    requires x in s.ends && EndOk(s, x)
  {
    if x in s.table.byTunnel
    then Crossed(s, x) + Flying(s.toB, x) == s.logs[x].sent
    else Crossed(s, x) <= s.logs[x].sent
  }

  ghost predicate Linked(s: Sys) {
    && Paired(s.table)
    && (forall x :: x in s.table.byTunnel ==> x in s.ends)
    && (forall p :: p in s.toB ==> Tagged(s.ends, p))
    && (forall p :: p in s.fromB ==> Tagged(s.ends, p))
    && (forall x :: x in s.ends ==> EndOk(s, x))
  }

  ghost predicate Inv(s: Sys) {
    && Linked(s)
    && forall x :: x in s.ends ==> FlowOk(s, x)
  }

  // ---- The links ----

  lemma WithoutTagged(ends: map<string, End>, q: seq<Packet>, i: nat)
    requires i < |q| && forall p :: p in q ==> Tagged(ends, p)
    ensures Tagged(ends, q[i])
    ensures forall p :: p in Without(q, i) ==> Tagged(ends, p)
  {
    assert q[i] in q;
    assert forall p :: p in Without(q, i) ==> p in q;
  }

  lemma OutputTagged(s: Sys, id: string, bytes: Payload)
    requires Linked(s)
    ensures forall p :: p in DataOut(s.table, id, bytes) + CloseOut(s.table, id) + RejectOut(s.table, id) ==> Tagged(s.ends, p)
  {
    if id in s.table.byTunnel {
      assert EndOk(s, id);
    }
  }

  lemma EndFrame(s: Sys, r: Sys, x: string)
    requires x in s.ends && EndOk(s, x)
    requires r.ends == s.ends && r.table == s.table && r.logs.Keys == s.logs.Keys
    ensures EndOk(r, x)
  {
  }

  lemma NewBridgeEnd(s: Sys, b: Bridge, x: string)
    requires Enabled(s, NewBridge(b)) && x in Step(s, NewBridge(b)).ends
    requires x in s.ends ==> EndOk(s, x)
    requires forall z :: z in s.table.byTunnel ==> z in s.ends
    ensures EndOk(Step(s, NewBridge(b)), x)
  {
  }

  lemma NewBridgeTagged(s: Sys, b: Bridge, p: Packet)
    requires Enabled(s, NewBridge(b))
    requires p in s.toB || p in s.fromB ==> Tagged(s.ends, p)
    requires p in Step(s, NewBridge(b)).toB || p in Step(s, NewBridge(b)).fromB
    ensures Tagged(Step(s, NewBridge(b)).ends, p)
  {
  }

  lemma NewBridgeLinked(s: Sys, b: Bridge)
    requires Linked(s) && Enabled(s, NewBridge(b))
    ensures Linked(Step(s, NewBridge(b)))
  {
    var r := Step(s, NewBridge(b));
    forall p | p in r.toB || p in r.fromB
      ensures Tagged(r.ends, p)
    {
      NewBridgeTagged(s, b, p);
    }
    forall x | x in r.ends
      ensures EndOk(r, x)
    {
      NewBridgeEnd(s, b, x);
    }
    NewBridgePairs(s, b);
  }

  lemma NewBridgePairs(s: Sys, b: Bridge)
    requires Paired(s.table) && Enabled(s, NewBridge(b)) && forall z :: z in s.table.byTunnel ==> z in s.ends
    ensures Paired(Registered(s.table, b))
    ensures forall z :: z in Registered(s.table, b).byTunnel ==> z in Step(s, NewBridge(b)).ends
  {
  }

  lemma RelayLinked(s: Sys, i: nat)
    requires Linked(s) && IsHead(s.toB, i)
    ensures Linked(AtRelay(s, i))
  {
    var r := AtRelay(s, i);
    WithoutTagged(s.ends, s.toB, i);
    var m := s.toB[i].msg;
    if m.Data? || m.Close? || m.Rejected? {
      OutputTagged(s, m.id, if m.Data? then m.bytes else []);
      CloseKeepsPairs(s.table, m.id);
      forall p | p in r.fromB
        ensures Tagged(r.ends, p)
      {
        assert p in s.fromB || p in DataOut(s.table, m.id, if m.Data? then m.bytes else []) + CloseOut(s.table, m.id) + RejectOut(s.table, m.id);
      }
    }
    forall x | x in r.ends
      ensures EndOk(r, x)
    {
      assert EndOk(s, x);
    }
  }

  lemma PeerTagged(s: Sys, i: nat, answer: Answer)
    requires Linked(s) && i < |s.fromB|
    ensures forall p :: p in AtPeer(s, i, answer).toB ==> Tagged(s.ends, p)
  {
    assert s.fromB[i] in s.fromB;
  }

  lemma PeerLinked(s: Sys, i: nat, answer: Answer)
    requires Linked(s) && IsHead(s.fromB, i)
    ensures Linked(AtPeer(s, i, answer))
  {
    var r := AtPeer(s, i, answer);
    WithoutTagged(s.ends, s.fromB, i);
    PeerTagged(s, i, answer);
    assert r.fromB == Without(s.fromB, i);
    forall x | x in r.ends
      ensures EndOk(r, x)
    {
      EndFrame(s, r, x);
    }
  }

  lemma LocalLinked(s: Sys, e: Event)
    requires Linked(s) && Enabled(s, e) && (e.LocalOpen? || e.LocalSend? || e.LocalClose?)
    ensures Linked(Step(s, e))
  {
    var r := Step(s, e);
    forall p | p in r.toB
      ensures Tagged(r.ends, p)
    {
      assert p in s.toB ==> Tagged(s.ends, p);
    }
    forall x | x in r.ends
      ensures EndOk(r, x)
    {
      assert EndOk(s, x);
    }
  }

  lemma StepLinked(s: Sys, e: Event)
    requires Linked(s) && Enabled(s, e)
    ensures Linked(Step(s, e))
  {
    match e
    case NewBridge(b) => NewBridgeLinked(s, b);
    case ToRelay(i) => RelayLinked(s, i);
    case ToPeer(i, answer) => PeerLinked(s, i, answer);
    case _ => LocalLinked(s, e);
  }

  // ---- The flows ----

  lemma FlyingTaken(s: Sys, q: seq<Packet>, i: nat, x: string)
    requires IsHead(q, i) && forall p :: p in q ==> Tagged(s.ends, p)
    ensures var d: seq<Payload> := if q[i].msg.Data? && q[i].msg.id == x then [q[i].msg.bytes] else [];
            Flying(q, x) == d + Flying(Without(q, i), x)
  {
    assert q[i] in q;
    FlyingWithout(q, i, x);
  }

  /** A step that changes neither what crossed nor what waits before B nor what was sent. */
  lemma SameFlow(s: Sys, r: Sys, x: string)
    requires x in s.ends && EndOk(s, x) && FlowOk(s, x) && x in r.ends && EndOk(r, x)
    requires Crossed(r, x) == Crossed(s, x) && r.logs[x].sent == s.logs[x].sent
    requires x in r.table.byTunnel ==> x in s.table.byTunnel && Flying(r.toB, x) == Flying(s.toB, x)
    ensures FlowOk(r, x)
  {
  }

  lemma NewEndFlow(s: Sys, b: Bridge, x: string)
    requires Inv(s) && Enabled(s, NewBridge(b)) && (x == b.inID || x == b.outID)
    requires x in Step(s, NewBridge(b)).ends && EndOk(Step(s, NewBridge(b)), x)
    ensures FlowOk(Step(s, NewBridge(b)), x)
  {
    var y := Step(s, NewBridge(b)).ends[x].partner;
    NewBridgeFlying(s, b, y);
    NothingFlying(s.fromB, y);
    NothingFlying(s.toB, x);
  }

  lemma OldEndFlow(s: Sys, b: Bridge, x: string)
    requires Inv(s) && Enabled(s, NewBridge(b)) && x != b.inID && x != b.outID
    requires x in Step(s, NewBridge(b)).ends && EndOk(Step(s, NewBridge(b)), x)
    ensures FlowOk(Step(s, NewBridge(b)), x)
  {
    var r := Step(s, NewBridge(b));
    NewBridgeFlying(s, b, r.ends[x].partner);
    assert EndOk(s, x) && FlowOk(s, x);
    SameFlow(s, r, x);
  }

  lemma NewBridgeFlow(s: Sys, b: Bridge, x: string)
    requires Inv(s) && Enabled(s, NewBridge(b)) && x in Step(s, NewBridge(b)).ends
    ensures var r := Step(s, NewBridge(b)); EndOk(r, x) && FlowOk(r, x)
  {
    NewBridgeLinked(s, b);
    if x == b.inID || x == b.outID {
      NewEndFlow(s, b, x);
    } else {
      OldEndFlow(s, b, x);
    }
  }

  lemma NewBridgeFlying(s: Sys, b: Bridge, y: string)
    requires Enabled(s, NewBridge(b))
    ensures Flying(Step(s, NewBridge(b)).fromB, y) == Flying(s.fromB, y)
  {
    var open, accept := Packet(b.target, Open(b.outID)), Packet(b.origin, HopAccept(b.hopID, b.inID));
    assert Step(s, NewBridge(b)).fromB == (s.fromB + [open]) + [accept];
    FlyingAppend(s.fromB, open, y);
    FlyingAppend(s.fromB + [open], accept, y);
  }

  lemma Requeue(a: seq<Payload>, d: seq<Payload>, b: seq<Payload>)
    ensures (a + d) + b == a + (d + b)
  {
  }

  lemma SendFlow(s: Sys, id: string, bytes: Payload, x: string)
    requires Enabled(s, LocalSend(id, bytes)) && x in s.ends && EndOk(s, x) && FlowOk(s, x)
    requires EndOk(Step(s, LocalSend(id, bytes)), x)
    ensures FlowOk(Step(s, LocalSend(id, bytes)), x)
  {
    var r := Step(s, LocalSend(id, bytes));
    FlyingAppend(s.toB, Packet(s.ends[id].peer, Data(id, bytes)), x);
    assert Crossed(r, x) == Crossed(s, x);
    if id == x {
      assert Crossed(s, x) + (Flying(s.toB, x) + [bytes]) == (Crossed(s, x) + Flying(s.toB, x)) + [bytes];
    } else {
      SameFlow(s, r, x);
    }
  }

  lemma CloseFlow(s: Sys, e: Event, x: string)
    requires Enabled(s, e) && (e.LocalOpen? || e.LocalClose?) && x in s.ends && EndOk(s, x) && FlowOk(s, x)
    requires EndOk(Step(s, e), x)
    ensures FlowOk(Step(s, e), x)
  {
    if e.LocalClose? {
      FlyingAppend(s.toB, Packet(s.ends[e.id].peer, Close(e.id)), x);
    }
    SameFlow(s, Step(s, e), x);
  }

  /** B forwards data of this end: what crossed grows by it, what waits before B shrinks by it. */
  lemma ForwardOwn(s: Sys, i: nat, x: string)
    requires i < |s.toB| && x in s.ends && EndOk(s, x) && FlowOk(s, x) && x in s.table.byTunnel
    requires s.toB[i].msg.Data? && s.toB[i].msg.id == x && EndOk(AtRelay(s, i), x)
    requires Flying(s.toB, x) == [s.toB[i].msg.bytes] + Flying(Without(s.toB, i), x)
    ensures FlowOk(AtRelay(s, i), x)
  {
    var d, y := s.toB[i].msg.bytes, s.ends[x].partner;
    FlyingAppend(s.fromB, DataOut(s.table, x, d)[0], y);
    Requeue(s.logs[y].delivered, Flying(s.fromB, y), [d]);
    Requeue(Crossed(s, x), [d], Flying(Without(s.toB, i), x));
  }

  /** Any other message that B handles leaves what crossed from this end as it was. */
  lemma RelayOther(s: Sys, i: nat, x: string)
    requires i < |s.toB| && x in s.ends && EndOk(s, x)
    requires s.toB[i].msg.Data? && s.toB[i].msg.id in s.table.byTunnel ==>
               s.toB[i].msg.id in s.ends && EndOk(s, s.toB[i].msg.id) && s.toB[i].msg.id != x
    requires EndOk(AtRelay(s, i), x)
    ensures Crossed(AtRelay(s, i), x) == Crossed(s, x)
  {
    var r, m, y := AtRelay(s, i), s.toB[i].msg, s.ends[x].partner;
    if (m.Data? || m.Close? || m.Rejected?) && m.id in s.table.byTunnel {
      var p := if m.Data? then DataOut(s.table, m.id, m.bytes)[0]
               else if m.Close? then CloseOut(s.table, m.id)[0] else RejectOut(s.table, m.id)[0];
      assert r.fromB == s.fromB + [p];
      FlyingAppend(s.fromB, p, y);
    } else {
      assert r.fromB == s.fromB;
    }
  }

  lemma RelayFlow(s: Sys, i: nat, x: string)
    requires Inv(s) && IsHead(s.toB, i) && x in s.ends
    requires EndOk(AtRelay(s, i), x)
    ensures FlowOk(AtRelay(s, i), x)
  {
    assert EndOk(s, x) && FlowOk(s, x);
    var m := s.toB[i].msg;
    FlyingTaken(s, s.toB, i, x);
    if m.Data? && m.id in s.table.byTunnel && m.id == x {
      ForwardOwn(s, i, x);
    } else {
      if m.Data? && m.id in s.table.byTunnel {
        assert EndOk(s, m.id);
      }
      RelayOther(s, i, x);
      SameFlow(s, AtRelay(s, i), x);
    }
  }

  /** What a delivery does to one end's log. */
  lemma PeerEffect(s: Sys, i: nat, answer: Answer, z: string)
    requires i < |s.fromB| && z in s.logs
    ensures var r, m := AtPeer(s, i, answer), s.fromB[i].msg;
            && r.table == s.table && r.ends == s.ends && r.fromB == Without(s.fromB, i)
            && z in r.logs && r.logs[z].sent == s.logs[z].sent
            && r.logs[z].delivered == s.logs[z].delivered + if m.Data? && m.id == z then [m.bytes] else []
  {
    assert s.logs[z].delivered + [] == s.logs[z].delivered;
  }

  /** Delivery at a peer changes what crossed only from "on its way" to "delivered". */
  lemma PeerFlow(s: Sys, i: nat, answer: Answer, x: string)
    requires i < |s.fromB| && x in s.ends && EndOk(s, x) && FlowOk(s, x) && x in AtPeer(s, i, answer).ends && EndOk(AtPeer(s, i, answer), x)
    requires var y, m := s.ends[x].partner, s.fromB[i].msg;
             Flying(s.fromB, y) == (if m.Data? && m.id == y then [m.bytes] else []) + Flying(Without(s.fromB, i), y)
    ensures Crossed(AtPeer(s, i, answer), x) == Crossed(s, x) && FlowOk(AtPeer(s, i, answer), x)
  {
    var m, y := s.fromB[i].msg, s.ends[x].partner;
    PeerSends(s, i, answer, x);
    PeerEffect(s, i, answer, x);
    PeerEffect(s, i, answer, y);
    Requeue(s.logs[y].delivered, if m.Data? && m.id == y then [m.bytes] else [], Flying(Without(s.fromB, i), y));
    SameFlow(s, AtPeer(s, i, answer), x);
  }

  /** No answer of a peer to B carries data. */
  lemma PeerSends(s: Sys, i: nat, answer: Answer, x: string)
    requires i < |s.fromB|
    ensures Flying(AtPeer(s, i, answer).toB, x) == Flying(s.toB, x)
  {
    var m, peer := s.fromB[i].msg, s.fromB[i].peer;
    if m.Open? || m.Close? {
      FlyingAppend(s.toB, Packet(peer, Opened(m.id)), x);
      FlyingAppend(s.toB, Packet(peer, Rejected(m.id)), x);
      FlyingAppend(s.toB, Packet(peer, Close(m.id)), x);
    }
  }

  lemma StepFlow(s: Sys, e: Event, x: string)
    requires Inv(s) && Enabled(s, e) && x in Step(s, e).ends
    requires EndOk(Step(s, e), x)
    ensures FlowOk(Step(s, e), x)
  {
    if e.NewBridge? {
      NewBridgeFlow(s, e.bridge, x);
    } else {
      assert EndOk(s, x) && FlowOk(s, x);
      match e
      case LocalSend(id, bytes) => SendFlow(s, id, bytes, x);
      case ToRelay(i) => RelayFlow(s, i, x);
      case ToPeer(i, answer) =>
        FlyingTaken(s, s.fromB, i, s.ends[x].partner);
        PeerFlow(s, i, answer, x);
      case _ => CloseFlow(s, e, x);
    }
  }

  lemma RunLast(es: seq<Event>)
    requires es != [] && Run(es).At?
    ensures var q := Run(es[..|es| - 1]);
            q.At? && Enabled(q.state, es[|es| - 1]) && Run(es).state == Step(q.state, es[|es| - 1])
  {
  }

  lemma {:induction false} RunKeeps(es: seq<Event>)
    requires Run(es).At?
    ensures Inv(Run(es).state)
  {
    if es != [] {
      RunKeeps(es[..|es| - 1]);
      var s, e := Run(es[..|es| - 1]).state, es[|es| - 1];
      StepLinked(s, e);
      forall x | x in Step(s, e).ends
        ensures EndOk(Step(s, e), x) && FlowOk(Step(s, e), x)
      {
        StepFlow(s, e, x);
      }
    }
  }

  /** In every run, what is delivered at one end of a bridge is a prefix of what was sent into the other. */
  lemma DeliveredIsPrefix(es: seq<Event>, x: string)
    requires Run(es).At? && x in Run(es).state.ends
    ensures var s := Run(es).state;
            && x in s.logs && s.ends[x].partner in s.logs
            && s.logs[s.ends[x].partner].delivered <= s.logs[x].sent
  {
    RunKeeps(es);
    var s := Run(es).state;
    assert EndOk(s, x) && FlowOk(s, x);
  }

  // ---- After a close or reject ----

  /** The end is known, its bridge is down, and `d` is what crossed it. */
  ghost predicate DeadAt(s: Sys, x: string, partner: string, d: seq<Payload>) {
    x in s.ends && x !in s.table.byTunnel && s.ends[x].partner == partner && EndOk(s, x) && Crossed(s, x) == d
  }

  lemma DeadNewBridge(s: Sys, b: Bridge, x: string)
    requires Enabled(s, NewBridge(b)) && x in s.ends && EndOk(s, x) && x !in s.table.byTunnel
    requires EndOk(Step(s, NewBridge(b)), x)
    ensures DeadAt(Step(s, NewBridge(b)), x, s.ends[x].partner, Crossed(s, x))
  {
    NewBridgeFlying(s, b, s.ends[x].partner);
  }

  lemma DeadRelay(s: Sys, i: nat, x: string)
    requires Linked(s) && IsHead(s.toB, i) && x in s.ends && x !in s.table.byTunnel && EndOk(s, x)
    requires EndOk(AtRelay(s, i), x)
    ensures DeadAt(AtRelay(s, i), x, s.ends[x].partner, Crossed(s, x))
  {
    if s.toB[i].msg.Data? && s.toB[i].msg.id in s.table.byTunnel {
      assert EndOk(s, s.toB[i].msg.id);
    }
    RelayOther(s, i, x);
  }

  lemma DeadLocal(s: Sys, e: Event, x: string)
    requires Enabled(s, e) && (e.LocalOpen? || e.LocalSend? || e.LocalClose?)
    requires x in s.ends && x !in s.table.byTunnel && EndOk(s, x) && EndOk(Step(s, e), x)
    ensures DeadAt(Step(s, e), x, s.ends[x].partner, Crossed(s, x))
  {
  }

  /** A bridge that is down stays down, and nothing more crosses it. */
  lemma DeadStep(s: Sys, e: Event, x: string)
    requires Inv(s) && Enabled(s, e) && x in s.ends && x !in s.table.byTunnel && EndOk(s, x)
    ensures DeadAt(Step(s, e), x, s.ends[x].partner, Crossed(s, x))
  {
    StepLinked(s, e);
    assert FlowOk(s, x);
    assert x in Step(s, e).ends;
    assert EndOk(Step(s, e), x);
    match e
    case NewBridge(b) => DeadNewBridge(s, b, x);
    case ToRelay(i) => DeadRelay(s, i, x);
    case ToPeer(i, answer) =>
      FlyingTaken(s, s.fromB, i, s.ends[x].partner);
      PeerFlow(s, i, answer, x);
    case _ => DeadLocal(s, e, x);
  }

  lemma DeadLast(es: seq<Event>, x: string, partner: string, d: seq<Payload>)
    requires es != [] && Run(es).At? && Run(es[..|es| - 1]).At?
    requires DeadAt(Run(es[..|es| - 1]).state, x, partner, d)
    ensures DeadAt(Run(es).state, x, partner, d)
  {
    RunLast(es);
    RunKeeps(es[..|es| - 1]);
    DeadStep(Run(es[..|es| - 1]).state, es[|es| - 1], x);
  }

  /** Once B has dropped a bridge, what crossed it is fixed for the rest of every run. */
  lemma {:induction false} NothingCrossesAfterClose(es: seq<Event>, n: nat, x: string, partner: string, d: seq<Payload>)
    requires n <= |es| && Run(es).At? && Run(es[..n]).At?
    requires DeadAt(Run(es[..n]).state, x, partner, d)
    ensures DeadAt(Run(es).state, x, partner, d)
    decreases |es|
  {
    if n == |es| {
      assert es[..n] == es;
    } else {
      var most := es[..|es| - 1];
      assert most[..n] == es[..n];
      RunLast(es);
      NothingCrossesAfterClose(most, n, x, partner, d);
      DeadLast(es, x, partner, d);
    }
  }

  /** A close or a reject that reaches B takes both ids of its bridge out of the index. */
  lemma TeardownIsComplete(s: Sys, i: nat)
    requires Inv(s) && IsHead(s.toB, i) && (s.toB[i].msg.Close? || s.toB[i].msg.Rejected?)
    ensures var id := s.toB[i].msg.id;
            && id in s.ends && id !in AtRelay(s, i).table.byTunnel
            && EndOk(s, id) && s.ends[id].partner !in AtRelay(s, i).table.byTunnel
  {
    assert s.toB[i] in s.toB && Tagged(s.ends, s.toB[i]);
    var id := s.toB[i].msg.id;
    assert EndOk(s, id) && EndOk(s, s.ends[id].partner);
    CloseKeepsPairs(s.table, id);
  }

  // ---- Delivery always comes to an end ----

  function Weight(m: Msg): (w: nat) {
    if m.Open? then 5 else 1
  }

  function LinkWeight(q: seq<Packet>): (w: nat) {
    if q == [] then 0 else Weight(q[0].msg) + LinkWeight(q[1..])
  }

  function UpEnds(s: Sys): (ids: set<string>) {
    set x | x in s.logs && s.logs[x].stage == Up
  }

  /** Two for each message to B, one (five for open_tunnel) for each message from B, two for each open end. */
  function Measure(s: Sys): (n: nat) {
    2 * |s.toB| + LinkWeight(s.fromB) + 2 * |UpEnds(s)|
  }

  lemma {:induction false} LinkWeightConcat(a: seq<Packet>, b: seq<Packet>)
    ensures LinkWeight(a + b) == LinkWeight(a) + LinkWeight(b)
  {
    if a == [] {
      assert a + b == b;
    } else {
      assert (a + b)[1..] == a[1..] + b;
      LinkWeightConcat(a[1..], b);
    }
  }

  lemma LinkWeightWithout(q: seq<Packet>, i: nat)
    requires i < |q|
    ensures LinkWeight(q) == Weight(q[i].msg) + LinkWeight(Without(q, i))
  {
    assert q == q[..i] + ([q[i]] + q[i + 1..]);
    LinkWeightConcat(q[..i], [q[i]] + q[i + 1..]);
    LinkWeightConcat([q[i]], q[i + 1..]);
    LinkWeightConcat(q[..i], q[i + 1..]);
    assert [q[i]][1..] == [];
  }

  lemma RelayShrinks(s: Sys, i: nat)
    requires i < |s.toB|
    ensures Measure(AtRelay(s, i)) < Measure(s)
  {
    var r, m := AtRelay(s, i), s.toB[i].msg;
    assert UpEnds(r) == UpEnds(s);
    if r.fromB != s.fromB {
      var p := r.fromB[|s.fromB|];
      assert r.fromB == s.fromB + [p] && Weight(p.msg) == 1;
      LinkWeightConcat(s.fromB, [p]);
      assert [p][1..] == [];
    }
  }

  lemma PeerShrinks(s: Sys, i: nat, answer: Answer)
    requires i < |s.fromB|
    ensures Measure(AtPeer(s, i, answer)) < Measure(s)
  {
    var r, m := AtPeer(s, i, answer), s.fromB[i].msg;
    LinkWeightWithout(s.fromB, i);
    if m.Open? && m.id in s.logs {
      assert UpEnds(r) <= UpEnds(s) + {m.id};
      CardinalityBound(UpEnds(r), UpEnds(s), m.id);
    } else if m.Close? && m.id in s.logs && s.logs[m.id].stage == Up {
      assert UpEnds(r) == UpEnds(s) - {m.id};
    } else {
      assert UpEnds(r) == UpEnds(s);
    }
  }

  lemma CardinalityBound(a: set<string>, b: set<string>, x: string)
    requires a <= b + {x}
    ensures |a| <= |b| + 1
  {
    Subset(a, b + {x});
  }

  lemma {:induction false} Subset(a: set<string>, b: set<string>)
    requires a <= b
    ensures |a| <= |b|
  {
    if a != {} {
      var x :| x in a;
      Subset(a - {x}, b - {x});
    }
  }

  lemma DeliveryShrinks(s: Sys, e: Event)
    requires Enabled(s, e) && (e.ToRelay? || e.ToPeer?)
    ensures Measure(Step(s, e)) < Measure(s)
  {
    if e.ToRelay? {
      RelayShrinks(s, e.i);
    } else {
      PeerShrinks(s, e.i, e.answer);
    }
  }

  predicate AllDeliveries(es: seq<Event>) {
    forall i :: 0 <= i < |es| ==> es[i].ToRelay? || es[i].ToPeer?
  }

  /** With no new bridge, opening, sending or closing, at most Measure deliveries follow any run: close
      propagation cannot go on for ever. */
  lemma {:induction false} DeliveriesEnd(before: seq<Event>, after: seq<Event>)
    requires Run(before).At? && Run(before + after).At? && AllDeliveries(after)
    ensures |after| + Measure(Run(before + after).state) <= Measure(Run(before).state)
    decreases |after|
  {
    if after == [] {
      assert before + after == before;
    } else {
      var most, e := after[..|after| - 1], after[|after| - 1];
      assert (before + after)[..|before + after| - 1] == before + most;
      RunLast(before + after);
      DeliveriesEnd(before, most);
      DeliveryShrinks(Run(before + most).state, e);
    }
  }
}
