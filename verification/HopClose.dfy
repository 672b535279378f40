/** How a close travels: what B passes on, and that the other end of a bridge learns of it, over every run. */
module HopClose {
  import opened HopRelay
  import opened HopSystem
  import opened HopTheorems
  import opened HopWritten

  // ---- Ends and bridges ----

  /** A bridge in the index joins its two ends. */
  ghost predicate BridgeOk(s: Sys, x: string) {
    x in s.table.byTunnel ==>
      var b := s.table.byTunnel[x];
      && (x == b.inID || x == b.outID)
      && b.inID in s.ends && s.ends[b.inID] == End(b.origin, b.outID, false)
      && b.outID in s.ends && s.ends[b.outID] == End(b.target, b.inID, true)
  }

  lemma StepBridge(s: Sys, e: Event, x: string)
    requires Enabled(s, e) && BridgeOk(s, x)
    ensures BridgeOk(Step(s, e), x)
  {
  }

  lemma {:induction false} RunBridge(es: seq<Event>, x: string)
    requires Run(es).At?
    ensures BridgeOk(Run(es).state, x)
  {
    if es != [] {
      RunLast(es);
      RunBridge(es[..|es| - 1], x);
      StepBridge(Run(es[..|es| - 1]).state, es[|es| - 1], x);
    }
  }

  // ---- What B sends on ----

  /** Data of a standing bridge goes to the holder of the other end, under the other id; other data goes nowhere. */
  lemma DataGoesOn(s: Sys, i: nat)
    requires Linked(s) && i < |s.toB| && s.toB[i].msg.Data?
    ensures var x, bytes := s.toB[i].msg.id, s.toB[i].msg.bytes;
            && x in s.ends && s.ends[x].partner in s.ends
            && var y := s.ends[x].partner;
               AtRelay(s, i).fromB ==
                 s.fromB + if x in s.table.byTunnel then [Packet(s.ends[y].peer, Data(y, bytes))] else []
  {
    assert Tagged(s.ends, s.toB[i]) && EndOk(s, s.toB[i].msg.id);
  }

  /** A close goes to the holder of the other end, under the other id, if the bridge still stood, and otherwise nowhere. */
  lemma CloseGoesOn(s: Sys, i: nat)
    requires Linked(s) && i < |s.toB| && s.toB[i].msg.Close?
    ensures var x := s.toB[i].msg.id;
            && x in s.ends && s.ends[x].partner in s.ends
            && var y := s.ends[x].partner;
               AtRelay(s, i).fromB == s.fromB + if x in s.table.byTunnel then [Packet(s.ends[y].peer, Close(y))] else []
  {
    assert Tagged(s.ends, s.toB[i]) && EndOk(s, s.toB[i].msg.id);
  }

  /** A rejection by the target goes to the holder of the origin's end, under the name of the hop. */
  lemma RejectGoesOn(es: seq<Event>, s: Sys, i: nat)
    requires Run(es) == At(s) && i < |s.toB| && s.toB[i].msg.Rejected?
    ensures var x := s.toB[i].msg.id;
            && x in s.ends && s.ends[x].outbound && s.ends[x].partner in s.ends
            && AtRelay(s, i).fromB ==
                 s.fromB + if x in s.table.byTunnel
                           then [Packet(s.ends[s.ends[x].partner].peer, HopReject(s.table.byTunnel[x].hopID))] else []
  {
    var x := s.toB[i].msg.id;
    RunKeeps(es);
    RunBridge(es, x);
    RunDown(es, x);
    assert s.toB[i] in s.toB && Tagged(s.ends, s.toB[i]) && EndOk(s, x);
  }

  // ---- Who closes is down ----

  predicate IsClose(q: seq<Packet>, k: int, y: string) {
    0 <= k < |q| && q[k].msg == Close(y)
  }

  /** A close or reject on its way to B comes from an end that is down, and a reject from a target's end. */
  ghost predicate DownOk(s: Sys, y: string) {
    forall p :: p in s.toB && (p.msg == Close(y) || p.msg == Rejected(y)) ==>
      y in s.logs && s.logs[y].stage == Down && (p.msg.Rejected? ==> y in s.ends && s.ends[y].outbound)
  }

  /** What a step that touches `y` only through the handler of a message leaves of its log. */
  lemma StaysDown(s: Sys, e: Event, y: string)
    requires Enabled(s, e) && OpensOk(s, y) && y in s.ends && y in s.logs && s.logs[y].stage == Down
    ensures var r := Step(s, e); y in r.logs && r.logs[y].stage == Down
  {
    assert e.ToPeer? ==> (IsOpen(s.fromB, e.i, y) ==> OpenOk(s, y, e.i));
  }

  lemma StepDown(s: Sys, e: Event, y: string)
    requires Linked(s) && Enabled(s, e) && OpensOk(s, y) && DownOk(s, y)
    ensures DownOk(Step(s, e), y)
  {
    var r := Step(s, e);
    forall p | p in r.toB && (p.msg == Close(y) || p.msg == Rejected(y))
      ensures y in r.logs && r.logs[y].stage == Down && (p.msg.Rejected? ==> y in r.ends && r.ends[y].outbound)
    {
      if p in s.toB {
        assert Tagged(s.ends, p);
        StaysDown(s, e, y);
      } else {
        NewClose(s, e, p, y);
      }
    }
  }

  lemma NewClose(s: Sys, e: Event, p: Packet, y: string)
    requires Enabled(s, e) && OpensOk(s, y) && p in Step(s, e).toB && p !in s.toB
    requires p.msg == Close(y) || p.msg == Rejected(y)
    ensures var r := Step(s, e);
            y in r.logs && r.logs[y].stage == Down && (p.msg.Rejected? ==> y in r.ends && r.ends[y].outbound)
  {
    if e.ToPeer? && s.fromB[e.i].msg == Open(y) {
      assert IsOpen(s.fromB, e.i, y) && OpenOk(s, y, e.i);
    }
  }

  lemma {:induction false} RunDown(es: seq<Event>, y: string)
    requires Run(es).At?
    ensures DownOk(Run(es).state, y)
  {
    if es != [] {
      var most := es[..|es| - 1];
      RunLast(es);
      RunKeeps(most);
      RunWritten(most, y);
      RunDown(most, y);
      StepDown(Run(most).state, es[|es| - 1], y);
    }
  }

  // ---- A delivered close ----

  lemma {:induction false} DownForEver(es: seq<Event>, n: nat, y: string)
    requires n <= |es| && Run(es).At? && Run(es[..n]).At?
    requires var s := Run(es[..n]).state; y in s.ends && y in s.logs && s.logs[y].stage == Down
    ensures var s := Run(es).state; y in s.ends && y in s.logs && s.logs[y].stage == Down
    decreases |es|
  {
    if n == |es| {
      assert es[..n] == es;
    } else {
      var most := es[..|es| - 1];
      RunLast(es);
      assert most[..n] == es[..n];
      DownForEver(most, n, y);
      RunWritten(most, y);
      StaysDown(Run(most).state, es[|es| - 1], y);
    }
  }

  /** An end that is up when a close of its tunnel is delivered is down from then on. */
  lemma CloseTakesDown(es: seq<Event>, n: nat, y: string)
    requires n < |es| && Run(es).At? && Run(es[..n]).At? && Run(es[..n + 1]).At?
    requires var s := Run(es[..n]).state;
             && es[n].ToPeer? && es[n].i < |s.fromB| && s.fromB[es[n].i].msg == Close(y)
             && y in s.ends && y in s.logs && s.logs[y].stage == Up
    ensures var s := Run(es).state; y in s.logs && s.logs[y].stage == Down
  {
    assert es[..n + 1][..n] == es[..n];
    DownForEver(es, n + 1, y);
  }

  // ---- The target always learns ----

  /** Every close of `y` under way is behind the open_tunnel of `y`, if that is still under way. */
  ghost predicate InOrder(s: Sys, y: string) {
    forall j, k :: IsOpen(s.fromB, j, y) && IsClose(s.fromB, k, y) ==> j < k
  }

  /** Once the bridge of a target's end is gone, the end is down or a close is on its way to it. */
  ghost predicate Told(s: Sys, y: string) {
    y in s.ends && y in s.logs && s.ends[y].outbound && y !in s.table.byTunnel && s.logs[y].stage != Down ==>
      exists k :: IsClose(s.fromB, k, y)
  }

  ghost predicate Learns(s: Sys, y: string) {
    InOrder(s, y) && Told(s, y)
  }

  lemma AppendLearns(s: Sys, r: Sys, p: Packet, y: string)
    requires InOrder(s, y) && r.fromB == s.fromB + [p] && !p.msg.Open?
    ensures InOrder(r, y)
    ensures p.msg == Close(y) || (exists k :: IsClose(s.fromB, k, y)) ==> exists k :: IsClose(r.fromB, k, y)
  {
    forall j, k | IsOpen(r.fromB, j, y) && IsClose(r.fromB, k, y)
      ensures j < k
    {
      assert IsOpen(s.fromB, j, y);
      assert k < |s.fromB| ==> IsClose(s.fromB, k, y);
    }
    if p.msg == Close(y) {
      assert IsClose(r.fromB, |s.fromB|, y);
    }
    if k :| IsClose(s.fromB, k, y) {
      assert IsClose(r.fromB, k, y);
    }
  }

  /** B handles a message that drops no bridge and sends nothing on to an end but data. */
  lemma QuietRelayLearns(s: Sys, r: Sys, y: string)
    requires Learns(s, y) && r.ends == s.ends && r.logs == s.logs && r.table == s.table
    requires r.fromB == s.fromB || exists p: Packet :: r.fromB == s.fromB + [p] && p.msg.Data?
    ensures Learns(r, y)
  {
    if r.fromB != s.fromB {
      var p: Packet :| r.fromB == s.fromB + [p] && p.msg.Data?;
      AppendLearns(s, r, p, y);
    }
  }

  /** B drops a bridge: a close from the origin's end goes on to the target's end, which itself is down otherwise. */
  lemma DropLearns(s: Sys, i: nat, y: string)
    requires Linked(s) && i < |s.toB| && (s.toB[i].msg.Close? || s.toB[i].msg.Rejected?)
    requires s.toB[i].msg.id in s.table.byTunnel && BridgeOk(s, s.toB[i].msg.id) && BridgeOk(s, y)
    requires DownOk(s, y) && DownOk(s, s.toB[i].msg.id) && Learns(s, y)
    ensures Learns(AtRelay(s, i), y)
  {
    var r, m := AtRelay(s, i), s.toB[i].msg;
    var b := s.table.byTunnel[m.id];
    var p := if m.Close? then CloseOut(s.table, m.id)[0] else RejectOut(s.table, m.id)[0];
    assert r.fromB == s.fromB + [p] && s.toB[i] in s.toB;
    AppendLearns(s, r, p, y);
    if y in s.table.byTunnel && y !in r.table.byTunnel && s.ends[y].outbound {
      assert y == b.inID || y == b.outID;
      assert y == b.outID;
    }
  }

  lemma RelayLearns(s: Sys, i: nat, y: string)
    requires Linked(s) && i < |s.toB|
    requires forall x :: BridgeOk(s, x) && DownOk(s, x)
    requires Learns(s, y)
    ensures Learns(AtRelay(s, i), y)
  {
    var m := s.toB[i].msg;
    if (m.Close? || m.Rejected?) && m.id in s.table.byTunnel {
      DropLearns(s, i, y);
    } else {
      if m.Data? && m.id in s.table.byTunnel {
        assert AtRelay(s, i).fromB == s.fromB + [DataOut(s.table, m.id, m.bytes)[0]];
      }
      QuietRelayLearns(s, AtRelay(s, i), y);
    }
  }

  lemma PeerInOrder(s: Sys, i: nat, answer: Answer, y: string)
    requires i < |s.fromB| && InOrder(s, y)
    ensures InOrder(AtPeer(s, i, answer), y)
  {
    var r := AtPeer(s, i, answer);
    forall j, k | IsOpen(r.fromB, j, y) && IsClose(r.fromB, k, y)
      ensures j < k
    {
      WithoutAt(s.fromB, i, j);
      WithoutAt(s.fromB, i, k);
      assert IsOpen(s.fromB, Before(i, j), y) && IsClose(s.fromB, Before(i, k), y);
    }
  }

  lemma TakeOther(q: seq<Packet>, i: nat, k: int, y: string)
    requires i < |q| && IsClose(q, k, y) && k != i
    ensures exists j :: IsClose(Without(q, i), j, y)
  {
    var j := if k < i then k else k - 1;
    assert IsClose(Without(q, i), j, y);
  }

  /** A close that is delivered to a target's end finds it up or down, never waiting. */
  lemma PeerTold(s: Sys, i: nat, answer: Answer, y: string)
    requires Linked(s) && IsHead(s.fromB, i) && WrittenOk(s, y) && Learns(s, y)
    ensures Told(AtPeer(s, i, answer), y)
  {
    var r := AtPeer(s, i, answer);
    if y in r.ends && y in r.logs && r.ends[y].outbound && y !in r.table.byTunnel && r.logs[y].stage != Down {
      StillUp(s, i, answer, y);
      var k :| IsClose(s.fromB, k, y);
      if k == i {
        CloseFindsUp(s, i, answer, y);
      } else {
        TakeOther(s.fromB, i, k, y);
      }
    }
  }

  lemma StillUp(s: Sys, i: nat, answer: Answer, y: string)
    requires i < |s.fromB| && OpensOk(s, y) && y in s.ends && y in s.logs && AtPeer(s, i, answer).logs[y].stage != Down
    ensures s.logs[y].stage != Down
  {
    if s.fromB[i].msg == Open(y) {
      assert IsOpen(s.fromB, i, y) && OpenOk(s, y, i);
    }
  }

  lemma CloseFindsUp(s: Sys, i: nat, answer: Answer, y: string)
    requires Linked(s) && IsHead(s.fromB, i) && s.fromB[i].msg == Close(y)
    requires y in s.ends && y in s.logs && s.ends[y].outbound && TargetOk(s, y) && InOrder(s, y)
    ensures AtPeer(s, i, answer).logs[y].stage == Down || s.logs[y].stage == Down
  {
    assert IsClose(s.fromB, i, y) && Tagged(s.ends, s.fromB[i]);
    forall j | 0 <= j < |s.fromB|
      ensures !IsOpen(s.fromB, j, y)
    {
      assert Tagged(s.ends, s.fromB[j]);
      assert IsOpen(s.fromB, j, y) ==> j < i;
    }
  }

  lemma NewBridgeLearns(s: Sys, b: Bridge, y: string)
    requires Linked(s) && Enabled(s, NewBridge(b)) && Learns(s, y)
    ensures Learns(Step(s, NewBridge(b)), y)
  {
    var r := Step(s, NewBridge(b));
    var n := |s.fromB|;
    assert r.fromB[n].msg == Open(b.outID) && r.fromB[n + 1].msg.HopAccept?;
    forall j, k | IsOpen(r.fromB, j, y) && IsClose(r.fromB, k, y)
      ensures j < k
    {
      assert IsClose(s.fromB, k, y) && Tagged(s.ends, s.fromB[k]);
      assert IsOpen(s.fromB, j, y);
    }
    if k :| IsClose(s.fromB, k, y) {
      assert IsClose(r.fromB, k, y);
    }
  }

  lemma StepLearns(s: Sys, e: Event, y: string)
    requires Linked(s) && Enabled(s, e) && WrittenOk(s, y) && Learns(s, y)
    requires forall x :: BridgeOk(s, x) && DownOk(s, x)
    ensures Learns(Step(s, e), y)
  {
    match e
    case NewBridge(b) => NewBridgeLearns(s, b, y);
    case ToRelay(i) => RelayLearns(s, i, y);
    case ToPeer(i, answer) =>
      PeerInOrder(s, i, answer, y);
      PeerTold(s, i, answer, y);
    case LocalOpen(_) =>
    case LocalSend(_, _) =>
    case LocalClose(_) =>
  }

  lemma {:induction false} RunLearns(es: seq<Event>, y: string)
    requires Run(es).At?
    ensures Learns(Run(es).state, y)
  {
    if es != [] {
      var most := es[..|es| - 1];
      RunLast(es);
      RunKeeps(most);
      RunWritten(most, y);
      RunLearns(most, y);
      forall x
        ensures BridgeOk(Run(most).state, x) && DownOk(Run(most).state, x)
      {
        RunBridge(most, x);
        RunDown(most, x);
      }
      StepLearns(Run(most).state, es[|es| - 1], y);
    }
  }

  /**
   In every run, once the bridge of a target's end is gone and nothing is on its way to that end, the end is
   down, whoever closed the tunnel.
   */
  lemma TargetIsTold(es: seq<Event>, y: string)
    requires Run(es).At?
    requires var s := Run(es).state;
             && y in s.ends && s.ends[y].outbound && y !in s.table.byTunnel
             && forall p :: p in s.fromB ==> p.msg != Close(y)
    ensures var s := Run(es).state; y in s.logs && s.logs[y].stage == Down
  {
    RunLearns(es, y);
    RunWritten(es, y);
    var s := Run(es).state;
    assert forall k :: 0 <= k < |s.fromB| ==> s.fromB[k] in s.fromB;
  }

  // ---- The origin may miss a close ----

  /** The system of one bridge after B has dropped it. */
  function Undone(i: Log, o: Log, fromB: seq<Packet>): (s: Sys) {
    With(i, o, [], fromB).(table := Table(map[], map[]))
  }

  lemma TargetGivesUp() returns (es: seq<Event>)
    ensures Run(es) == At(With(BLANK, BLANK.(stage := Down), [Packet("c", Close("out"))], [ACCEPT]))
  {
    var s1 := With(BLANK, BLANK, [], [Packet("c", Open("out")), ACCEPT]);
    es := Extend([], Init, NewBridge(B0), s1);
    assert Without(s1.fromB, 0) == [ACCEPT];
    es := Extend(es, s1, ToPeer(0, Unreachable), With(BLANK, BLANK.(stage := Down), [Packet("c", Close("out"))], [ACCEPT]));
  }

  lemma UnreachableTarget() returns (es: seq<Event>)
    ensures Run(es) == At(Undone(BLANK, BLANK.(stage := Down), [ACCEPT, Packet("a", Close("in"))]))
  {
    var s, closing := With(BLANK, BLANK.(stage := Down), [Packet("c", Close("out"))], [ACCEPT]), Packet("a", Close("in"));
    es := TargetGivesUp();
    assert Without(s.toB, 0) == [] && [ACCEPT] + [closing] == [ACCEPT, closing];
    assert Dropped(s.table, B0) == Table(map[], map[]);
    es := Extend(es, s, ToRelay(0), Undone(BLANK, BLANK.(stage := Down), [ACCEPT, closing]));
  }

  lemma CloseArrives() returns (es: seq<Event>)
    ensures Run(es) == At(Undone(BLANK, BLANK.(stage := Down), []))
  {
    var closing, down := Packet("a", Close("in")), BLANK.(stage := Down);
    var s, r := Undone(BLANK, down, [ACCEPT, closing]), Undone(BLANK, down, [closing]);
    es := UnreachableTarget();
    assert Without(s.fromB, 0) == [closing] && Without(r.fromB, 0) == [];
    es := Extend(es, s, ToPeer(0, Dialed), r);
    es := Extend(es, r, ToPeer(0, Dialed), Undone(BLANK, down, []));
  }

  /**
   The target cannot be reached; its close reaches the origin before that has accepted a local connection
   and finds nothing to take down.  The connection accepted afterwards stays up, with nothing under way.
   */
  lemma EarlyCloseIsMissed() returns (es: seq<Event>)
    ensures Run(es) == At(Undone(BLANK.(stage := Up), BLANK.(stage := Down), []))
  {
    var s := Undone(BLANK, BLANK.(stage := Down), []);
    es := CloseArrives();
    es := Extend(es, s, LocalOpen("in"), Undone(BLANK.(stage := Up), BLANK.(stage := Down), []));
  }

  /** A close that is delivered to an origin's end takes it down exactly if its local connection was accepted before. */
  lemma OriginIsTakenDownIff(es: seq<Event>, n: nat, y: string)
    requires n < |es| && Run(es[..n]).At? && Run(es[..n + 1]).At?
    requires var s := Run(es[..n]).state;
             && es[n].ToPeer? && es[n].i < |s.fromB| && s.fromB[es[n].i].msg == Close(y)
             && y in s.ends && !s.ends[y].outbound
    ensures var r := Run(es[..n + 1]).state;
            y in r.logs && (r.logs[y].stage == Down <==> LocalOpen(y) in es[..n])
  {
    assert es[..n + 1][..n] == es[..n];
    OriginRun(es[..n], y);
  }
}
