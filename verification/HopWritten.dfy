/** What the local connections at the two ends of a bridge get to see. */
module HopWritten {
  import opened HopRelay
  import opened HopSystem
  import opened HopTheorems

  /** What was written is an uninterrupted stretch of what was delivered, starting after what was lost. */
  predicate LogOk(l: Log) {
    && l.lost + |l.written| <= |l.delivered|
    && l.written == l.delivered[l.lost..l.lost + |l.written|]
    && (l.stage == Waiting ==> l.written == [] && l.lost == |l.delivered|)
    && (l.stage == Up ==> l.lost + |l.written| == |l.delivered|)
  }

  predicate IsOpen(q: seq<Packet>, k: int, y: string) {
    0 <= k < |q| && q[k].msg == Open(y)
  }

  /** An open_tunnel under way is the only one for its id, ahead of all data, and meets an untouched end. */
  ghost predicate OpenOk(s: Sys, y: string, k: int)
    requires IsOpen(s.fromB, k, y)
  {
    && y in s.ends && s.ends[y].outbound
    && y in s.logs && s.logs[y].stage == Waiting && s.logs[y].delivered == []
    && (forall j :: 0 <= j < k ==> !(s.fromB[j].msg.Data? && s.fromB[j].msg.id == y))
    && (forall j :: IsOpen(s.fromB, j, y) ==> j == k)
  }

  ghost predicate OpensOk(s: Sys, y: string) {
    forall k :: IsOpen(s.fromB, k, y) ==> OpenOk(s, y, k)
  }

  /** The target's end loses nothing: it waits only while its open_tunnel is under way. */
  ghost predicate TargetOk(s: Sys, y: string)
    requires y in s.ends && y in s.logs
  {
    s.ends[y].outbound ==> s.logs[y].lost == 0 && (s.logs[y].stage == Waiting ==> exists k :: IsOpen(s.fromB, k, y))
  }

  ghost predicate WrittenOk(s: Sys, y: string) {
    && OpensOk(s, y)
    && (y in s.ends ==> y in s.logs && LogOk(s.logs[y]) && TargetOk(s, y))
  }

  // ---- Appending to and taking from the links from B ----

  /** Messages that are not open_tunnel appended to the links. */
  lemma AppendKeeps(s: Sys, r: Sys, out: seq<Packet>, y: string)
    requires WrittenOk(s, y) && r.fromB == s.fromB + out && forall p :: p in out ==> !p.msg.Open?
    requires r.ends == s.ends && (y in s.logs ==> y in r.logs && r.logs[y] == s.logs[y])
    ensures WrittenOk(r, y)
  {
    forall k | |s.fromB| <= k < |r.fromB|
      ensures !r.fromB[k].msg.Open?
    {
      assert r.fromB[k] in out;
    }
    assert forall k :: IsOpen(r.fromB, k, y) ==> IsOpen(s.fromB, k, y);
    forall k | IsOpen(r.fromB, k, y)
      ensures OpenOk(r, y, k)
    {
      assert OpenOk(s, y, k);
    }
    if y in s.ends && s.ends[y].outbound && s.logs[y].stage == Waiting {
      var k :| IsOpen(s.fromB, k, y);
      assert IsOpen(r.fromB, k, y);
    }
  }

  /** Position in the queue before taking position `i`, of what is now at `k`. */
  function Before(i: nat, k: nat): (j: nat) {
    if k < i then k else k + 1
  }

  lemma WithoutAt(q: seq<Packet>, i: nat, k: nat)
    requires i < |q| && k < |Without(q, i)|
    ensures Before(i, k) < |q| && Without(q, i)[k] == q[Before(i, k)]
  {
  }

  lemma TakeKeepsOpens(s: Sys, r: Sys, i: nat, y: string)
    requires i < |s.fromB| && OpensOk(s, y) && r.fromB == Without(s.fromB, i)
    requires r.ends == s.ends
    requires (exists k :: IsOpen(r.fromB, k, y)) && y in s.logs ==> y in r.logs && r.logs[y] == s.logs[y]
    ensures OpensOk(r, y)
  {
    forall k | IsOpen(r.fromB, k, y)
      ensures OpenOk(r, y, k)
    {
      var k0 := Before(i, k);
      WithoutAt(s.fromB, i, k);
      assert IsOpen(s.fromB, k0, y) && OpenOk(s, y, k0);
      forall j | 0 <= j < k
        ensures !(r.fromB[j].msg.Data? && r.fromB[j].msg.id == y)
      {
        WithoutAt(s.fromB, i, j);
      }
      forall j | IsOpen(r.fromB, j, y)
        ensures j == k
      {
        WithoutAt(s.fromB, i, j);
        assert IsOpen(s.fromB, Before(i, j), y);
      }
    }
  }

  lemma TakeKeepsPending(q: seq<Packet>, i: nat, y: string, k: int)
    requires i < |q| && IsOpen(q, k, y) && k != i
    ensures exists j :: IsOpen(Without(q, i), j, y)
  {
    var j := if k < i then k else k - 1;
    WithoutAt(q, i, j);
    assert IsOpen(Without(q, i), j, y);
  }

  /** While the open_tunnel of a tunnel is under way, its data is not at the head of the link. */
  lemma DataBehindOpen(s: Sys, i: nat, y: string, k: int)
    requires Linked(s) && IsHead(s.fromB, i) && s.fromB[i].msg.Data? && s.fromB[i].msg.id == y
    requires OpensOk(s, y)
    ensures !IsOpen(s.fromB, k, y)
  {
    assert IsOpen(s.fromB, k, y) ==> OpenOk(s, y, k);
    assert s.fromB[i] in s.fromB && Tagged(s.ends, s.fromB[i]);
    assert 0 <= k < |s.fromB| ==> s.fromB[k] in s.fromB;
  }

  // ---- Every step ----

  lemma ReceiveKeeps(l: Log, bytes: Payload)
    requires LogOk(l)
    ensures LogOk(Receive(l, bytes))
  {
  }

  lemma PeerKeeps(s: Sys, i: nat, answer: Answer, y: string)
    requires Linked(s) && IsHead(s.fromB, i) && WrittenOk(s, y)
    ensures WrittenOk(AtPeer(s, i, answer), y)
  {
    var r, m := AtPeer(s, i, answer), s.fromB[i].msg;
    assert r.fromB == Without(s.fromB, i);
    if m.Data? && m.id == y {
      forall k
        ensures !IsOpen(s.fromB, k, y)
      {
        DataBehindOpen(s, i, y, k);
      }
      forall k
        ensures !IsOpen(r.fromB, k, y)
      {
        if IsOpen(r.fromB, k, y) {
          WithoutAt(s.fromB, i, k);
          assert IsOpen(s.fromB, Before(i, k), y);
        }
      }
      if y in s.ends {
        ReceiveKeeps(s.logs[y], m.bytes);
      }
    } else if m == Open(y) {
      OpenKeeps(s, i, answer, y);
    } else {
      OtherKeeps(s, i, answer, y);
    }
  }

  lemma OpenKeeps(s: Sys, i: nat, answer: Answer, y: string)
    requires i < |s.fromB| && s.fromB[i].msg == Open(y) && WrittenOk(s, y)
    ensures WrittenOk(AtPeer(s, i, answer), y)
  {
    var r := AtPeer(s, i, answer);
    assert IsOpen(s.fromB, i, y) && OpenOk(s, y, i);
    forall k
      ensures !IsOpen(r.fromB, k, y)
    {
      if IsOpen(r.fromB, k, y) {
        WithoutAt(s.fromB, i, k);
        assert IsOpen(s.fromB, Before(i, k), y);
      }
    }
  }

  lemma OtherKeeps(s: Sys, i: nat, answer: Answer, y: string)
    requires i < |s.fromB| && WrittenOk(s, y)
    requires s.fromB[i].msg != Open(y) && !(s.fromB[i].msg.Data? && s.fromB[i].msg.id == y)
    ensures WrittenOk(AtPeer(s, i, answer), y)
  {
    var r := AtPeer(s, i, answer);
    if exists k :: IsOpen(r.fromB, k, y) {
      var k :| IsOpen(r.fromB, k, y);
      WithoutAt(s.fromB, i, k);
      assert IsOpen(s.fromB, Before(i, k), y) && OpenOk(s, y, Before(i, k));
    }
    TakeKeepsOpens(s, r, i, y);
    if y in s.ends && s.ends[y].outbound && s.logs[y].stage == Waiting {
      var k :| IsOpen(s.fromB, k, y);
      TakeKeepsPending(s.fromB, i, y, k);
    }
  }

  lemma NewBridgeKeeps(s: Sys, b: Bridge, y: string)
    requires Linked(s) && Enabled(s, NewBridge(b)) && WrittenOk(s, y)
    ensures WrittenOk(Step(s, NewBridge(b)), y)
  {
    var r := Step(s, NewBridge(b));
    var n := |s.fromB|;
    assert r.fromB[n] == Packet(b.target, Open(b.outID));
    if y == b.outID || y == b.inID {
      forall p | p in s.fromB
        ensures !((p.msg.Open? || p.msg.Data?) && p.msg.id == y)
      {
        assert Tagged(s.ends, p);
      }
      forall k | 0 <= k < n
        ensures !IsOpen(s.fromB, k, y) && !(s.fromB[k].msg.Data? && s.fromB[k].msg.id == y)
      {
        assert s.fromB[k] in s.fromB;
      }
      assert y == b.outID ==> IsOpen(r.fromB, n, y);
    } else {
      forall k | IsOpen(r.fromB, k, y)
        ensures OpenOk(r, y, k)
      {
        assert IsOpen(s.fromB, k, y) && OpenOk(s, y, k);
        assert forall j :: IsOpen(r.fromB, j, y) ==> IsOpen(s.fromB, j, y);
      }
      if y in s.ends && s.ends[y].outbound && s.logs[y].stage == Waiting {
        var k :| IsOpen(s.fromB, k, y);
        assert IsOpen(r.fromB, k, y);
      }
    }
  }

  lemma LocalKeeps(s: Sys, e: Event, y: string)
    requires Enabled(s, e) && (e.LocalOpen? || e.LocalSend? || e.LocalClose?) && WrittenOk(s, y)
    ensures WrittenOk(Step(s, e), y)
  {
    var r := Step(s, e);
    forall k | IsOpen(r.fromB, k, y)
      ensures OpenOk(r, y, k)
    {
      assert OpenOk(s, y, k);
    }
    if y in s.ends && s.ends[y].outbound && s.logs[y].stage == Waiting {
      var k :| IsOpen(s.fromB, k, y);
      assert IsOpen(r.fromB, k, y);
    }
  }

  lemma RelayKeeps(s: Sys, i: nat, y: string)
    requires i < |s.toB| && WrittenOk(s, y)
    ensures WrittenOk(AtRelay(s, i), y)
  {
    var r, m := AtRelay(s, i), s.toB[i].msg;
    var out := if m.Data? then DataOut(s.table, m.id, m.bytes)
               else if m.Close? then CloseOut(s.table, m.id)
               else if m.Rejected? then RejectOut(s.table, m.id) else [];
    assert r.fromB == s.fromB + out;
    AppendKeeps(s, r, out, y);
  }

  lemma StepKeeps(s: Sys, e: Event, y: string)
    requires Linked(s) && Enabled(s, e) && WrittenOk(s, y)
    ensures WrittenOk(Step(s, e), y)
  {
    match e
    case NewBridge(b) => NewBridgeKeeps(s, b, y);
    case ToRelay(i) => RelayKeeps(s, i, y);
    case ToPeer(i, answer) => PeerKeeps(s, i, answer, y);
    case _ => LocalKeeps(s, e, y);
  }

  lemma {:induction false} RunWritten(es: seq<Event>, y: string)
    requires Run(es).At?
    ensures WrittenOk(Run(es).state, y)
  {
    if es != [] {
      RunLast(es);
      RunKeeps(es[..|es| - 1]);
      RunWritten(es[..|es| - 1], y);
      StepKeeps(Run(es[..|es| - 1]).state, es[|es| - 1], y);
    }
  }

  // ---- What the origin misses ----

  /** Event `e` hands data to the holder of end `y`. */
  predicate Delivers(s: Sys, e: Event, y: string) {
    e.ToPeer? && e.i < |s.fromB| && s.fromB[e.i].msg.Data? && s.fromB[e.i].msg.id == y
  }

  /** How many chunks a run hands to the holder of `y` before the local connection there is accepted. */
  function Early(es: seq<Event>, y: string): (n: nat) {
    if es == [] then 0
    else
      var most, e := es[..|es| - 1], es[|es| - 1];
      var q := Run(most);
      Early(most, y) + if q.At? && Delivers(q.state, e, y) && LocalOpen(y) !in most then 1 else 0
  }

  /** An origin's end waits until its local connection is accepted, and has lost what came before. */
  ghost predicate OriginOk(s: Sys, y: string, isUp: bool, early: nat) {
    && (y !in s.ends ==> !isUp && early == 0)
    && (y in s.ends && !s.ends[y].outbound ==>
          y in s.logs && (s.logs[y].stage == Waiting <==> !isUp) && s.logs[y].lost == early)
  }

  lemma OriginStep(s: Sys, e: Event, y: string, isUp: bool, early: nat)
    requires Linked(s) && OpensOk(s, y) && Enabled(s, e) && OriginOk(s, y, isUp, early)
    ensures OriginOk(Step(s, e), y, isUp || e == LocalOpen(y), early + if Delivers(s, e, y) && !isUp then 1 else 0)
  {
    match e
    case ToPeer(i, answer) => OriginPeer(s, i, answer, y, isUp, early);
    case ToRelay(i) =>
    case _ =>
  }

  lemma OriginPeer(s: Sys, i: nat, answer: Answer, y: string, isUp: bool, early: nat)
    requires Linked(s) && OpensOk(s, y) && i < |s.fromB| && OriginOk(s, y, isUp, early)
    ensures var mine := s.fromB[i].msg.Data? && s.fromB[i].msg.id == y;
            OriginOk(AtPeer(s, i, answer), y, isUp, early + if mine && !isUp then 1 else 0)
  {
    assert Tagged(s.ends, s.fromB[i]);
    if s.fromB[i].msg == Open(y) {
      assert IsOpen(s.fromB, i, y) && OpenOk(s, y, i);
    }
  }

  lemma {:induction false} OriginRun(es: seq<Event>, y: string)
    requires Run(es).At?
    ensures OriginOk(Run(es).state, y, LocalOpen(y) in es, Early(es, y))
  {
    if es != [] {
      var most, e := es[..|es| - 1], es[|es| - 1];
      RunLast(es);
      RunKeeps(most);
      RunWritten(most, y);
      OriginRun(most, y);
      OriginStep(Run(most).state, e, y, LocalOpen(y) in most, Early(most, y));
      assert es == most + [e];
    }
  }

  /** What the local connection at an end has missed: nothing at a target, the early chunks at an origin. */
  function Missed(es: seq<Event>, y: string): (n: nat)
    requires Run(es).At? && y in Run(es).state.ends
  {
    if Run(es).state.ends[y].outbound then 0 else Early(es, y)
  }

  /**
   In every run, what the local connection at one end gets is an uninterrupted stretch of what the other
   end's local connection sent.  At the target it starts at the beginning; at the origin it starts after
   the chunks that arrived before the local connection was accepted.
   */
  lemma WrittenIsStretch(es: seq<Event>, y: string)
    requires Run(es).At? && y in Run(es).state.ends
    ensures var s := Run(es).state;
            && y in s.logs && s.ends[y].partner in s.logs
            && var written, sent, n := s.logs[y].written, s.logs[s.ends[y].partner].sent, Missed(es, y);
               n + |written| <= |sent| && written == sent[n..n + |written|]
  {
    RunWritten(es, y);
    RunKeeps(es);
    OriginRun(es, y);
    var s := Run(es).state;
    assert EndOk(s, y);
    DeliveredIsPrefix(es, s.ends[y].partner);
  }

  /** With pairwise different chunks it is a prefix exactly when nothing was missed or nothing has come yet. */
  lemma WrittenIsPrefixIff(es: seq<Event>, y: string)
    requires Run(es).At? && y in Run(es).state.ends
    ensures var s := Run(es).state;
            && y in s.logs && s.ends[y].partner in s.logs
            && var written, sent := s.logs[y].written, s.logs[s.ends[y].partner].sent;
               && (Missed(es, y) == 0 || written == [] ==> written <= sent)
               && ((forall i, j :: 0 <= i < j < |sent| ==> sent[i] != sent[j]) ==>
                     (written <= sent <==> Missed(es, y) == 0 || written == []))
  {
    WrittenIsStretch(es, y);
    var s := Run(es).state;
    var written, sent, n := s.logs[y].written, s.logs[s.ends[y].partner].sent, Missed(es, y);
    if written != [] && n > 0 && written <= sent {
      assert written[0] == sent[0] && written[0] == sent[n];
    }
  }

  // ---- A run in which the origin misses what the target said first ----

  const B0 := Bridge("h", "in", "out", "a", "c")

  /** The system with this one bridge. */
  function With(i: Log, o: Log, toB: seq<Packet>, fromB: seq<Packet>): (s: Sys) {
    Sys(Table(map["h" := B0], map["in" := B0, "out" := B0]),
        map["in" := End("a", "out", false), "out" := End("c", "in", true)],
        map["in" := i, "out" := o], toB, fromB)
  }

  const BLANK := Log(Waiting, [], [], [], 0)
  const ACCEPT := Packet("a", HopAccept("h", "in"))
  const OPENED := Packet("c", Opened("out"))

  lemma Extend(es: seq<Event>, q: Sys, e: Event, r: Sys) returns (longer: seq<Event>)
    requires Run(es) == At(q) && Enabled(q, e) && Step(q, e) == r
    ensures Run(longer) == At(r)
  {
    longer := es + [e];
    assert longer[..|es|] == es;
  }

  lemma TargetDials() returns (es: seq<Event>)
    ensures Run(es) == At(With(BLANK, BLANK.(stage := Up), [OPENED], [ACCEPT]))
  {
    var s1 := With(BLANK, BLANK, [], [Packet("c", Open("out")), ACCEPT]);
    es := Extend([], Init, NewBridge(B0), s1);
    assert Without(s1.fromB, 0) == [ACCEPT];
    es := Extend(es, s1, ToPeer(0, Dialed), With(BLANK, BLANK.(stage := Up), [OPENED], [ACCEPT]));
  }

  /** The target sends a chunk, and B forwards it past whatever else waits. */
  lemma TargetSends(o: Log, d: Payload, i: Log, fromB: seq<Packet>)
    requires o.stage == Up
    ensures var data := Packet("c", Data("out", d));
            && Enabled(With(i, o, [], fromB), LocalSend("out", d))
            && Step(With(i, o, [], fromB), LocalSend("out", d)) == With(i, o.(sent := o.sent + [d]), [data], fromB)
            && Step(With(i, o, [data], fromB), ToRelay(0)) == With(i, o, [], fromB + [Packet("a", Data("in", d))])
  {
    var data := Packet("c", Data("out", d));
    assert Without([data], 0) == [];
  }

  lemma OriginGets(i: Log, o: Log, d: Payload)
    ensures Step(With(i, o, [], [Packet("a", Data("in", d))]), ToPeer(0, Dialed)) == With(Receive(i, d), o, [], [])
  {
    assert Without([Packet("a", Data("in", d))], 0) == [];
  }

  lemma TargetSpeaks() returns (es: seq<Event>)
    ensures Run(es) == At(With(BLANK, BLANK.(stage := Up, sent := [[1]]), [Packet("c", Data("out", [1]))], [ACCEPT]))
  {
    var data, up := Packet("c", Data("out", [1])), BLANK.(stage := Up, sent := [[1]]);
    es := TargetDials();
    var s3 := With(BLANK, up, [OPENED, data], [ACCEPT]);
    assert [] + [[1]] == [[1]] && [OPENED] + [data] == [OPENED, data];
    es := Extend(es, With(BLANK, BLANK.(stage := Up), [OPENED], [ACCEPT]), LocalSend("out", [1]), s3);
    assert Without(s3.toB, 0) == [data];
    es := Extend(es, s3, ToRelay(0), With(BLANK, up, [data], [ACCEPT]));
  }

  lemma ForwardedEarly() returns (es: seq<Event>)
    ensures Run(es) == At(With(BLANK, BLANK.(stage := Up, sent := [[1]]), [], [Packet("a", Data("in", [1]))]))
  {
    var data, moved, up := Packet("c", Data("out", [1])), Packet("a", Data("in", [1])), BLANK.(stage := Up, sent := [[1]]);
    es := TargetSpeaks();
    TargetSends(up, [1], BLANK, [ACCEPT]);
    var s5 := With(BLANK, up, [], [ACCEPT, moved]);
    es := Extend(es, With(BLANK, up, [data], [ACCEPT]), ToRelay(0), s5);
    assert Without(s5.fromB, 0) == [moved];
    es := Extend(es, s5, ToPeer(0, Dialed), With(BLANK, up, [], [moved]));
  }

  lemma OriginTooLate() returns (es: seq<Event>)
    ensures Run(es) == At(With(Log(Up, [], [[1]], [], 1), BLANK.(stage := Up, sent := [[1]]), [], []))
  {
    var up := BLANK.(stage := Up, sent := [[1]]);
    es := ForwardedEarly();
    OriginGets(BLANK, up, [1]);
    assert Receive(BLANK, [1]) == Log(Waiting, [], [[1]], [], 1);
    var s7 := With(Log(Waiting, [], [[1]], [], 1), up, [], []);
    es := Extend(es, With(BLANK, up, [], [Packet("a", Data("in", [1]))]), ToPeer(0, Dialed), s7);
    es := Extend(es, s7, LocalOpen("in"), With(Log(Up, [], [[1]], [], 1), up, [], []));
  }

  /**
   The target dials and speaks first; its chunk reaches the origin before that has accepted a local
   connection.  The local connection then sees the second chunk without the first.
   */
  lemma OriginMissesEarlyData() returns (es: seq<Event>)
    ensures Run(es) == At(With(Log(Up, [], [[1], [2]], [[2]], 1), BLANK.(stage := Up, sent := [[1], [2]]), [], []))
    ensures !([[2]] <= [[1], [2]])
  {
    var i, o1, o2 := Log(Up, [], [[1]], [], 1), BLANK.(stage := Up, sent := [[1]]), BLANK.(stage := Up, sent := [[1], [2]]);
    var data, moved := Packet("c", Data("out", [2])), Packet("a", Data("in", [2]));
    es := OriginTooLate();
    assert [[1]] + [[2]] == [[1], [2]] && [] + [moved] == [moved] && [] + [[2]] == [[2]];
    TargetSends(o1, [2], i, []);
    TargetSends(o2, [2], i, []);
    es := Extend(es, With(i, o1, [], []), LocalSend("out", [2]), With(i, o2, [data], []));
    es := Extend(es, With(i, o2, [data], []), ToRelay(0), With(i, o2, [], [moved]));
    OriginGets(i, o2, [2]);
    assert Receive(i, [2]) == Log(Up, [], [[1], [2]], [[2]], 1);
    es := Extend(es, With(i, o2, [], [moved]), ToPeer(0, Dialed), With(Log(Up, [], [[1], [2]], [[2]], 1), o2, [], []));
    assert [[2]][0] != [[1], [2]][0];
  }
}
