/** When a peer becomes direct, connecting or relay, over every run of the client's events. */
module PeerHistory {
  import opened Options
  import opened PeerModes

  // ---- One event ----

  predicate MovesAway(e: Event, p: string, addr: string) {
    e == Reset || e == PeerLeft(p) || (e.StunInfo? && e.from == p && e.addr != addr)
  }

  /** A peer's record appears and goes only by these events. */
  lemma KnownAfter(s: State, e: Event, p: string)
    ensures p in Step(s, e).conns <==>
            || (p in s.conns && e != PeerLeft(p))
            || (e.PeerList? && p in e.joined && p != s.myID)
            || (e.StunInfo? && e.from == p) || (e.PunchSuccess? && e.peer == p)
  {
  }

  predicate IsDirect(s: State, p: string) {
    p in s.conns && s.conns[p].mode == Direct
  }

  predicate IsRelay(s: State, p: string) {
    p in s.conns && s.conns[p].mode == Relay
  }

  /** A peer is direct after a successful punch, or if it was and neither reset, nor left, nor moved. */
  lemma DirectAfter(s: State, e: Event, p: string)
    requires Inv(s)
    ensures IsDirect(s, p) ==> s.conns[p].addr.Some?
    ensures IsDirect(Step(s, e), p) <==>
            (e.PunchSuccess? && e.peer == p) || (IsDirect(s, p) && !MovesAway(e, p, s.conns[p].addr.value))
    ensures IsDirect(Step(s, e), p) ==>
            Step(s, e).conns[p].addr == if IsDirect(s, p) then s.conns[p].addr else Some(e.addr)
  {
    assert p in s.conns ==> ConnOk(s.conns[p], s.maps);
  }

  /** Five failed punches of a peer with an address that is still connecting. */
  predicate Hopeless(s: State, p: string) {
    p in s.conns && s.conns[p].mode == Connecting && s.conns[p].addr.Some? && s.conns[p].punchFails >= 5
  }

  predicate EndsRelay(e: Event, p: string) {
    e == Reset || e == PeerLeft(p) || (e.PunchSuccess? && e.peer == p)
  }

  /** A peer is given up at a retry tick after five failures, until it is punched, leaves or is reset. */
  lemma RelayAfter(s: State, e: Event, p: string)
    ensures IsRelay(Step(s, e), p) <==> (e == RetryTick && Hopeless(s, p)) || (IsRelay(s, p) && !EndsRelay(e, p))
  {
  }

  /** Failures are counted while the peer is not direct, and a success clears them. */
  lemma FailsAfter(s: State, e: Event, p: string)
    requires p in s.conns && p in Step(s, e).conns
    ensures Step(s, e).conns[p].punchFails ==
            if IsDirect(s, p) then s.conns[p].punchFails
            else if e.PunchSuccess? && e.peer == p then 0
            else if e == PunchDone(p) then s.conns[p].punchFails + 1
            else s.conns[p].punchFails
  {
  }

  /** The address of a peer is the last one announced or punched, until a reset. */
  lemma AddrAfter(s: State, e: Event, p: string)
    requires p in s.conns && p in Step(s, e).conns
    requires IsDirect(s, p) ==> s.conns[p].addr.Some?
    ensures Step(s, e).conns[p].addr ==
            if e == Reset then None
            else if (e.StunInfo? && e.from == p) || (e.PunchSuccess? && e.peer == p && !IsDirect(s, p)) then Some(e.addr)
            else s.conns[p].addr
  {
  }

  predicate IsEncrypted(s: State, p: string) {
    p in s.conns && s.conns[p].encrypted
  }

  /** A key exchange lasts until the peer leaves, is reset, or was direct and has moved. */
  lemma EncryptedAfter(s: State, e: Event, p: string)
    requires IsDirect(s, p) ==> s.conns[p].addr.Some?
    ensures IsEncrypted(Step(s, e), p) <==>
            || (e == KeyExchange(p) && p in s.conns)
            || (IsEncrypted(s, p) && e != Reset && e != PeerLeft(p)
                && !(IsDirect(s, p) && MovesAway(e, p, s.conns[p].addr.value)))
  {
  }

  // ---- Whole runs ----

  ghost predicate DirectRun(myID: string, es: seq<Event>, p: string) {
    Run(myID, es).At? && IsDirect(Run(myID, es).state, p)
  }

  /** A punch at `i` made the peer direct under `addr`, and since then it has neither been reset, nor left, nor moved. */
  ghost predicate DirectSince(myID: string, es: seq<Event>, p: string, i: int, addr: string) {
    && 0 <= i < |es| && es[i] == PunchSuccess(p, addr) && !DirectRun(myID, es[..i], p)
    && forall j :: i < j < |es| ==> !MovesAway(es[j], p, addr)
  }

  lemma DirectSinceSnoc(myID: string, es: seq<Event>, p: string, i: int, addr: string)
    requires es != [] && i < |es| - 1
    ensures var n := |es| - 1;
            DirectSince(myID, es, p, i, addr) <==> DirectSince(myID, es[..n], p, i, addr) && !MovesAway(es[n], p, addr)
  {
    var n := |es| - 1;
    if 0 <= i {
      assert es[..n][..i] == es[..i];
    }
  }

  lemma DirectSinceLast(myID: string, es: seq<Event>, p: string, addr: string)
    requires es != [] && Run(myID, es).At?
    ensures var n := |es| - 1;
            DirectSince(myID, es, p, n, addr) <==> es[n] == PunchSuccess(p, addr) && !DirectRun(myID, es[..n], p)
  {
  }

  /** In every run a peer is direct exactly if such a punch stands, and then it is reached under its address. */
  lemma {:induction false} DirectIff(myID: string, es: seq<Event>, p: string)
    requires Run(myID, es).At?
    ensures DirectRun(myID, es, p) <==> exists i, addr :: DirectSince(myID, es, p, i, addr)
    ensures forall i, addr :: DirectSince(myID, es, p, i, addr) ==>
              p in Run(myID, es).state.conns && Run(myID, es).state.conns[p].addr == Some(addr)
  {
    if es != [] {
      var n := |es| - 1;
      var s, e := Run(myID, es[..n]).state, es[n];
      DirectIff(myID, es[..n], p);
      RunKeeps(myID, es[..n]);
      DirectAfter(s, e, p);
      DirectStep(myID, es, es[..n], p, s);
    }
  }

  lemma DirectStep(myID: string, es: seq<Event>, most: seq<Event>, p: string, s: State)
    requires es != [] && most == es[..|es| - 1]
    requires Run(myID, most) == At(s) && Run(myID, es) == At(Step(s, es[|es| - 1]))
    requires IsDirect(s, p) ==> s.conns[p].addr.Some?
    requires var e, r := es[|es| - 1], Step(s, es[|es| - 1]);
             && (IsDirect(r, p) <==>
                   (e.PunchSuccess? && e.peer == p) || (IsDirect(s, p) && !MovesAway(e, p, s.conns[p].addr.value)))
             && (IsDirect(r, p) ==> r.conns[p].addr == if IsDirect(s, p) then s.conns[p].addr else Some(e.addr))
    requires IsDirect(s, p) <==> exists i, addr :: DirectSince(myID, most, p, i, addr)
    requires forall i, addr :: DirectSince(myID, most, p, i, addr) ==>
               p in s.conns && s.conns[p].addr == Some(addr)
    ensures DirectRun(myID, es, p) <==> exists i, addr :: DirectSince(myID, es, p, i, addr)
    ensures forall i, addr :: DirectSince(myID, es, p, i, addr) ==>
              p in Step(s, es[|es| - 1]).conns && Step(s, es[|es| - 1]).conns[p].addr == Some(addr)
  {
    var n := |es| - 1;
    var e, r := es[n], Step(s, es[n]);
    forall i, addr | DirectSince(myID, es, p, i, addr)
      ensures IsDirect(r, p) && r.conns[p].addr == Some(addr)
    {
      if i < n {
        DirectSinceSnoc(myID, es, p, i, addr);
      } else {
        DirectSinceLast(myID, es, p, addr);
      }
    }
    if IsDirect(r, p) {
      if IsDirect(s, p) {
        var i, addr :| DirectSince(myID, es[..n], p, i, addr);
        DirectSinceSnoc(myID, es, p, i, addr);
      } else {
        DirectSinceLast(myID, es, p, e.addr);
      }
    }
  }

  /** A retry tick at `i` gave the peer up, and since then it has neither been punched, nor left, nor been reset. */
  ghost predicate RelaySince(myID: string, es: seq<Event>, p: string, i: int) {
    && 0 <= i < |es| && es[i] == RetryTick && Run(myID, es[..i]).At? && Hopeless(Run(myID, es[..i]).state, p)
    && forall j :: i < j < |es| ==> !EndsRelay(es[j], p)
  }

  lemma RelaySinceSnoc(myID: string, es: seq<Event>, p: string, i: int)
    requires es != [] && i < |es| - 1
    ensures var n := |es| - 1;
            RelaySince(myID, es, p, i) <==> RelaySince(myID, es[..n], p, i) && !EndsRelay(es[n], p)
  {
    if 0 <= i {
      assert es[..|es| - 1][..i] == es[..i];
    }
  }

  /** In every run a peer is relayed exactly if such a tick stands. */
  lemma {:induction false} RelayIff(myID: string, es: seq<Event>, p: string)
    requires Run(myID, es).At?
    ensures IsRelay(Run(myID, es).state, p) <==> exists i :: RelaySince(myID, es, p, i)
  {
    if es != [] {
      var n := |es| - 1;
      var s, e := Run(myID, es[..n]).state, es[n];
      RelayIff(myID, es[..n], p);
      RelayAfter(s, e, p);
      forall i | i < n
        ensures RelaySince(myID, es, p, i) <==> RelaySince(myID, es[..n], p, i) && !EndsRelay(e, p)
      {
        RelaySinceSnoc(myID, es, p, i);
      }
      if e == RetryTick && Hopeless(s, p) {
        assert RelaySince(myID, es, p, n);
      } else if IsRelay(s, p) && !EndsRelay(e, p) {
        var i :| RelaySince(myID, es[..n], p, i);
        assert RelaySince(myID, es, p, i);
      }
    }
  }

  // ---- Reports and hops ----

  predicate EndsReport(e: Event, c: string) {
    e == Reset || e == PeerLeft(c) || (e.P2PMap? && e.from == c)
  }

  lemma ReportAfter(s: State, e: Event, c: string)
    ensures c in Step(s, e).maps <==> (e.P2PMap? && e.from == c) || (c in s.maps && !EndsReport(e, c))
    ensures c in Step(s, e).maps ==>
            Step(s, e).maps[c] == if e.P2PMap? && e.from == c then e.direct else s.maps[c]
  {
  }

  ghost predicate Reports(s: State, c: string, direct: set<string>) {
    c in s.maps && s.maps[c] == direct
  }

  ghost predicate ReportSince(es: seq<Event>, c: string, direct: set<string>, i: int) {
    0 <= i < |es| && es[i] == P2PMap(c, direct) && forall j :: i < j < |es| ==> !EndsReport(es[j], c)
  }

  /** In every run the stored report of a peer is the last one it sent, unless it has left or all was reset since. */
  lemma {:induction false} ReportIff(myID: string, es: seq<Event>, c: string, direct: set<string>)
    requires Run(myID, es).At?
    ensures Reports(Run(myID, es).state, c, direct) <==> exists i :: ReportSince(es, c, direct, i)
  {
    if es != [] {
      var n := |es| - 1;
      var s, e := Run(myID, es[..n]).state, es[n];
      ReportIff(myID, es[..n], c, direct);
      ReportAfter(s, e, c);
      assert forall i :: i < n ==> (ReportSince(es, c, direct, i) <==> ReportSince(es[..n], c, direct, i) && !EndsReport(e, c));
      assert ReportSince(es, c, direct, n) <==> e == P2PMap(c, direct);
      if exists i :: ReportSince(es[..n], c, direct, i) {
        var i :| ReportSince(es[..n], c, direct, i);
        assert i < n;
      }
    }
  }

  /** The peer that the target is reached through, or "". */
  function HopOf(s: State, target: string): (via: string) {
    if target in s.conns then s.conns[target].autoHopVia else ""
  }

  predicate EndsHop(e: Event, target: string, via: string) {
    e == Reset || e == PeerLeft(target) || e == PeerLeft(via)
  }

  /** A hop is recorded for a known target that has none, and ends when either peer leaves or all is reset. */
  lemma HopAfter(s: State, e: Event, target: string, via: string)
    requires via != ""
    ensures HopOf(Step(s, e), target) == via <==>
            || (e == TryHop(target, via) && target in s.conns && HopOf(s, target) == "")
            || (HopOf(s, target) == via && !EndsHop(e, target, via))
  {
  }

  ghost predicate HopFree(myID: string, es: seq<Event>, target: string) {
    Run(myID, es).At? && target in Run(myID, es).state.conns && HopOf(Run(myID, es).state, target) == ""
  }

  ghost predicate HopSince(myID: string, es: seq<Event>, target: string, via: string, i: int) {
    && 0 <= i < |es| && es[i] == TryHop(target, via) && HopFree(myID, es[..i], target)
    && forall j :: i < j < |es| ==> !EndsHop(es[j], target, via)
  }

  lemma HopSinceSnoc(myID: string, es: seq<Event>, target: string, via: string, i: int)
    requires es != [] && i < |es| - 1
    ensures var n := |es| - 1;
            HopSince(myID, es, target, via, i) <==> HopSince(myID, es[..n], target, via, i) && !EndsHop(es[n], target, via)
  {
    if 0 <= i {
      assert es[..|es| - 1][..i] == es[..i];
    }
  }

  /** In every run a target is reached through the peer that was chosen when it had no hop, if that choice stands. */
  lemma {:induction false} HopIff(myID: string, es: seq<Event>, target: string, via: string)
    requires Run(myID, es).At? && via != ""
    ensures HopOf(Run(myID, es).state, target) == via <==> exists i :: HopSince(myID, es, target, via, i)
  {
    if es != [] {
      var n := |es| - 1;
      var s, e := Run(myID, es[..n]).state, es[n];
      HopIff(myID, es[..n], target, via);
      HopAfter(s, e, target, via);
      forall i | i < n
        ensures HopSince(myID, es, target, via, i) <==> HopSince(myID, es[..n], target, via, i) && !EndsHop(e, target, via)
      {
        HopSinceSnoc(myID, es, target, via, i);
      }
      if e == TryHop(target, via) && HopFree(myID, es[..n], target) {
        assert HopSince(myID, es, target, via, n);
      } else if HopOf(s, target) == via && !EndsHop(e, target, via) {
        var i :| HopSince(myID, es[..n], target, via, i);
        assert HopSince(myID, es, target, via, i);
      }
    }
  }
}
