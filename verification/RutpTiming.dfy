/** When the RUTP sender retransmits and when it turns to the relay, over every run; times are in nanoseconds. */
module RutpTiming {
  import opened Options
  import opened Bytes
  import opened RutpSender
  import opened RutpSenderTheorems

  /** The event that sent packet `n`: the n-th Send of the run. */
  function SendAt(es: seq<Event>, n: nat): (i: nat)
    requires 1 <= n <= NumSends(es)
    ensures i < |es| && es[i].Send? && NumSends(es[..i]) == n - 1
  {
    var k := |es| - 1;
    if es[k].Send? && n == NumSends(es) then k
    else
      assert es[..k][..SendAt(es[..k], n)] == es[..SendAt(es[..k], n)];
      SendAt(es[..k], n)
  }

  /** Between `i` and `hi` come `m` ticks, the first at age over 150 ms, the second over 300 ms, the third over 450 ms. */
  ghost predicate Aged(es: seq<Event>, i: nat, hi: nat, m: nat)
    requires i < |es| && hi <= |es|
    decreases m
  {
    if m == 0 then i < hi
    else exists j: nat :: i < j < hi && IsTickAt(es, i, j, 150_000_000 * m) && Aged(es, i, j, m - 1)
  }

  /** Event `j` is a tick at an age of more than `age` since event `i`. */
  predicate IsTickAt(es: seq<Event>, i: nat, j: nat, age: int)
    requires i < |es| && j < |es|
  {
    es[i].Send? && es[j].Tick? && es[j].at - es[i].at > age
  }

  lemma {:induction false} AgedLonger(es: seq<Event>, k: nat, i: nat, hi: nat, m: nat)
    requires i < k <= |es| && hi <= k && Aged(es[..k], i, hi, m)
    ensures Aged(es, i, hi, m)
    decreases m
  {
    if m > 0 {
      var j: nat :| i < j < hi && IsTickAt(es[..k], i, j, 150_000_000 * m) && Aged(es[..k], i, j, m - 1);
      AgedLonger(es, k, i, j, m - 1);
      assert IsTickAt(es, i, j, 150_000_000 * m);
    }
  }

  lemma AgedLater(es: seq<Event>, i: nat, hi: nat, later: nat, m: nat)
    requires i < |es| && hi <= later <= |es| && Aged(es, i, hi, m)
    ensures Aged(es, i, later, m)
  {
    if m > 0 {
      var j: nat :| i < j < hi && IsTickAt(es, i, j, 150_000_000 * m) && Aged(es, i, j, m - 1);
      assert i < j < later;
    }
  }

  lemma AgedTick(es: seq<Event>, i: nat, m: nat)
    requires i < |es| - 1 && Aged(es[..|es| - 1], i, |es| - 1, m)
    requires IsTickAt(es, i, |es| - 1, 150_000_000 * (m + 1))
    ensures Aged(es, i, |es|, m + 1)
  {
    AgedLonger(es, |es| - 1, i, |es| - 1, m);
  }

  /** What a run keeps of one packet: when it was sent, and that no datagram or relay copy left too early. */
  ghost predicate OnTime(es: seq<Event>, s: State, n: u32)
    requires 1 <= n <= NumSends(es)
  {
    var i := SendAt(es, n);
    && n in s.sent
    && s.out[UdpOf(s, n)] >= 1
    && (n in s.pending ==> s.pending[n].sent == es[i].at)
    && Aged(es, i, |es|, s.out[UdpOf(s, n)] - 1 + s.out[RelayOf(s, n)])
  }

  /** One more event that makes nothing leave for the packet. */
  lemma Quiet(es: seq<Event>, s: State, r: State, n: u32)
    requires es != [] && 1 <= n <= NumSends(es[..|es| - 1]) && OnTime(es[..|es| - 1], s, n)
    requires n in r.sent && r.sent[n] == s.sent[n]
    requires n in r.pending ==> n in s.pending && r.pending[n].sent == s.pending[n].sent
    requires r.out[UdpOf(s, n)] == s.out[UdpOf(s, n)] && r.out[RelayOf(s, n)] == s.out[RelayOf(s, n)]
    ensures OnTime(es, r, n)
  {
    var k := |es| - 1;
    var i, m := SendAt(es[..k], n), s.out[UdpOf(s, n)] - 1 + s.out[RelayOf(s, n)];
    assert SendAt(es, n) == i;
    AgedLonger(es, k, i, k, m);
    AgedLater(es, i, k, |es|, m);
  }

  /** One more event that makes a datagram or the relay copy leave, at the age it takes. */
  lemma OneMore(es: seq<Event>, s: State, r: State, n: u32)
    requires es != [] && 1 <= n <= NumSends(es[..|es| - 1]) && OnTime(es[..|es| - 1], s, n)
    requires n in r.sent && r.sent[n] == s.sent[n] && n in s.pending
    requires n in r.pending ==> r.pending[n].sent == s.pending[n].sent
    requires r.out[UdpOf(s, n)] >= 1
    requires r.out[UdpOf(s, n)] + r.out[RelayOf(s, n)] == s.out[UdpOf(s, n)] + s.out[RelayOf(s, n)] + 1
    requires var e, leave := es[|es| - 1], s.out[UdpOf(s, n)] + s.out[RelayOf(s, n)];
             e.Tick? && e.at - s.pending[n].sent > 150_000_000 * leave
    ensures OnTime(es, r, n)
  {
    var k := |es| - 1;
    var i := SendAt(es[..k], n);
    assert SendAt(es, n) == i;
    AgedTick(es, i, s.out[UdpOf(s, n)] - 1 + s.out[RelayOf(s, n)]);
  }

  /** A tick does to a pending packet what its age and the number of its datagrams say. */
  lemma TickEffect(s: State, k: nat, now: int, n: u32)
    requires Inv(s, k) && n in s.pending && n in s.sent
    ensures var r, udp, age := Retried(s, now), s.out[UdpOf(s, n)], now - s.pending[n].sent;
            var again := (udp == 1 && age > 150_000_000) || (udp == 2 && age > 300_000_000);
            var relay := udp == 3 && age > 450_000_000;
            && n in r.sent && r.sent[n] == s.sent[n]
            && 1 <= udp <= 3 && s.out[RelayOf(s, n)] == 0
            && r.out[UdpOf(s, n)] == udp + (if again then 1 else 0)
            && r.out[RelayOf(s, n)] == (if relay then 1 else 0)
            && (n in r.relayed <==> relay) && (n in r.pending <==> !relay)
            && (n in r.pending ==> r.pending[n].sent == s.pending[n].sent)
  {
    TickPartition(s, k, now);
    TickAccounts(s, k, now, n);
    assert Accounted(s, n) && Accounted(Retried(s, now), n);
  }

  lemma TickOnTime(es: seq<Event>, s: State, k: nat, n: u32)
    requires es != [] && es[|es| - 1].Tick? && 1 <= n <= NumSends(es[..|es| - 1])
    requires Inv(s, k) && OnTime(es[..|es| - 1], s, n)
    ensures OnTime(es, Retried(s, es[|es| - 1].at), n)
  {
    if n in s.pending {
      PendingTickOnTime(es, s, k, n);
    } else {
      StepLeavesSettled(s, k, es[|es| - 1], n);
      Quiet(es, s, Retried(s, es[|es| - 1].at), n);
    }
  }

  lemma PendingTickOnTime(es: seq<Event>, s: State, k: nat, n: u32)
    requires es != [] && es[|es| - 1].Tick? && 1 <= n <= NumSends(es[..|es| - 1])
    requires Inv(s, k) && OnTime(es[..|es| - 1], s, n) && n in s.pending
    ensures OnTime(es, Retried(s, es[|es| - 1].at), n)
  {
    var now := es[|es| - 1].at;
    var r := Retried(s, now);
    TickEffect(s, k, now, n);
    if r.out[UdpOf(s, n)] + r.out[RelayOf(s, n)] == s.out[UdpOf(s, n)] + s.out[RelayOf(s, n)] {
      Quiet(es, s, r, n);
    } else {
      OneMore(es, s, r, n);
    }
  }

  /** The packet of the last event has left once. */
  lemma JustSent(es: seq<Event>, r: State, n: u32)
    requires es != [] && es[|es| - 1].Send? && n == NumSends(es) >= 1
    requires n in r.sent && (n in r.pending ==> r.pending[n].sent == es[|es| - 1].at)
    requires r.out[UdpOf(r, n)] == 1 && r.out[RelayOf(r, n)] == 0
    ensures OnTime(es, r, n)
  {
    assert SendAt(es, n) == |es| - 1;
  }

  /** What a Send leaves of its own packet, and of each earlier one. */
  lemma SendEffect(s: State, k: nat, e: Event, n: u32)
    requires e.Send? && Inv(s, k) && 1 <= n <= k + 1 <= 0xFFFF_FFFF
    ensures var r := Step(s, e);
            && n in r.sent
            && if n == k + 1 then
                 && n in r.pending && r.pending[n].sent == e.at
                 && r.out[UdpOf(r, n)] == 1 && r.out[RelayOf(r, n)] == 0
               else
                 && n in s.sent && r.sent[n] == s.sent[n]
                 && (n in r.pending ==> n in s.pending && r.pending[n].sent == s.pending[n].sent)
                 && r.out[UdpOf(s, n)] == s.out[UdpOf(s, n)] && r.out[RelayOf(s, n)] == s.out[RelayOf(s, n)]
  {
    SendAccounts(s, k, Issue(e.data, Message(s.prefix, Succ32(s.seqNo), e.data)), e.at, n);
    assert Accounted(Step(s, e), n);
  }

  lemma SendOnTime(es: seq<Event>, s: State, n: u32)
    requires es != [] && es[|es| - 1].Send? && 1 <= n <= NumSends(es) < 0x1_0000_0000
    requires Inv(s, NumSends(es) - 1)
    requires n < NumSends(es) ==> OnTime(es[..|es| - 1], s, n)
    ensures OnTime(es, Step(s, es[|es| - 1]), n)
  {
    var e := es[|es| - 1];
    SendEffect(s, NumSends(es) - 1, e, n);
    if n == NumSends(es) {
      JustSent(es, Step(s, e), n);
    } else {
      Quiet(es, s, Step(s, e), n);
    }
  }

  lemma {:induction false} RunOnTime(prefix: seq<byte>, es: seq<Event>, n: u32)
    requires 1 <= n <= NumSends(es) < 0x1_0000_0000
    ensures OnTime(es, Run(Init(prefix), es), n)
  {
    var most, e := es[..|es| - 1], es[|es| - 1];
    var s := Run(Init(prefix), most);
    RunKeeps(prefix, most);
    if n <= NumSends(most) {
      RunOnTime(prefix, most, n);
    }
    match e
    case Send(_, _) => SendOnTime(es, s, n);
    case Ack(m) => Quiet(es, s, Acked(s, m), n);
    case Tick(now) => TickOnTime(es, s, NumSends(most), n);
  }

  ghost predicate OneTick(es: seq<Event>, i: nat, hi: nat)
    requires i < |es| && hi <= |es|
  {
    exists j :: i < j < hi && IsTickAt(es, i, j, 150_000_000)
  }

  ghost predicate TwoTicks(es: seq<Event>, i: nat, hi: nat)
    requires i < |es| && hi <= |es|
  {
    exists j, k :: i < j < k < hi && IsTickAt(es, i, j, 150_000_000) && IsTickAt(es, i, k, 300_000_000)
  }

  ghost predicate ThreeTicks(es: seq<Event>, i: nat, hi: nat)
    requires i < |es| && hi <= |es|
  {
    exists j, k, l :: i < j < k < l < hi && IsTickAt(es, i, j, 150_000_000)
                      && IsTickAt(es, i, k, 300_000_000) && IsTickAt(es, i, l, 450_000_000)
  }

  lemma AgedOne(es: seq<Event>, i: nat, hi: nat)
    requires i < |es| && hi <= |es| && Aged(es, i, hi, 1)
    ensures OneTick(es, i, hi)
  {
    var j: nat :| i < j < hi && IsTickAt(es, i, j, 150_000_000 * 1) && Aged(es, i, j, 0);
  }

  lemma AgedTwo(es: seq<Event>, i: nat, hi: nat)
    requires i < |es| && hi <= |es| && Aged(es, i, hi, 2)
    ensures TwoTicks(es, i, hi) && OneTick(es, i, hi)
  {
    var k: nat :| i < k < hi && IsTickAt(es, i, k, 150_000_000 * 2) && Aged(es, i, k, 1);
    AgedOne(es, i, k);
    var j :| i < j < k && IsTickAt(es, i, j, 150_000_000);
  }

  lemma AgedThree(es: seq<Event>, i: nat, hi: nat)
    requires i < |es| && hi <= |es| && Aged(es, i, hi, 3)
    ensures ThreeTicks(es, i, hi) && TwoTicks(es, i, hi) && OneTick(es, i, hi)
  {
    var l: nat :| i < l < hi && IsTickAt(es, i, l, 150_000_000 * 3) && Aged(es, i, l, 2);
    AgedTwo(es, i, l);
    var j, k :| i < j < k < l && IsTickAt(es, i, j, 150_000_000) && IsTickAt(es, i, k, 300_000_000);
  }

  lemma AgedCounts(es: seq<Event>, i: nat, udp: nat, relay: nat)
    requires i < |es| && 1 <= udp <= 3 && relay <= 1 && (relay == 1 ==> udp == 3)
    requires Aged(es, i, |es|, udp - 1 + relay)
    ensures udp >= 2 ==> OneTick(es, i, |es|)
    ensures udp >= 3 ==> TwoTicks(es, i, |es|)
    ensures relay >= 1 ==> ThreeTicks(es, i, |es|)
  {
    if relay == 1 {
      AgedThree(es, i, |es|);
    } else if udp == 3 {
      AgedTwo(es, i, |es|);
    } else if udp == 2 {
      AgedOne(es, i, |es|);
    }
  }

  lemma OnTimeCounts(es: seq<Event>, s: State, n: u32)
    requires 1 <= n <= NumSends(es) && OnTime(es, s, n)
    requires s.out[UdpOf(s, n)] <= 3 && s.out[RelayOf(s, n)] <= 1
    requires s.out[RelayOf(s, n)] == 1 ==> s.out[UdpOf(s, n)] == 3
    ensures s.out[UdpOf(s, n)] >= 2 ==> OneTick(es, SendAt(es, n), |es|)
    ensures s.out[UdpOf(s, n)] >= 3 ==> TwoTicks(es, SendAt(es, n), |es|)
    ensures s.out[RelayOf(s, n)] >= 1 ==> ThreeTicks(es, SendAt(es, n), |es|)
  {
    AgedCounts(es, SendAt(es, n), s.out[UdpOf(s, n)], s.out[RelayOf(s, n)]);
  }

  lemma Counts(prefix: seq<byte>, es: seq<Event>, n: u32)
    requires 1 <= n <= NumSends(es) < 0x1_0000_0000
    ensures var s := Run(Init(prefix), es);
            && n in s.sent && 1 <= s.out[UdpOf(s, n)] <= 3 && s.out[RelayOf(s, n)] <= 1
            && (s.out[RelayOf(s, n)] == 1 ==> s.out[UdpOf(s, n)] == 3)
  {
    RunKeeps(prefix, es);
    var s := Run(Init(prefix), es);
    assert n in s.sent && Accounted(s, n);
  }

  /**
   In every run, a second datagram means a tick more than 150 ms after the Send, a third a later tick more
   than 300 ms after it, and a relay copy a still later tick more than 450 ms after it.
   */
  lemma NothingLeavesEarly(prefix: seq<byte>, es: seq<Event>, n: u32)
    requires 1 <= n <= NumSends(es) < 0x1_0000_0000
    ensures var s, i := Run(Init(prefix), es), SendAt(es, n);
            && n in s.sent
            && (s.out[UdpOf(s, n)] >= 2 ==> OneTick(es, i, |es|))
            && (s.out[UdpOf(s, n)] >= 3 ==> TwoTicks(es, i, |es|))
            && (s.out[RelayOf(s, n)] >= 1 ==> ThreeTicks(es, i, |es|))
  {
    RunOnTime(prefix, es, n);
    Counts(prefix, es, n);
    OnTimeCounts(es, Run(Init(prefix), es), n);
  }

  /**
   In every run, a tick sends a pending packet again exactly if it has been sent once and is older than
   150 ms or twice and older than 300 ms, and hands it to the relay, and out of pending, exactly if it has
   been sent three times and is older than 450 ms.
   */
  lemma TickLaw(prefix: seq<byte>, es: seq<Event>, n: u32, now: int)
    requires 1 <= n <= NumSends(es) < 0x1_0000_0000 && n in Run(Init(prefix), es).pending
    ensures var s, r := Run(Init(prefix), es), Run(Init(prefix), es + [Tick(now)]);
            && n in s.sent
            && var udp, age := s.out[UdpOf(s, n)], now - es[SendAt(es, n)].at;
               var again := (udp == 1 && age > 150_000_000) || (udp == 2 && age > 300_000_000);
               var relay := udp == 3 && age > 450_000_000;
               && r.out[UdpOf(s, n)] == udp + (if again then 1 else 0)
               && r.out[RelayOf(s, n)] == (if relay then 1 else 0)
               && (n in r.relayed <==> relay) && (n in r.pending <==> !relay)
  {
    RunKeeps(prefix, es);
    RunOnTime(prefix, es, n);
    TickEffect(Run(Init(prefix), es), NumSends(es), now, n);
    assert (es + [Tick(now)])[..|es|] == es;
  }

  /** The packet is pending exactly if no acknowledgement has come since its Send and no relay copy has left. */
  ghost predicate PendingOk(es: seq<Event>, s: State, n: u32)
    requires 1 <= n <= NumSends(es)
  {
    n in s.sent && (n in s.pending <==> NoAck(es[SendAt(es, n)..], n) && s.out[RelayOf(s, n)] == 0)
  }

  lemma PendingOld(es: seq<Event>, s: State, r: State, n: u32)
    requires es != [] && 1 <= n <= NumSends(es[..|es| - 1]) && PendingOk(es[..|es| - 1], s, n)
    requires n in r.sent && r.sent[n] == s.sent[n]
    requires n in s.pending ==> (n in r.pending <==> es[|es| - 1] != Ack(n) && r.out[RelayOf(s, n)] == 0)
    requires n !in s.pending ==> n !in r.pending && r.out[RelayOf(s, n)] == s.out[RelayOf(s, n)]
    requires n in s.pending ==> s.out[RelayOf(s, n)] == 0
    ensures PendingOk(es, r, n)
  {
    var most, e := es[..|es| - 1], es[|es| - 1];
    var since := most[SendAt(most, n)..];
    assert SendAt(es, n) == SendAt(most, n) && es[SendAt(es, n)..] == since + [e];
    AckSnoc(since, e, n);
  }

  lemma PendingNew(es: seq<Event>, r: State)
    requires es != [] && es[|es| - 1].Send? && 1 <= NumSends(es) < 0x1_0000_0000
    requires var n: u32 := NumSends(es); n in r.sent && n in r.pending && r.out[RelayOf(r, n)] == 0
    ensures PendingOk(es, r, NumSends(es))
  {
    var k := |es| - 1;
    assert SendAt(es, NumSends(es)) == k && es[k..] == [es[k]];
  }

  lemma {:induction false} PendingIff(prefix: seq<byte>, es: seq<Event>, n: u32)
    requires 1 <= n <= NumSends(es) < 0x1_0000_0000
    ensures PendingOk(es, Run(Init(prefix), es), n)
  {
    var most, e := es[..|es| - 1], es[|es| - 1];
    var s := Run(Init(prefix), most);
    RunKeeps(prefix, most);
    if n <= NumSends(most) {
      PendingIff(prefix, most, n);
      PendingStep(s, NumSends(most), e, n);
      PendingOld(es, s, Step(s, e), n);
    } else {
      SendEffect(s, NumSends(most), e, n);
      PendingNew(es, Step(s, e));
    }
  }

  lemma PendingStep(s: State, k: nat, e: Event, n: u32)
    requires Inv(s, k) && n in s.sent && (e.Send? ==> k < 0xFFFF_FFFF)
    ensures var r := Step(s, e);
            && n in r.sent && r.sent[n] == s.sent[n]
            && (n in s.pending ==> (n in r.pending <==> e != Ack(n) && r.out[RelayOf(s, n)] == 0))
            && (n !in s.pending ==> n !in r.pending && r.out[RelayOf(s, n)] == s.out[RelayOf(s, n)])
            && (n in s.pending ==> s.out[RelayOf(s, n)] == 0)
  {
    if n in s.pending {
      assert Accounted(s, n);
      match e
      case Send(data, at) =>
        SendAccounts(s, k, Issue(data, Message(s.prefix, Succ32(s.seqNo), data)), at, n);
        SendProgress(s, k, Issue(data, Message(s.prefix, Succ32(s.seqNo), data)), at, n);
      case Ack(m) =>
      case Tick(now) => TickEffect(s, k, now, n);
    } else {
      StepLeavesSettled(s, k, e, n);
    }
  }

  lemma AckSnoc(es: seq<Event>, e: Event, n: u32)
    ensures NoAck(es + [e], n) <==> NoAck(es, n) && e != Ack(n)
  {
    var more := es + [e];
    assert forall j :: 0 <= j < |es| ==> more[j] == es[j];
    assert more[|es|] == e;
  }
}
