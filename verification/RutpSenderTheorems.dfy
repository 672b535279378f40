/** What every run of the RUTP sender keeps, for up to 2^32 - 1 packets. */
module RutpSenderTheorems {
  import opened Options
  import opened Bytes
  import opened RutpSender
  import RF = RutpFrame

  function NumSends(es: seq<Event>): (k: nat) {
    if es == [] then 0 else NumSends(es[..|es| - 1]) + if es[|es| - 1].Send? then 1 else 0
  }

  /** The one UDP datagram and the one relay message that packet `n` may cause. */
  function UdpOf(s: State, n: u32): (o: Out)
    requires n in s.sent
  {
    Udp(n, s.sent[n].datagram)
  }

  function RelayOf(s: State, n: u32): (o: Out)
    requires n in s.sent
  {
    Relay(n, s.sent[n].data)
  }

  /** What has left the sender for packet `n`, according to where the packet is. */
  predicate Accounted(s: State, n: u32)
    requires n in s.sent
  {
    var udp, relay := s.out[UdpOf(s, n)], s.out[RelayOf(s, n)];
    && (n in s.pending ==>
          && s.pending[n].payload == s.sent[n].data && s.pending[n].frame == s.sent[n].datagram
          && !s.pending[n].acked && s.pending[n].retries <= 2
          && udp == 1 + s.pending[n].retries && relay == 0)
    && (n in s.acked ==> 1 <= udp <= 3 && relay == 0)
    && (n in s.relayed ==> udp == 3 && relay == 1)
  }

  /** Every message that left is the datagram or the relay copy of a packet handed to Send. */
  predicate Genuine(s: State, o: Out) {
    o.seqNo in s.sent && (o == UdpOf(s, o.seqNo) || o == RelayOf(s, o.seqNo))
  }

  /** Issued numbers are 1..k, each pending, acknowledged or relayed and never two of them. */
  predicate Partitioned(s: State, k: nat) {
    && s.seqNo == k
    && (forall n: u32 :: n in s.sent <==> 1 <= n <= k)
    && s.sent.Keys == s.pending.Keys + s.acked + s.relayed
    && s.pending.Keys !! s.acked && s.pending.Keys !! s.relayed && s.acked !! s.relayed
  }

  ghost predicate Inv(s: State, k: nat) {
    && Partitioned(s, k)
    && (forall n :: n in s.sent ==> Accounted(s, n))
    && (forall o :: o in s.out ==> Genuine(s, o))
  }

  // ---- Each step keeps the invariant ----

  lemma SendPartition(s: State, k: nat, i: Issue, now: int)
    requires Partitioned(s, k) && k < 0xFFFF_FFFF
    ensures Partitioned(Issued(s, i, now), k + 1)
  {
    var r, n := Issued(s, i, now), Succ32(s.seqNo);
    assert r.sent.Keys == s.sent.Keys + {n};
    assert r.pending.Keys == s.pending.Keys + {n};
  }

  lemma SendAccounts(s: State, k: nat, i: Issue, now: int, m: u32)
    requires Inv(s, k) && k < 0xFFFF_FFFF && m in Issued(s, i, now).sent
    ensures Accounted(Issued(s, i, now), m)
  {
    var n := Succ32(s.seqNo);
    assert n !in s.sent;
    if m == n {
      assert forall o :: o in s.out ==> o.seqNo != n;
    } else {
      assert Accounted(s, m);
    }
  }

  lemma SendKeeps(s: State, k: nat, i: Issue, now: int)
    requires Inv(s, k) && k < 0xFFFF_FFFF
    ensures Inv(Issued(s, i, now), k + 1)
  {
    var r := Issued(s, i, now);
    SendPartition(s, k, i, now);
    forall m | m in r.sent
      ensures Accounted(r, m)
    {
      SendAccounts(s, k, i, now, m);
    }
    forall o | o in r.out
      ensures Genuine(r, o)
    {
      assert o in s.out ==> Genuine(s, o);
    }
  }

  lemma AckKeeps(s: State, k: nat, n: u32)
    requires Inv(s, k)
    ensures Inv(Acked(s, n), k)
  {
    var r := Acked(s, n);
    assert n in s.pending ==> r.pending.Keys == s.pending.Keys - {n};
    assert Partitioned(r, k);
    forall m | m in r.sent
      ensures Accounted(r, m)
    {
      assert Accounted(s, m);
    }
    forall o | o in r.out
      ensures Genuine(r, o)
    {
      assert Genuine(s, o);
    }
  }

  lemma TickPartition(s: State, k: nat, now: int)
    requires Inv(s, k)
    ensures Partitioned(Retried(s, now), k)
  {
    var r := Retried(s, now);
    forall n | n in s.pending
      ensures n in r.pending <==> n !in r.relayed
    {
      assert Accounted(s, n);
    }
    assert r.pending.Keys + r.relayed == s.pending.Keys + s.relayed;
  }

  lemma TickAccounts(s: State, k: nat, now: int, n: u32)
    requires Inv(s, k) && n in s.sent
    ensures Accounted(Retried(s, now), n)
  {
    var r := Retried(s, now);
    TickPartition(s, k, now);
    assert Accounted(s, n);
    var es := Emissions(s.pending, now);
    assert n !in s.pending ==> UdpOf(s, n) !in es && RelayOf(s, n) !in es;
    assert UdpOf(r, n) == UdpOf(s, n) && RelayOf(r, n) == RelayOf(s, n);
    if n in s.pending {
      var e := Emission(n, s.pending[n], now);
      assert UdpOf(s, n) in es <==> e == Some(UdpOf(s, n));
      assert RelayOf(s, n) in es <==> e == Some(RelayOf(s, n));
    }
  }

  lemma TickKeeps(s: State, k: nat, now: int)
    requires Inv(s, k)
    ensures Inv(Retried(s, now), k)
  {
    var r := Retried(s, now);
    TickPartition(s, k, now);
    forall n | n in r.sent
      ensures Accounted(r, n)
    {
      TickAccounts(s, k, now, n);
    }
    forall o | o in r.out
      ensures Genuine(r, o)
    {
      if o in s.out {
        assert Genuine(s, o);
      } else {
        assert o in Emissions(s.pending, now);
        assert Accounted(s, o.seqNo);
      }
    }
  }

  /** Every run of sends, acknowledgements and ticks from a fresh sender keeps the books. */
  lemma {:induction false} RunKeeps(prefix: seq<byte>, es: seq<Event>)
    requires NumSends(es) < 0x1_0000_0000
    ensures Inv(Run(Init(prefix), es), NumSends(es))
  {
    if es != [] {
      var ds, e := es[..|es| - 1], es[|es| - 1];
      RunKeeps(prefix, ds);
      var s := Run(Init(prefix), ds);
      match e
      case Send(data, now) => SendKeeps(s, NumSends(ds), Issue(data, Message(s.prefix, Succ32(s.seqNo), data)), now);
      case Ack(n) => AckKeeps(s, NumSends(ds), n);
      case Tick(now) => TickKeeps(s, NumSends(ds), now);
    }
  }

  /** At most three datagrams and one relay copy per packet, and nothing else leaves the sender. */
  lemma AtMostThreeAndOne(prefix: seq<byte>, es: seq<Event>, n: u32)
    requires NumSends(es) < 0x1_0000_0000
    ensures var s := Run(Init(prefix), es);
            && (n in s.sent <==> 1 <= n <= NumSends(es))
            && (forall bytes :: s.out[Udp(n, bytes)] <= 3 && s.out[Relay(n, bytes)] <= 1)
            && (forall bytes :: Udp(n, bytes) in s.out ==> n in s.sent && bytes == s.sent[n].datagram)
            && (forall bytes :: Relay(n, bytes) in s.out ==> n in s.sent && n in s.relayed && bytes == s.sent[n].data)
  {
    RunKeeps(prefix, es);
    var s := Run(Init(prefix), es);
    if n in s.sent {
      assert Accounted(s, n);
    }
    forall o | o in s.out && o.seqNo == n
      ensures n in s.sent && (o == UdpOf(s, n) || o == RelayOf(s, n))
    {
      assert Genuine(s, o);
    }
  }

  /** The datagram of every packet is the prefix and the DATA frame of its own number and data. */
  lemma {:induction false} DatagramsAreFrames(prefix: seq<byte>, es: seq<Event>)
    ensures var s := Run(Init(prefix), es);
            && s.prefix == prefix
            && forall n :: n in s.sent ==>
                 s.sent[n].datagram == prefix + RF.Frame(RF.Packet(1, n, s.sent[n].data))
  {
    if es != [] {
      DatagramsAreFrames(prefix, es[..|es| - 1]);
    }
  }

  // ---- A packet that has left is never touched again ----

  /** Packet `n` is settled in `s`, and `r` differs from `s` in nothing that concerns it. */
  ghost predicate Untouched(s: State, r: State, n: u32) {
    && n in s.sent && n !in s.pending
    && n in r.sent && n !in r.pending && r.sent[n] == s.sent[n]
    && (n in r.acked <==> n in s.acked) && (n in r.relayed <==> n in s.relayed)
    && forall o: Out :: o.seqNo == n ==> r.out[o] == s.out[o]
  }

  lemma StepLeavesSettled(s: State, k: nat, e: Event, n: u32)
    requires Partitioned(s, k) && n in s.sent && n !in s.pending
    requires e.Send? ==> k < 0xFFFF_FFFF
    ensures Untouched(s, Step(s, e), n)
  {
    match e
    case Send(data, now) => SendLeaves(s, k, Issue(data, Message(s.prefix, Succ32(s.seqNo), data)), now, n);
    case Ack(m) =>
    case Tick(now) =>
      assert forall o :: o in Emissions(s.pending, e.at) ==> o.seqNo in s.pending;
  }

  lemma SendLeaves(s: State, k: nat, i: Issue, now: int, n: u32)
    requires Partitioned(s, k) && n in s.sent && n !in s.pending && k < 0xFFFF_FFFF
    ensures Untouched(s, Issued(s, i, now), n)
  {
  }

  /** From any reachable state on, a settled packet stays where it is and causes no further message. */
  lemma {:induction false} SettledForever(prefix: seq<byte>, before: seq<Event>, after: seq<Event>, n: u32)
    requires NumSends(before + after) < 0x1_0000_0000
    requires var s := Run(Init(prefix), before); n in s.sent && n !in s.pending
    ensures var s, r := Run(Init(prefix), before), Run(Init(prefix), before + after);
            Untouched(s, r, n)
    decreases |after|
  {
    if after == [] {
      assert before + after == before;
    } else {
      var most, e := after[..|after| - 1], after[|after| - 1];
      assert (before + after)[..|before + after| - 1] == before + most;
      SettledForever(prefix, before, most, n);
      RunKeeps(prefix, before + most);
      StepLeavesSettled(Run(Init(prefix), before + most), NumSends(before + most), e, n);
    }
  }

  // ---- Three late ticks settle a packet ----

  /** Ticks of `es` at which a packet sent at `sent` is more than 450 ms old. */
  function LateTicks(es: seq<Event>, sent: int): (k: nat) {
    if es == [] then 0
    else LateTicks(es[..|es| - 1], sent) + if es[|es| - 1].Tick? && es[|es| - 1].at - sent > 450_000_000 then 1 else 0
  }

  predicate NoAck(es: seq<Event>, n: u32) {
    forall i :: 0 <= i < |es| ==> es[i] != Ack(n)
  }

  /** Each late tick uses up one of the 3 - retries that a pending packet has left. */
  lemma {:induction false} LateTicksCount(prefix: seq<byte>, before: seq<Event>, after: seq<Event>, n: u32)
    requires NumSends(before + after) < 0x1_0000_0000
    requires n in Run(Init(prefix), before).pending && NoAck(after, n)
    ensures var s, r := Run(Init(prefix), before), Run(Init(prefix), before + after);
            Progressed(s, r, n, LateTicks(after, s.pending[n].sent))
    decreases |after|
  {
    if after == [] {
      assert before + after == before;
    } else {
      var most, e := after[..|after| - 1], after[|after| - 1];
      assert (before + after)[..|before + after| - 1] == before + most;
      assert after[|after| - 1] != Ack(n);
      assert NoAck(most, n) by {
        assert forall i :: 0 <= i < |most| ==> most[i] == after[i];
      }
      LateTicksCount(prefix, before, most, n);
      RunKeeps(prefix, before + most);
      LateTicksSnoc(Run(Init(prefix), before), Run(Init(prefix), before + most), NumSends(before + most), after, n);
    }
  }

  /** One more event after a stretch that made `LateTicks` progress. */
  lemma LateTicksSnoc(s: State, q: State, k: nat, after: seq<Event>, n: u32)
    requires after != [] && n in s.pending && Inv(q, k)
    requires var most, e := after[..|after| - 1], after[|after| - 1];
             && e != Ack(n) && (e.Send? ==> k < 0xFFFF_FFFF)
             && Progressed(s, q, n, LateTicks(most, s.pending[n].sent)) && n in q.sent
    ensures Progressed(s, Step(q, after[|after| - 1]), n, LateTicks(after, s.pending[n].sent))
  {
    var e := after[|after| - 1];
    var r := Step(q, e);
    if n in q.pending {
      assert Accounted(q, n);
      LateTickStep(q, k, e, n);
    } else {
      StepLeavesSettled(q, k, e, n);
    }
  }

  predicate Progressed(q: State, r: State, n: u32, late: nat)
    requires n in q.pending
  {
    if n in r.pending
    then r.pending[n].sent == q.pending[n].sent && r.pending[n].retries >= q.pending[n].retries + late
    else n in r.relayed
  }

  lemma LateTickStep(q: State, k: nat, e: Event, n: u32)
    requires Partitioned(q, k) && n in q.pending && e != Ack(n)
    requires !q.pending[n].acked && q.pending[n].retries <= 2
    requires e.Send? ==> k < 0xFFFF_FFFF
    ensures Progressed(q, Step(q, e), n, if e.Tick? && e.at - q.pending[n].sent > 450_000_000 then 1 else 0)
  {
    if e.Send? {
      SendProgress(q, k, Issue(e.data, Message(q.prefix, Succ32(q.seqNo), e.data)), e.at, n);
    }
  }

  lemma SendProgress(q: State, k: nat, i: Issue, now: int, n: u32)
    requires Partitioned(q, k) && n in q.pending && k < 0xFFFF_FFFF
    ensures Progressed(q, Issued(q, i, now), n, 0)
  {
  }

  /** Any three ticks at age over 450 ms empty an unacknowledged packet from pending into the relay. */
  lemma ThreeLateTicksRelay(prefix: seq<byte>, before: seq<Event>, after: seq<Event>, n: u32)
    requires NumSends(before + after) < 0x1_0000_0000
    requires n in Run(Init(prefix), before).pending && NoAck(after, n)
    requires LateTicks(after, Run(Init(prefix), before).pending[n].sent) >= 3
    ensures n in Run(Init(prefix), before + after).relayed
    ensures n !in Run(Init(prefix), before + after).pending
  {
    LateTicksCount(prefix, before, after, n);
    RunKeeps(prefix, before + after);
    var r := Run(Init(prefix), before + after);
    assert n in r.sent ==> Accounted(r, n);
  }
}
