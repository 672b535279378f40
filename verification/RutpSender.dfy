/**
 The sending half of RUTP: every packet goes out by UDP, is retransmitted twice, and is finally
 handed to the relay unless its acknowledgement arrives first.  Times are in nanoseconds.
 */
module RutpSender {
  import opened Options
  import opened Bytes
  import RF = RutpFrame

  const RETRY_STEP: int := 150_000_000
  const RELAY_AGE: int := 450_000_000

  datatype Pending = Pending(payload: seq<byte>, frame: seq<byte>, sent: int, retries: nat, acked: bool)

  /** What the sender emits.  A relay message does not carry the sequence number; it is recorded for the proofs. */
  datatype Out = Udp(seqNo: u32, bytes: seq<byte>) | Relay(seqNo: u32, bytes: seq<byte>)

  /** The data and the datagram of a packet. */
  datatype Issue = Issue(data: seq<byte>, datagram: seq<byte>)

  /** The sender; `sent`, `acked` and `relayed` are the books that the claims are about. */
  datatype State = State(
    prefix: seq<byte>, seqNo: u32, pending: map<u32, Pending>, out: multiset<Out>,
    sent: map<u32, Issue>, acked: set<u32>, relayed: set<u32>)

  datatype Event = Send(data: seq<byte>, at: int) | Ack(seqNo: u32) | Tick(at: int)

  function Message(prefix: seq<byte>, n: u32, data: seq<byte>): (m: seq<byte>) {
    prefix + RF.Frame(RF.Packet(RF.DATA, n, data))
  }

  // ---- One packet at one tick ----

  function Next(p: Pending, now: int): (r: Option<Pending>) {
    if p.acked then None
    else if p.retries < 2 && now - p.sent > RETRY_STEP * (p.retries + 1) then Some(p.(retries := p.retries + 1))
    else if p.retries == 2 && now - p.sent > RELAY_AGE then None
    else if p.retries > 2 then None
    else Some(p)
  }

  function Emission(n: u32, p: Pending, now: int): (r: Option<Out>)
    ensures r.Some? ==> r.value.seqNo == n
  {
    if p.acked then None
    else if p.retries < 2 && now - p.sent > RETRY_STEP * (p.retries + 1) then Some(Udp(n, p.frame))
    else if p.retries == 2 && now - p.sent > RELAY_AGE then Some(Relay(n, p.payload))
    else None
  }

  function Emissions(pending: map<u32, Pending>, now: int): (r: set<Out>) {
    set n | n in pending && Emission(n, pending[n], now).Some? :: Emission(n, pending[n], now).value
  }

  /** The pending packets when all of them but those in `todo` have been visited. */
  function Ticked(pending: map<u32, Pending>, todo: set<u32>, now: int): (r: map<u32, Pending>) {
    map n | n in pending && (n in todo || Next(pending[n], now).Some?)
      :: if n in todo then pending[n] else Next(pending[n], now).value
  }

  function HandedOver(pending: map<u32, Pending>, now: int): (r: set<u32>) {
    set n | n in pending && Emission(n, pending[n], now).Some? && Emission(n, pending[n], now).value.Relay?
  }

  // ---- The machine ----

  function Init(prefix: seq<byte>): (s: State) {
    State(prefix, 0, map[], multiset{}, map[], {}, {})
  }

  /** `i` goes out under the next sequence number. */
  function Issued(s: State, i: Issue, now: int): (r: State) {
    var n := Succ32(s.seqNo);
    s.(seqNo := n,
       pending := s.pending[n := Pending(i.data, i.datagram, now, 0, false)],
       out := s.out + multiset{Udp(n, i.datagram)},
       sent := s.sent[n := i])
  }

  function Sent(s: State, data: seq<byte>, now: int): (r: State) {
    Issued(s, Issue(data, Message(s.prefix, Succ32(s.seqNo), data)), now)
  }

  function Acked(s: State, n: u32): (r: State) {
    if n in s.pending then s.(pending := s.pending - {n}, acked := s.acked + {n}) else s
  }

  function Retried(s: State, now: int): (r: State) {
    s.(pending := Ticked(s.pending, {}, now),
       out := s.out + multiset(Emissions(s.pending, now)),
       relayed := s.relayed + HandedOver(s.pending, now))
  }

  function Step(s: State, e: Event): (r: State) {
    match e
    case Send(data, now) => Sent(s, data, now)
    case Ack(n) => Acked(s, n)
    case Tick(now) => Retried(s, now)
  }

  function Run(s: State, es: seq<Event>): (r: State) {
    if es == [] then s else Step(Run(s, es[..|es| - 1]), es[|es| - 1])
  }

  // ---- The code ----

  method BuildMessage(prefix: seq<byte>, n: u32, data: seq<byte>) returns (msg: seq<byte>)
    ensures msg == Message(prefix, n, data)
  {
    var frame := RF.BuildFrame(RF.DATA, n, data);
    msg := prefix + frame;
  }

  class Sender {
    const prefix: seq<byte>
    var seqNo: u32
    var pending: map<u32, Pending>
    var out: multiset<Out>
    ghost var sent: map<u32, Issue>
    ghost var acked: set<u32>
    ghost var relayed: set<u32>

    ghost function View(): (s: State)
      reads this
    {
      State(prefix, seqNo, pending, out, sent, acked, relayed)
    }

    constructor (prefix: seq<byte>)
      ensures View() == Init(prefix)
    {
      this.prefix := prefix;
      seqNo, pending, out := 0, map[], multiset{};
      sent, acked, relayed := map[], {}, {};
    }

    method SendData(data: seq<byte>, now: int)
      modifies this
      ensures View() == Sent(old(View()), data, now)
    {
      var n := Succ32(seqNo);
      var msg := BuildMessage(prefix, n, data);
      seqNo, pending, out, sent :=
        n, pending[n := Pending(data, msg, now, 0, false)], out + multiset{Udp(n, msg)}, sent[n := Issue(data, msg)];
    }

    method OnAck(n: u32)
      modifies this
      ensures View() == Acked(old(View()), n)
    {
      if n in pending {
        pending := pending - {n};
        acked := acked + {n};
      }
    }

    /** The callback that fallbackLoop runs on one pending packet. */
    method Visit(n: u32, now: int)
      requires n in pending
      modifies this`pending, this`out
      ensures var p := old(pending)[n];
              && pending == (if Next(p, now).Some? then old(pending)[n := Next(p, now).value] else old(pending) - {n})
              && out == old(out) + Once(Emission(n, p, now))
    {
      var p := pending[n];
      if p.acked {
        pending := pending - {n};
      } else if p.retries < 2 && now - p.sent > RETRY_STEP * (p.retries + 1) {
        pending := pending[n := p.(retries := p.retries + 1)];
        out := out + multiset{Udp(n, p.frame)};
      } else if p.retries == 2 && now - p.sent > RELAY_AGE {
        out := out + multiset{Relay(n, p.payload)};
        pending := pending - {n};
      } else if p.retries > 2 {
        pending := pending - {n};
      }
    }

    /** One tick of fallbackLoop, visiting the pending packets in any order. */
    method OnTick(now: int)
      modifies this
      ensures View() == Retried(old(View()), now)
    {
      ghost var was, out0 := pending, out;
      NothingVisited(was, now);
      var todo := pending.Keys;
      while todo != {}
        invariant todo <= was.Keys
        invariant pending == Ticked(was, todo, now)
        invariant out == out0 + multiset(Emissions(was - todo, now))
        decreases todo
        modifies this`pending, this`out
      {
        var n :| n in todo;
        EmitOne(was, todo, n, now);
        TickOne(was, todo, n, now);
        Visit(n, now);
        todo := todo - {n};
      }
      assert was - {} == was;
      relayed := relayed + HandedOver(was, now);
    }
  }

  function Once(o: Option<Out>): (m: multiset<Out>) {
    if o.Some? then multiset{o.value} else multiset{}
  }

  lemma NothingVisited(was: map<u32, Pending>, now: int)
    ensures was == Ticked(was, was.Keys, now)
    ensures Emissions(was - was.Keys, now) == {}
  {
  }

  /** Visiting one more packet replaces or removes exactly that packet. */
  lemma TickOne(was: map<u32, Pending>, todo: set<u32>, n: u32, now: int)
    requires n in todo && n in was
    ensures var before, after, p := Ticked(was, todo, now), Ticked(was, todo - {n}, now), Next(was[n], now);
            && n in before && before[n] == was[n]
            && after == if p.Some? then before[n := p.value] else before - {n}
  {
    var before, after, p := Ticked(was, todo, now), Ticked(was, todo - {n}, now), Next(was[n], now);
    if p.Some? {
      assert after.Keys == before.Keys;
    } else {
      assert after.Keys == before.Keys - {n};
    }
  }

  /** Visiting one more packet adds exactly its own emission. */
  lemma EmitOne(was: map<u32, Pending>, todo: set<u32>, n: u32, now: int)
    requires n in todo && n in was
    ensures multiset(Emissions(was - (todo - {n}), now)) ==
            multiset(Emissions(was - todo, now)) + Once(Emission(n, was[n], now))
  {
    var a, b := was - todo, was - (todo - {n});
    var e := Emission(n, was[n], now);
    assert b.Keys == a.Keys + {n};
    if e.Some? {
      assert e.value !in Emissions(a, now);
      assert Emissions(b, now) == Emissions(a, now) + {e.value};
    } else {
      assert Emissions(b, now) == Emissions(a, now);
    }
  }
}
