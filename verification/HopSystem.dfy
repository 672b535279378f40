/**
 Origin, middle and target peers joined by FIFO links, any number of bridges at once.  Peers follow the
 protocol, tunnel ids are globally fresh, and all tunnel data takes the relay path.
 */
module HopSystem {
  import opened HopRelay

  /** One end of a bridge: who holds it, the id of the other end, and whether it is the target's end. */
  datatype End = End(peer: string, partner: string, outbound: bool)

  datatype Stage = Waiting | Up | Down

  /** What happened at one end: data sent into it, delivered to it, written to its local connection, and
      how much was delivered before that connection existed. */
  datatype Log = Log(stage: Stage, sent: seq<Payload>, delivered: seq<Payload>, written: seq<Payload>, lost: nat)

  datatype Sys = Sys(table: Table, ends: map<string, End>, logs: map<string, Log>, toB: seq<Packet>, fromB: seq<Packet>)

  datatype Event =
    | NewBridge(bridge: Bridge)
    | LocalOpen(id: string)
    | LocalSend(id: string, bytes: Payload)
    | LocalClose(id: string)
    | ToRelay(i: nat)
    | ToPeer(i: nat, answer: Answer)

  /** What the target does with open_tunnel. */
  datatype Answer = Dialed | Refused | Unreachable

  /** Per-peer FIFO: nothing from or to the same peer waits before position `i`. */
  predicate IsHead(q: seq<Packet>, i: nat) {
    i < |q| && forall j :: 0 <= j < i ==> q[j].peer != q[i].peer
  }

  function Without(q: seq<Packet>, i: nat): (r: seq<Packet>)
    requires i < |q|
  {
    q[..i] + q[i + 1..]
  }

  const Init := Sys(Table(map[], map[]), map[], map[], [], [])

  predicate Enabled(s: Sys, e: Event) {
    match e
    case NewBridge(b) => b.inID != b.outID && b.inID !in s.ends && b.outID !in s.ends
    case LocalOpen(id) => id in s.ends && id in s.logs && !s.ends[id].outbound && s.logs[id].stage == Waiting
    case LocalSend(id, _) => id in s.ends && id in s.logs && s.logs[id].stage == Up
    case LocalClose(id) => id in s.ends && id in s.logs && s.logs[id].stage == Up
    case ToRelay(i) => IsHead(s.toB, i)
    case ToPeer(i, _) => IsHead(s.fromB, i)
  }

  /** B handles the message at the head of a link. */
  function AtRelay(s: Sys, i: nat): (r: Sys)
    requires i < |s.toB|
    ensures r.ends == s.ends && r.logs == s.logs
  {
    var t := s.(toB := Without(s.toB, i));
    match s.toB[i].msg
    case Data(id, bytes) => t.(fromB := s.fromB + DataOut(s.table, id, bytes))
    case Close(id) => t.(table := AfterClose(s.table, id), fromB := s.fromB + CloseOut(s.table, id))
    case Rejected(id) => t.(table := AfterClose(s.table, id), fromB := s.fromB + RejectOut(s.table, id))
    case _ => t
  }

  /** Data reaches an end: it is written while the end is up, and lost before. */
  function Receive(l: Log, bytes: Payload): (r: Log) {
    var d := l.(delivered := l.delivered + [bytes]);
    match l.stage
    case Waiting => d.(lost := l.lost + 1)
    case Up => d.(written := l.written + [bytes])
    case Down => d
  }

  /** A peer handles the message at the head of a link. */
  function AtPeer(s: Sys, i: nat, answer: Answer): (r: Sys)
    requires i < |s.fromB|
    ensures r.ends == s.ends && r.table == s.table && r.logs.Keys == s.logs.Keys
  {
    var t, peer := s.(fromB := Without(s.fromB, i)), s.fromB[i].peer;
    match s.fromB[i].msg
    case Data(id, bytes) => if id in s.logs then t.(logs := s.logs[id := Receive(s.logs[id], bytes)]) else t
    case Open(id) =>
      if id !in s.logs then t
      else if answer == Dialed then
        t.(logs := s.logs[id := s.logs[id].(stage := Up)], toB := s.toB + [Packet(peer, Opened(id))])
      else
        t.(logs := s.logs[id := s.logs[id].(stage := Down)],
           toB := s.toB + [Packet(peer, if answer == Refused then Rejected(id) else Close(id))])
    case Close(id) =>
      if id in s.logs && s.logs[id].stage == Up
      then t.(logs := s.logs[id := s.logs[id].(stage := Down)], toB := s.toB + [Packet(peer, Close(id))])
      else t
    case _ => t
  }

  function Step(s: Sys, e: Event): (r: Sys)
    requires Enabled(s, e)
  {
    match e
    case NewBridge(b) =>
      var blank := Log(Waiting, [], [], [], 0);
      Sys(Registered(s.table, b),
          s.ends[b.inID := End(b.origin, b.outID, false)][b.outID := End(b.target, b.inID, true)],
          s.logs[b.inID := blank][b.outID := blank],
          s.toB, s.fromB + [Packet(b.target, Open(b.outID)), Packet(b.origin, HopAccept(b.hopID, b.inID))])
    case LocalOpen(id) => s.(logs := s.logs[id := s.logs[id].(stage := Up)])
    case LocalSend(id, bytes) =>
      s.(logs := s.logs[id := s.logs[id].(sent := s.logs[id].sent + [bytes])],
         toB := s.toB + [Packet(s.ends[id].peer, Data(id, bytes))])
    case LocalClose(id) =>
      s.(logs := s.logs[id := s.logs[id].(stage := Down)], toB := s.toB + [Packet(s.ends[id].peer, Close(id))])
    case ToRelay(i) => AtRelay(s, i)
    case ToPeer(i, answer) => AtPeer(s, i, answer)
  }

  datatype Outcome = Stuck | At(state: Sys)

  function Run(es: seq<Event>): (r: Outcome) {
    if es == [] then At(Init)
    else
      var q, e := Run(es[..|es| - 1]), es[|es| - 1];
      if q.At? && Enabled(q.state, e) then At(Step(q.state, e)) else Stuck
  }

  // ---- Data in flight ----

  /** The data under `id` that waits in a link, in order. */
  function Flying(q: seq<Packet>, id: string): (d: seq<Payload>) {
    if q == [] then []
    else (if q[0].msg.Data? && q[0].msg.id == id then [q[0].msg.bytes] else []) + Flying(q[1..], id)
  }

  lemma {:induction false} FlyingConcat(a: seq<Packet>, b: seq<Packet>, id: string)
    ensures Flying(a + b, id) == Flying(a, id) + Flying(b, id)
  {
    if a == [] {
      assert a + b == b;
    } else {
      assert (a + b)[1..] == a[1..] + b;
      FlyingConcat(a[1..], b, id);
    }
  }

  lemma FlyingAppend(q: seq<Packet>, p: Packet, id: string)
    ensures Flying(q + [p], id) == Flying(q, id) + if p.msg.Data? && p.msg.id == id then [p.msg.bytes] else []
  {
    FlyingConcat(q, [p], id);
    assert [p][1..] == [];
  }

  lemma {:induction false} NothingFlying(q: seq<Packet>, id: string)
    requires forall p :: p in q ==> !(p.msg.Data? && p.msg.id == id)
    ensures Flying(q, id) == []
  {
    if q != [] {
      assert q[0] in q;
      NothingFlying(q[1..], id);
    }
  }

  /** Taking the head of a peer's link takes the first data of that tunnel, and nothing of any other. */
  lemma FlyingWithout(q: seq<Packet>, i: nat, id: string)
    requires IsHead(q, i)
    requires q[i].msg.Data? && q[i].msg.id == id ==> forall p :: p in q && p.msg.Data? && p.msg.id == id ==> p.peer == q[i].peer
    ensures var d: seq<Payload> := if q[i].msg.Data? && q[i].msg.id == id then [q[i].msg.bytes] else [];
            Flying(q, id) == d + Flying(Without(q, i), id)
  {
    var a, p, b := q[..i], q[i], q[i + 1..];
    assert q == a + ([p] + b);
    FlyingConcat(a, [p] + b, id);
    FlyingConcat([p], b, id);
    FlyingConcat(a, b, id);
    assert [p][1..] == [];
    if p.msg.Data? && p.msg.id == id {
      forall x | x in a
        ensures !(x.msg.Data? && x.msg.id == id)
      {
        assert x in q;
      }
      NothingFlying(a, id);
    }
  }
}
