/**
 Per-peer connection modes of the client, the peers' reports of who is direct to whom, and the choice of
 a peer to hop through.
 */
module PeerModes {
  import opened Options

  datatype Mode = Connecting | Direct | Relay

  /** `autoHopVia` is "" when there is no hop. */
  datatype PeerConn = PeerConn(mode: Mode, addr: Option<string>, punchFails: int, encrypted: bool, autoHopVia: string)

  datatype State = State(myID: string, conns: map<string, PeerConn>, maps: map<string, set<string>>)

  // ---- The handlers ----

  /** A peer that nothing is known of yet. */
  const NEW_CONN := PeerConn(Connecting, None, 0, false, "")

  /** handlePeerList: the peers in `joined`, which the previous list did not have, get a record. */
  function OnPeerList(s: State, joined: set<string>): (r: State) {
    s.(conns := map p | p in s.conns.Keys + (joined - {s.myID}) :: if p in s.conns then s.conns[p] else NEW_CONN)
  }

  /** handleStunInfo: the peer announces an endpoint. */
  function OnStunInfo(s: State, from: string, addr: string): (r: State) {
    var pc := if from in s.conns then s.conns[from] else NEW_CONN;
    if pc.mode == Direct && pc.addr == Some(addr) then s
    else
      var moved := pc.addr.Some? && pc.addr.value != addr && pc.mode == Direct;
      var qc := if moved then pc.(mode := Connecting, encrypted := false) else pc;
      s.(conns := s.conns[from := qc.(addr := Some(addr))])
  }

  function OnHolePunchSuccess(s: State, peer: string, addr: string): (r: State) {
    var pc := if peer in s.conns then s.conns[peer] else NEW_CONN;
    if pc.mode == Direct then s
    else s.(conns := s.conns[peer := pc.(mode := Direct, addr := Some(addr), punchFails := 0)])
  }

  /** The retry ticker turns a peer that failed five times to relay. */
  function Demoted(pc: PeerConn): (r: PeerConn) {
    if pc.addr.Some? && pc.mode == Connecting && pc.punchFails >= 5 then pc.(mode := Relay) else pc
  }

  function OnRetryTick(s: State): (r: State) {
    s.(conns := map p | p in s.conns :: Demoted(s.conns[p]))
  }

  /** The end of a punch attempt that the retry ticker started. */
  function OnPunchDone(s: State, peer: string): (r: State) {
    if peer in s.conns && s.conns[peer].mode != Direct
    then s.(conns := s.conns[peer := s.conns[peer].(punchFails := s.conns[peer].punchFails + 1)])
    else s
  }

  function OnKeyExchange(s: State, peer: string): (r: State) {
    if peer in s.conns then s.(conns := s.conns[peer := s.conns[peer].(encrypted := true)]) else s
  }

  function OnP2PMap(s: State, from: string, direct: set<string>): (r: State) {
    s.(maps := s.maps[from := direct])
  }

  function OnHopChosen(s: State, target: string, via: string): (r: State) {
    if via != "" && target in s.conns && s.conns[target].autoHopVia == ""
    then s.(conns := s.conns[target := s.conns[target].(autoHopVia := via)])
    else s
  }

  function Unhopped(pc: PeerConn, peer: string): (r: PeerConn) {
    if pc.autoHopVia == peer then pc.(autoHopVia := "") else pc
  }

  /** A peer has left: its connection goes, and cleanupPeerP2PMap. */
  function OnPeerLeft(s: State, peer: string): (r: State) {
    s.(conns := map p | p in s.conns && p != peer :: Unhopped(s.conns[p], peer), maps := s.maps - {peer})
  }

  function ResetConn(pc: PeerConn): (r: PeerConn) {
    pc.(mode := Connecting, addr := None, encrypted := false, autoHopVia := "")
  }

  /** resetP2PState. */
  function OnReset(s: State): (r: State) {
    s.(conns := map p | p in s.conns :: ResetConn(s.conns[p]), maps := map[])
  }

  // ---- The choice ----

  /** Direct to us, and reported direct to the target. */
  predicate Eligible(s: State, target: string, c: string) {
    && c in s.maps && c != target && c != s.myID && target in s.maps[c]
    && c in s.conns && s.conns[c].mode == Direct
  }

  function Score(pc: PeerConn): (n: int) {
    100 + (if pc.encrypted then 50 else 0) - pc.punchFails
  }

  /** What findAutoHopCandidate returns: the best eligible peer that beats -1, or else "". */
  ghost predicate IsChoice(s: State, target: string, c: string) {
    || (c == "" && forall p :: Eligible(s, target, p) ==> Score(s.conns[p]) <= -1)
    || (&& Eligible(s, target, c) && Score(s.conns[c]) > -1
        && forall p :: Eligible(s, target, p) ==> Score(s.conns[p]) <= Score(s.conns[c]))
  }

  class Peers {
    const myID: string
    var conns: map<string, PeerConn>
    var maps: map<string, set<string>>

    ghost function View(): (s: State)
      reads this
    {
      State(myID, conns, maps)
    }

    constructor (myID: string)
      ensures View() == State(myID, map[], map[])
    {
      this.myID := myID;
      conns, maps := map[], map[];
    }

    /** The loop over the peers that joined. */
    method HandlePeerList(joined: set<string>)
      modifies this`conns
      ensures View() == OnPeerList(old(View()), joined)
    {
      ghost var was := conns;
      var todo := joined;
      while todo != {}
        invariant todo <= joined && conns.Keys == was.Keys + (joined - todo - {myID})
        invariant forall p :: p in conns ==> conns[p] == if p in was then was[p] else NEW_CONN
        decreases todo
        modifies this`conns
      {
        var p :| p in todo;
        todo := todo - {p};
        if p == myID {
          continue;
        }
        if p !in conns {
          conns := conns[p := NEW_CONN];
        }
      }
    }

    method HandleStunInfo(from: string, addr: string)
      modifies this`conns
      ensures View() == OnStunInfo(old(View()), from, addr)
    {
      if from !in conns {
        conns := conns[from := NEW_CONN];
      }
      var pc := conns[from];
      if pc.mode == Direct && pc.addr == Some(addr) {
        return;
      }
      if pc.addr.Some? && pc.addr.value != addr && pc.mode == Direct {
        pc := pc.(mode := Connecting, encrypted := false);
      }
      conns := conns[from := pc.(addr := Some(addr))];
    }

    method HolePunchSuccess(peer: string, addr: string)
      modifies this`conns
      ensures View() == OnHolePunchSuccess(old(View()), peer, addr)
    {
      var pc := if peer in conns then conns[peer] else NEW_CONN;
      if pc.mode == Direct {
        return;
      }
      conns := conns[peer := pc.(mode := Direct, addr := Some(addr), punchFails := 0)];
    }

    /** The retry loop over all peers; returns those to punch again. */
    method RetryTick() returns (retry: set<string>)
      modifies this`conns
      ensures View() == OnRetryTick(old(View()))
      ensures retry == set p | p in old(conns) && old(conns)[p].addr.Some? && old(conns)[p].mode != Direct
    {
      ghost var was := conns;
      retry := {};
      var todo := conns.Keys;
      while todo != {}
        invariant todo <= was.Keys && conns.Keys == was.Keys
        invariant forall p :: p in was ==> conns[p] == if p in todo then was[p] else Demoted(was[p])
        invariant retry == set p | p in was && p !in todo && was[p].addr.Some? && was[p].mode != Direct
        decreases todo
      {
        var p :| p in todo;
        todo := todo - {p};
        var pc := conns[p];
        if pc.addr.Some? && pc.mode != Direct {
          if pc.mode == Connecting && pc.punchFails >= 5 {
            conns := conns[p := pc.(mode := Relay)];
          }
          retry := retry + {p};
        }
      }
    }

    method FindAutoHopCandidate(target: string) returns (best: string)
      ensures IsChoice(View(), target, best)
    {
      best := "";
      var bestScore := -1;
      var todo := maps.Keys;
      while todo != {}
        invariant todo <= maps.Keys
        invariant (best == "" && bestScore == -1) ||
                  (Eligible(View(), target, best) && bestScore == Score(conns[best]) && bestScore > -1)
        invariant forall p :: Eligible(View(), target, p) && p !in todo ==> Score(conns[p]) <= bestScore
        decreases todo
      {
        var c :| c in todo;
        todo := todo - {c};
        if c == target || c == myID {
          continue;
        }
        if target !in maps[c] {
          continue;
        }
        if c !in conns || conns[c].mode != Direct {
          continue;
        }
        var score := 100;
        if conns[c].encrypted {
          score := score + 50;
        }
        score := score - conns[c].punchFails;
        if score > bestScore {
          bestScore := score;
          best := c;
        }
      }
    }

    method TryAutoHop(target: string) returns (via: string)
      modifies this`conns
      ensures target in old(conns) && old(conns)[target].autoHopVia != "" ==> via == ""
      ensures via != "" ==> IsChoice(old(View()), target, via)
      ensures via == "" && !(target in old(conns) && old(conns)[target].autoHopVia != "") ==> IsChoice(old(View()), target, "")
      ensures View() == OnHopChosen(old(View()), target, via)
    {
      if target in conns && conns[target].autoHopVia != "" {
        return "";
      }
      via := FindAutoHopCandidate(target);
      if via == "" {
        return;
      }
      if target in conns && conns[target].autoHopVia == "" {
        conns := conns[target := conns[target].(autoHopVia := via)];
      }
    }

    /** The loop of cleanupPeerP2PMap. */
    method ClearHops(peer: string)
      modifies this`conns
      ensures conns == map p | p in old(conns) :: Unhopped(old(conns)[p], peer)
    {
      ghost var was := conns;
      var todo := conns.Keys;
      while todo != {}
        invariant todo <= was.Keys && conns.Keys == was.Keys
        invariant forall p :: p in was ==> conns[p] == if p in todo then was[p] else Unhopped(was[p], peer)
        decreases todo
        modifies this`conns
      {
        var p :| p in todo;
        todo := todo - {p};
        if conns[p].autoHopVia == peer {
          conns := conns[p := conns[p].(autoHopVia := "")];
        }
      }
    }

    method PeerLeft(peer: string)
      modifies this
      ensures View() == OnPeerLeft(old(View()), peer)
    {
      conns := conns - {peer};
      maps := maps - {peer};
      ClearHops(peer);
    }

    method ResetP2PState()
      modifies this
      ensures View() == OnReset(old(View()))
    {
      ghost var was := conns;
      var todo := conns.Keys;
      while todo != {}
        invariant todo <= was.Keys && conns.Keys == was.Keys
        invariant forall p :: p in was ==> conns[p] == if p in todo then was[p] else ResetConn(was[p])
        decreases todo
        modifies this`conns
      {
        var p :| p in todo;
        todo := todo - {p};
        conns := conns[p := ResetConn(conns[p])];
      }
      maps := map[];
    }
  }

  // ---- Over every run ----

  datatype Event =
    | PeerList(joined: set<string>)
    | StunInfo(from: string, addr: string)
    | PunchSuccess(peer: string, addr: string)
    | RetryTick
    | PunchDone(peer: string)
    | KeyExchange(peer: string)
    | P2PMap(from: string, direct: set<string>)
    | TryHop(target: string, via: string)
    | PeerLeft(peer: string)
    | Reset

  /** A map comes from a named peer, and a hop is one that the search may return. */
  ghost predicate Enabled(s: State, e: Event) {
    match e
    case P2PMap(from, _) => from != ""
    case TryHop(target, via) => IsChoice(s, target, via)
    case _ => true
  }

  function Step(s: State, e: Event): (r: State) {
    match e
    case PeerList(joined) => OnPeerList(s, joined)
    case StunInfo(from, addr) => OnStunInfo(s, from, addr)
    case PunchSuccess(peer, addr) => OnHolePunchSuccess(s, peer, addr)
    case RetryTick => OnRetryTick(s)
    case PunchDone(peer) => OnPunchDone(s, peer)
    case KeyExchange(peer) => OnKeyExchange(s, peer)
    case P2PMap(from, direct) => OnP2PMap(s, from, direct)
    case TryHop(target, via) => OnHopChosen(s, target, via)
    case PeerLeft(peer) => OnPeerLeft(s, peer)
    case Reset => OnReset(s)
  }

  datatype Outcome = Stuck | At(state: State)

  /** The state of a client after the events `es`, if each of them could happen. */
  ghost function Run(myID: string, es: seq<Event>): (r: Outcome) {
    if es == [] then At(State(myID, map[], map[]))
    else
      var q, e := Run(myID, es[..|es| - 1]), es[|es| - 1];
      if q.At? && Enabled(q.state, e) then At(Step(q.state, e)) else Stuck
  }

  ghost predicate ConnOk(pc: PeerConn, maps: map<string, set<string>>) {
    && (pc.mode == Direct ==> pc.punchFails == 0 && pc.addr.Some?)
    && (pc.mode == Relay ==> pc.punchFails >= 5)
    && pc.punchFails >= 0
    && (pc.autoHopVia != "" ==> pc.autoHopVia in maps)
  }

  ghost predicate Inv(s: State) {
    && "" !in s.maps
    && forall p :: p in s.conns ==> ConnOk(s.conns[p], s.maps)
  }

  lemma StepKeeps(s: State, e: Event)
    requires Inv(s) && Enabled(s, e)
    ensures Inv(Step(s, e))
  {
    forall p | p in Step(s, e).conns
      ensures ConnOk(Step(s, e).conns[p], Step(s, e).maps)
    {
      assert p in s.conns ==> ConnOk(s.conns[p], s.maps);
    }
  }

  lemma {:induction false} RunKeeps(myID: string, es: seq<Event>)
    requires Run(myID, es).At?
    ensures Inv(Run(myID, es).state)
  {
    if es != [] {
      RunKeeps(myID, es[..|es| - 1]);
      StepKeeps(Run(myID, es[..|es| - 1]).state, es[|es| - 1]);
    }
  }

  /** In every reachable state the search finds a peer exactly when an eligible one exists, and then a best one. */
  lemma SearchIsComplete(myID: string, es: seq<Event>, s: State, target: string, c: string)
    requires Run(myID, es) == At(s) && IsChoice(s, target, c)
    ensures c != "" <==> exists p :: Eligible(s, target, p)
    ensures c != "" ==> Eligible(s, target, c) && forall p :: Eligible(s, target, p) ==> Score(s.conns[p]) <= Score(s.conns[c])
    ensures forall p :: Eligible(s, target, p) && s.conns[p].encrypted ==> c != "" && s.conns[c].encrypted
  {
    RunKeeps(myID, es);
    forall p | Eligible(s, target, p)
      ensures Score(s.conns[p]) >= 100
    {
      assert ConnOk(s.conns[p], s.maps);
    }
  }

  /** Outside the reachable states it is not: an eligible peer with more than 100 failures is passed over. */
  lemma SearchNeedsInvariant()
    ensures var s := State("me", map["b" := PeerConn(Direct, Some("x"), 101, false, "")], map["b" := {"c"}]);
            Eligible(s, "c", "b") && IsChoice(s, "c", "")
  {
  }

  /** A recorded hop leads through a peer that still reports; when that peer leaves, the hop goes with it. */
  lemma HopsFollowMaps(myID: string, es: seq<Event>, s: State, p: string, gone: string)
    requires Run(myID, es) == At(s) && p in s.conns && s.conns[p].autoHopVia != ""
    ensures s.conns[p].autoHopVia in s.maps
    ensures gone != "" && p in OnPeerLeft(s, gone).conns ==> OnPeerLeft(s, gone).conns[p].autoHopVia != gone
  {
    RunKeeps(myID, es);
    assert ConnOk(s.conns[p], s.maps);
  }
}
