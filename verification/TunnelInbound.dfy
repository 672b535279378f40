/**
 What a tunnel writes to its local connection: chunks arrive over RUTP and, as the sender's fallback,
 over the relay; a map of content hashes is meant to keep a relay copy from being written again.
 Hash and decompression are arbitrary functions here.
 */
module TunnelInbound {
  import opened Options
  import opened Bytes
  import opened RutpReceiver

  datatype Codec = Codec(hash: seq<byte> -> int, decompress: seq<byte> -> Option<seq<byte>>) {
    /** The bytes written for a received payload: decompressed, or as they are if that fails. */
    function Raw(payload: seq<byte>): (raw: seq<byte>) {
      if decompress(payload).Some? then decompress(payload).value else payload
    }
  }

  /** `since` is the length of `written` when the current dedup map was made. */
  datatype State = State(arrivals: seq<u32>, dedup: Option<set<int>>, written: seq<seq<byte>>, since: nat)

  datatype Event =
    | Udp(seqNo: u32, payload: seq<byte>)
    | Relay(payload: seq<byte>)
    | NewMap

  const Init := State([], None, [], 0)

  /** A chunk is written and its hash recorded. */
  function Write(c: Codec, s: State, raw: seq<byte>): (r: State) {
    s.(written := s.written + [raw],
       dedup := if s.dedup.Some? then Some(s.dedup.value + {c.hash(raw)}) else None)
  }

  /** The TF: branch of udpReadLoop for a DATA frame. */
  function OnUdp(c: Codec, s: State, n: u32, payload: seq<byte>): (r: State) {
    var t := s.(arrivals := s.arrivals + [n],
                dedup := if s.dedup.Some? then s.dedup else Some({}),
                since := if s.dedup.Some? then s.since else |s.written|);
    if Accepted(t.arrivals, |s.arrivals|) && payload != [] then Write(c, t, c.Raw(payload)) else t
  }

  /** handleTunnelData for a tunnel that is not part of a bridge. */
  function OnRelay(c: Codec, s: State, payload: seq<byte>): (r: State) {
    var raw := c.Raw(payload);
    if s.dedup.Some? && c.hash(raw) in s.dedup.value then s else Write(c, s, raw)
  }

  function Step(c: Codec, s: State, e: Event): (r: State) {
    match e
    case Udp(n, payload) => OnUdp(c, s, n, payload)
    case Relay(payload) => OnRelay(c, s, payload)
    case NewMap => s.(dedup := Some({}), since := |s.written|)
  }

  function Run(c: Codec, es: seq<Event>): (s: State) {
    if es == [] then Init else Step(c, Run(c, es[..|es| - 1]), es[|es| - 1])
  }

  // ---- The code ----

  class Inbound {
    const codec: Codec
    var recv: Receiver?
    var dedup: Option<set<int>>
    var written: seq<seq<byte>>
    ghost var since: nat

    ghost predicate Valid()
      reads this, recv
    {
      recv != null ==> recv.Valid() && dedup.Some?
    }

    ghost function View(): (s: State)
      reads this, recv
    {
      State(if recv == null then [] else recv.arrivals, dedup, written, since)
    }

    constructor (codec: Codec)
      ensures Valid() && recv == null && View() == Init && this.codec == codec
    {
      this.codec := codec;
      recv, dedup, written, since := null, None, [], 0;
    }

    method HandleUdp(n: u32, payload: seq<byte>, prefix: seq<byte>)
      requires Valid()
      modifies this, recv
      ensures Valid() && recv != null && (recv == old(recv) || fresh(recv))
      ensures View() == OnUdp(codec, old(View()), n, payload)
    {
      if recv == null {
        recv := new Receiver(prefix);
        if dedup.None? {
          dedup := Some({});
          since := |written|;
        }
      }
      var deduped := recv.OnData(n, payload);
      // an empty payload parses to nil, which the caller cannot tell from a duplicate
      if deduped.Some? && deduped.value != [] {
        var raw := codec.Raw(deduped.value);
        dedup := Some(dedup.value + {codec.hash(raw)});
        written := written + [raw];
      }
    }

    method HandleRelay(payload: seq<byte>)
      requires Valid()
      modifies this`dedup, this`written
      ensures Valid() && View() == OnRelay(codec, old(View()), payload)
    {
      var raw := codec.Raw(payload);
      if dedup.Some? {
        var h := codec.hash(raw);
        if h in dedup.value {
          return;
        }
        dedup := Some(dedup.value + {h});
      }
      written := written + [raw];
    }

    /** tunnelReadUDP starting on this tunnel. */
    method ResetDedup()
      requires Valid()
      modifies this`dedup, this`since
      ensures Valid() && View() == Step(codec, old(View()), NewMap)
    {
      dedup := Some({});
      since := |written|;
    }
  }

  // ---- Over whole runs ----

  /** The map holds exactly the hashes of what was written since it was made. */
  ghost predicate MapIsRecent(c: Codec, s: State) {
    && s.since <= |s.written|
    && (s.dedup.Some? ==>
          forall h: int :: h in s.dedup.value <==> exists i :: s.since <= i < |s.written| && c.hash(s.written[i]) == h)
  }

  lemma WriteKeepsMap(c: Codec, s: State, raw: seq<byte>)
    requires MapIsRecent(c, s)
    ensures MapIsRecent(c, Write(c, s, raw))
  {
    var r := Write(c, s, raw);
    if s.dedup.Some? {
      forall h: int
        ensures h in r.dedup.value <==> exists i :: r.since <= i < |r.written| && c.hash(r.written[i]) == h
      {
        if h == c.hash(raw) {
          assert c.hash(r.written[|s.written|]) == h;
        } else if h in s.dedup.value {
          var i :| s.since <= i < |s.written| && c.hash(s.written[i]) == h;
          assert r.written[i] == s.written[i];
        } else {
          assert forall i :: s.since <= i < |s.written| ==> r.written[i] == s.written[i];
        }
      }
    }
  }

  lemma {:induction false} RunKeepsMap(c: Codec, es: seq<Event>)
    ensures MapIsRecent(c, Run(c, es))
  {
    if es != [] {
      var s, e := Run(c, es[..|es| - 1]), es[|es| - 1];
      RunKeepsMap(c, es[..|es| - 1]);
      match e
      case Udp(n, payload) =>
        var t := OnUdp(c, s, n, []);
        assert MapIsRecent(c, t);
        WriteKeepsMap(c, t, c.Raw(payload));
      case Relay(payload) => WriteKeepsMap(c, s, c.Raw(payload));
      case NewMap =>
    }
  }

  /** The event that made the current map: the last NewMap, or else the first UDP arrival. */
  function MapMadeAt(es: seq<Event>): (at: Option<nat>)
    ensures at.Some? ==> at.value < |es|
  {
    if es == [] then None
    else
      var n := |es| - 1;
      var before := MapMadeAt(es[..n]);
      if es[n].NewMap? || (es[n].Udp? && before.None?) then Some(n) else before
  }

  /** The map exists once it is made, and `since` is how much had been written when it was. */
  lemma {:induction false} MapAge(c: Codec, es: seq<Event>)
    ensures Run(c, es).dedup.Some? <==> MapMadeAt(es).Some?
    ensures MapMadeAt(es).Some? ==> Run(c, es).since == |Run(c, es[..MapMadeAt(es).value]).written|
  {
    if es != [] {
      var n := |es| - 1;
      MapAge(c, es[..n]);
      if MapMadeAt(es).Some? && MapMadeAt(es).value < n {
        assert es[..n][..MapMadeAt(es).value] == es[..MapMadeAt(es).value];
      }
    }
  }

  /** In every run a relay copy is written exactly when no chunk of that hash was written since the map was made. */
  lemma RelayWritesIff(c: Codec, es: seq<Event>, payload: seq<byte>)
    ensures var s, r, made := Run(c, es), Run(c, es + [Relay(payload)]), MapMadeAt(es);
            var raw := if c.decompress(payload).Some? then c.decompress(payload).value else payload;
            if made.None? ||
               forall i :: |Run(c, es[..made.value]).written| <= i < |s.written| ==> c.hash(s.written[i]) != c.hash(raw)
            then r.written == s.written + [raw]
            else r.written == s.written
  {
    RunKeepsMap(c, es);
    MapAge(c, es);
    assert (es + [Relay(payload)])[..|es|] == es;
    var s, h := Run(c, es), c.hash(c.Raw(payload));
    if s.dedup.Some? && h in s.dedup.value {
      var i :| s.since <= i < |s.written| && c.hash(s.written[i]) == h;
    }
  }

  /** The numbers of the UDP arrivals, in order. */
  function Numbers(es: seq<Event>): (ns: seq<u32>) {
    if es == [] then []
    else
      var e := es[|es| - 1];
      Numbers(es[..|es| - 1]) + if e.Udp? then [e.seqNo] else []
  }

  lemma {:induction false} ArrivalsAreNumbers(c: Codec, es: seq<Event>)
    ensures Run(c, es).arrivals == Numbers(es)
  {
    if es != [] {
      ArrivalsAreNumbers(c, es[..|es| - 1]);
    }
  }

  /**
   After each earlier delivery of number `n`, or with it, came the delivery of some s with s % 500 == 0 and
   n < s - 5000 (mod 2^32).
   */
  ghost predicate Forgotten(ns: seq<u32>, n: u32) {
    forall i: nat :: i < |ns| && ns[i] == n && Accepted(ns, i) ==>
      exists m :: i <= m < |ns| && Accepted(ns, m) && ns[m] % 500 == 0
                  && n < if ns[m] >= 5000 then ns[m] - 5000 else ns[m] + 4_294_962_296
  }

  lemma NextDeliveredIff(ns: seq<u32>, n: u32)
    ensures Accepted(ns + [n], |ns|) <==> Forgotten(ns, n)
  {
    var more := ns + [n];
    assert more[..|ns|] == ns;
    DeliveredIff(more, |ns|);
    forall i: nat | i < |ns|
      ensures Accepted(more, i) <==> Accepted(ns, i)
    {
      AcceptedPrefix(more, |ns|, i);
    }
    if Accepted(more, |ns|) {
      forall i: nat | i < |ns| && ns[i] == n && Accepted(ns, i)
        ensures exists m :: i <= m < |ns| && Accepted(ns, m) && ns[m] % 500 == 0
                            && n < if ns[m] >= 5000 then ns[m] - 5000 else ns[m] + 4_294_962_296
      {
        assert more[i] == n && Accepted(more, i);
        var m :| i <= m < |ns| && Accepted(more, m) && Forgets(more[m], n);
        assert Accepted(ns, m) && ns[m] == more[m];
      }
    } else {
      var i: nat :| i < |ns| && more[i] == n && Accepted(more, i) &&
                    forall m :: i <= m < |ns| && Accepted(more, m) ==> !Forgets(more[m], n);
      assert forall m :: i <= m < |ns| && Accepted(ns, m) ==> Accepted(more, m) && !Forgets(ns[m], n);
    }
  }

  /**
   In every run, whatever the relay has written: a UDP chunk is written exactly when it is not empty and
   the receiver has forgotten every earlier delivery of its number, of which there may be none.
   */
  lemma UdpWritesIff(c: Codec, es: seq<Event>, n: u32, payload: seq<byte>)
    ensures var s, r := Run(c, es), Run(c, es + [Udp(n, payload)]);
            var raw := if c.decompress(payload).Some? then c.decompress(payload).value else payload;
            r.written == s.written + if payload != [] && Forgotten(Numbers(es), n) then [raw] else []
  {
    assert (es + [Udp(n, payload)])[..|es|] == es;
    ArrivalsAreNumbers(c, es);
    NextDeliveredIff(Numbers(es), n);
  }

  /** A chunk written over UDP is not written again from the relay while the map lives. */
  lemma NoRelayCopyAfterUdp(c: Codec, before: seq<Event>, n: u32, payload: seq<byte>, between: seq<Event>, copy: seq<byte>)
    requires |Run(c, before + [Udp(n, payload)]).written| > |Run(c, before).written|
    requires c.Raw(copy) == c.Raw(payload)
    requires NewMap !in between
    ensures var es := before + [Udp(n, payload)] + between;
            Run(c, es + [Relay(copy)]).written == Run(c, es).written
  {
    var es := before + [Udp(n, payload)];
    assert es[..|before|] == before;
    var s := Run(c, es);
    assert s.dedup.Some? && c.hash(c.Raw(payload)) in s.dedup.value;
    MapOnlyGrows(c, es, between);
    assert (es + between + [Relay(copy)])[..|es + between|] == es + between;
  }

  lemma {:induction false} MapOnlyGrows(c: Codec, es: seq<Event>, more: seq<Event>)
    requires NewMap !in more && Run(c, es).dedup.Some?
    ensures Run(c, es + more).dedup.Some? && Run(c, es).dedup.value <= Run(c, es + more).dedup.value
  {
    if more == [] {
      assert es + more == es;
    } else {
      var most := more[..|more| - 1];
      MapOnlyGrows(c, es, most);
      assert (es + more)[..|es + more| - 1] == es + most;
      assert more[|more| - 1] != NewMap;
    }
  }

  lemma {:induction false} NumbersOf(es: seq<Event>, n: u32)
    requires forall e :: e in es && e.Udp? ==> e.seqNo != n
    ensures n !in Numbers(es)
  {
    if es != [] {
      assert es[|es| - 1] in es;
      NumbersOf(es[..|es| - 1], n);
    }
  }

  /**
   The other order is not suppressed: after any run that has written the relay copy of a chunk, the
   chunk's first arrival by UDP is written as well.
   */
  lemma UdpCopyAfterRelayIsWritten(c: Codec, es: seq<Event>, copy: seq<byte>, n: u32, payload: seq<byte>)
    requires payload != [] && c.Raw(copy) == c.Raw(payload)
    requires Relay(copy) in es && c.Raw(copy) in Run(c, es).written
    requires forall e :: e in es && e.Udp? ==> e.seqNo != n
    ensures Run(c, es + [Udp(n, payload)]).written == Run(c, es).written + [c.Raw(copy)]
  {
    NumbersOf(es, n);
    UdpWritesIff(c, es, n, payload);
  }
}
