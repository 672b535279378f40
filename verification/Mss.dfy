/** Clamping the TCP maximum segment size announced in SYN packets. */
module Mss {
  import opened Options
  import opened Bytes
  import opened Checksum
  import opened Transport
  import opened Snat

  const TUN_MSS: u16 := 1360

  /** End of the TCP header, in a packet with at least 20 bytes after its IP header. */
  function HeaderEnd(pkt: seq<byte>): (n: nat)
    requires |pkt| >= 20 && |pkt| >= Ihl(pkt) + 20
  {
    Ihl(pkt) + 4 * Upper(pkt[Ihl(pkt) + 12])
  }

  /** `flags & 0x02 != 0`. */
  predicate SynFlag(flags: byte) {
    flags / 2 % 2 == 1
  }

  /** An IPv4 TCP packet with the SYN flag whose TCP header is longer than 20 bytes. */
  predicate SynWithOptions(pkt: seq<byte>) {
    && |pkt| >= 20 && Upper(pkt[0]) == 4
    && pkt[9] == 6 && |pkt| >= Ihl(pkt) + 20
    && SynFlag(pkt[Ihl(pkt) + 13])
    && HeaderEnd(pkt) > Ihl(pkt) + 20
  }

  /** The options lie inside the packet. */
  predicate OptionsInside(pkt: seq<byte>) {
    SynWithOptions(pkt) ==> HeaderEnd(pkt) <= |pkt|
  }

  function OptionBytes(pkt: seq<byte>): (opts: seq<byte>)
    requires SynWithOptions(pkt) && OptionsInside(pkt)
  {
    pkt[Ihl(pkt) + 20..HeaderEnd(pkt)]
  }

  function Shifted(n: nat, at: Option<nat>): (r: Option<nat>) {
    if at.Some? then Some(n + at.value) else None
  }

  /** Offset of the MSS option that the walk over `opts` stops at. */
  function FindMss(opts: seq<byte>): (at: Option<nat>)
    ensures at.Some? ==> at.value + 4 <= |opts|
  {
    if |opts| == 0 || opts[0] == 0 then None
    else if opts[0] == 1 then Shifted(1, FindMss(opts[1..]))
    else if |opts| < 2 || opts[1] < 2 || opts[1] as int > |opts| then None
    else if opts[0] == 2 && opts[1] == 4 then Some(0)
    else Shifted(opts[1], FindMss(opts[opts[1]..]))
  }

  /** Where in the packet the announced segment size stands, if the walk finds one. */
  function MssOffset(pkt: seq<byte>): (at: Option<nat>)
    requires SynWithOptions(pkt) && OptionsInside(pkt)
    ensures at.Some? ==> Ihl(pkt) + 22 <= at.value && at.value + 2 <= HeaderEnd(pkt)
  {
    Shifted(Ihl(pkt) + 22, FindMss(OptionBytes(pkt)))
  }

  /** A packet that clampMSS rewrites. */
  predicate TooLarge(pkt: seq<byte>)
    requires OptionsInside(pkt)
  {
    SynWithOptions(pkt) && MssOffset(pkt).Some? && Get16(pkt, MssOffset(pkt).value) > TUN_MSS
  }

  /** The pseudo-header and segment that tcpChecksumCalc sums. */
  function Pseudo(seg: seq<byte>, src: IPv4, dst: IPv4): (p: seq<byte>)
    requires |seg| >= 18
  {
    var len := |seg| % 0x1_0000;
    (src + dst + [0, 6, High(len), Low(len)]) + Put16(seg, 16, 0)
  }

  /** The packet with its TCP checksum recomputed from scratch. */
  function Rechecksummed(pkt: seq<byte>, ihl: nat): (r: seq<byte>)
    requires 20 <= |pkt| && ihl + 18 <= |pkt|
    ensures |r| == |pkt|
  {
    var z := Put16(pkt, ihl + 16, 0);
    Put16(z, ihl + 16, Not16(Residue(Wrap32(Sum(Pseudo(z[ihl..], z[12..16], z[16..20]))))))
  }

  function Clamped(pkt: seq<byte>): (r: seq<byte>)
    requires OptionsInside(pkt)
    ensures |r| == |pkt|
  {
    if TooLarge(pkt) then
      Rechecksummed(Put16(pkt, MssOffset(pkt).value, TUN_MSS), Ihl(pkt))
    else pkt
  }

  // ---- Packets in a larger buffer ----

  /** The option slice runs past the capacity of the buffer, whose first `n` bytes are the packet. */
  predicate Panics(buf: seq<byte>, n: nat)
    requires n <= |buf|
  {
    SynWithOptions(buf[..n]) && HeaderEnd(buf[..n]) > |buf|
  }

  /** The place of a segment size, if there is one and it is too large. */
  function LargeAt(buf: seq<byte>, word: Option<nat>): (at: Option<nat>)
    requires word.Some? ==> word.value + 2 <= |buf|
  {
    if word.Some? && Get16(buf, word.value) > TUN_MSS then word else None
  }

  /** Where in the buffer, past the packet or not, the walk finds a segment size that is too large. */
  function TooLargeAt(buf: seq<byte>, n: nat): (at: Option<nat>)
    requires n <= |buf| && !Panics(buf, n)
    ensures at.Some? ==> SynWithOptions(buf[..n]) && Ihl(buf[..n]) + 22 <= at.value && at.value + 2 <= |buf|
  {
    var pkt := buf[..n];
    if SynWithOptions(pkt) then LargeAt(buf, Shifted(Ihl(pkt) + 22, FindMss(buf[Ihl(pkt) + 20..HeaderEnd(pkt)]))) else None
  }

  /** The buffer with the segment size at `at` clamped and the packet's TCP checksum recomputed. */
  function ClampedAt(buf: seq<byte>, n: nat, ihl: nat, at: nat): (r: seq<byte>)
    requires n <= |buf| && 20 <= n && ihl + 18 <= n && at + 2 <= |buf|
    ensures |r| == |buf|
  {
    var b := Put16(buf, at, TUN_MSS);
    Rechecksummed(b[..n], ihl) + b[n..]
  }

  /** The buffer after clampMSS. */
  function ClampedIn(buf: seq<byte>, n: nat): (r: seq<byte>)
    requires n <= |buf| && !Panics(buf, n)
    ensures |r| == |buf|
  {
    match TooLargeAt(buf, n)
    case None => buf
    case Some(at) => ClampedAt(buf, n, Ihl(buf[..n]), at)
  }

  // ---- The code ----

  method TcpChecksumCalc(seg: seq<byte>, src: IPv4, dst: IPv4) returns (c: u16)
    requires |seg| >= 18
    ensures c == Not16(Residue(Wrap32(Sum(Pseudo(seg, src, dst)))))
  {
    var pseudo := new byte[12 + |seg|](_ => 0);
    StoreBytes(pseudo, 0, src);
    StoreBytes(pseudo, 4, dst);
    pseudo[9] := 6;
    StoreWord(pseudo, 10, |seg| % 0x1_0000);
    ghost var h := pseudo[..];
    assert h[..4] == src && h[4..8] == dst;
    StoreBytes(pseudo, 12, seg);
    pseudo[28], pseudo[29] := 0, 0;
    PseudoFilled(h, seg, src, dst, pseudo[..]);
    c := Compute(pseudo[..]);
  }

  lemma PseudoFilled(h: seq<byte>, seg: seq<byte>, src: IPv4, dst: IPv4, f: seq<byte>)
    requires |seg| >= 18 && |h| == 12 + |seg| && h[..4] == src && h[4..8] == dst && h[8] == 0 && h[9] == 6
    requires var len := |seg| % 0x1_0000; h[10] == High(len) && h[11] == Low(len)
    requires f == Splice(h, 12, seg)[28 := 0][29 := 0]
    ensures f == Pseudo(seg, src, dst)
  {
    var len := |seg| % 0x1_0000;
    assert f[..12] == h[..12] == src + dst + [0, 6, High(len), Low(len)];
    assert High(0) == 0 && Low(0) == 0;
    assert f[12..] == Put16(seg, 16, 0);
  }

  /** What the walk from offset `i` of `opts` on finds. */
  function FindFrom(opts: seq<byte>, i: nat): (at: Option<nat>)
    requires i <= |opts|
  {
    Shifted(i, FindMss(opts[i..]))
  }

  /** The end of the options, an end-of-options byte or a malformed option ends the walk. */
  lemma WalkEnds(opts: seq<byte>, i: nat)
    requires i <= |opts|
    requires || i == |opts| || opts[i] == 0
             || (opts[i] != 1 && (i + 1 == |opts| || opts[i + 1] < 2 || i + opts[i + 1] > |opts|))
    ensures FindFrom(opts, i) == None
  {
    var t := opts[i..];
    assert i < |opts| ==> t[0] == opts[i];
    assert i + 1 < |opts| ==> t[1] == opts[i + 1];
  }

  lemma WalkHits(opts: seq<byte>, i: nat)
    requires i + 4 <= |opts| && opts[i] == 2 && opts[i + 1] == 4
    ensures FindFrom(opts, i) == Some(i)
  {
    assert opts[i..][0] == 2 && opts[i..][1] == 4;
  }

  /** A step of `n` bytes over padding or over an option of another kind. */
  lemma WalkSkips(opts: seq<byte>, i: nat, n: nat)
    requires i < |opts| && opts[i] != 0 && i + n <= |opts|
    requires if opts[i] == 1 then n == 1 else i + 1 < |opts| && 2 <= n == opts[i + 1] && !(opts[i] == 2 && n == 4)
    ensures FindFrom(opts, i) == FindFrom(opts, i + n)
  {
    var t := opts[i..];
    assert t[0] == opts[i] && (opts[i] != 1 ==> t[1] == opts[i + 1]);
    assert t[n..] == opts[i + n..];
  }

  /** The option walk: offset of the MSS option, or None. */
  method WalkOptions(opts: seq<byte>) returns (at: Option<nat>)
    ensures at == FindMss(opts)
  {
    var i := 0;
    ghost var want := FindMss(opts);
    assert opts[0..] == opts;
    while i < |opts|
      invariant 0 <= i <= |opts|
      invariant want == FindFrom(opts, i)
    {
      var kind := opts[i];
      if kind == 0 {
        WalkEnds(opts, i);
        return None;
      }
      if kind == 1 {
        WalkSkips(opts, i, 1);
        i := i + 1;
        continue;
      }
      if i + 1 >= |opts| {
        WalkEnds(opts, i);
        return None;
      }
      var optLen := opts[i + 1] as int;
      if optLen < 2 || i + optLen > |opts| {
        WalkEnds(opts, i);
        return None;
      }
      if kind == 2 && optLen == 4 {
        WalkHits(opts, i);
        return Some(i);
      }
      WalkSkips(opts, i, optLen);
      i := i + optLen;
    }
    WalkEnds(opts, i);
    return None;
  }

  /** Zero the TCP checksum of the packet in the first `n` bytes, recompute it over the segment, store it. */
  method StoreTcpChecksum(buf: array<byte>, n: nat, ihl: nat)
    requires 20 <= n <= buf.Length && ihl + 18 <= n
    modifies buf
    ensures buf[..] == Rechecksummed(old(buf[..n]), ihl) + old(buf[n..])
  {
    ghost var was := buf[..];
    StoreWord(buf, ihl + 16, 0);
    ghost var z := Put16(was[..n], ihl + 16, 0);
    assert buf[..] == z + was[n..];
    var c := TcpChecksumCalc(buf[ihl..n], buf[12..16], buf[16..20]);
    assert buf[ihl..n] == z[ihl..] && buf[12..16] == z[12..16] && buf[16..20] == z[16..20];
    StoreWord(buf, ihl + 16, c);
    assert Put16(z + was[n..], ihl + 16, c) == Put16(z, ihl + 16, c) + was[n..];
  }

  /** The packet is the first `n` bytes of `buf`; slicing the options may reach past it, or past the buffer. */
  method ClampMSS(buf: array<byte>, n: nat) returns (panics: bool)
    requires n <= buf.Length
    modifies buf
    ensures panics <==> Panics(old(buf[..]), n)
    ensures buf[..] == if panics then old(buf[..]) else ClampedIn(old(buf[..]), n)
  {
    ghost var pkt := buf[..][..n];
    panics := false;
    if n < 20 || Upper(buf[0]) != 4 {
      return;
    }
    var ihl := 4 * Lower(buf[0]);
    if buf[9] != 6 || n < ihl + 20 {
      return;
    }
    if !SynFlag(buf[ihl + 13]) {
      return;
    }
    var dataOff := 4 * Upper(buf[ihl + 12]);
    if dataOff <= 20 {
      return;
    }
    assert SynWithOptions(pkt) && HeaderEnd(pkt) == ihl + dataOff;
    if ihl + dataOff > buf.Length {
      return true;
    }
    var at := FindTooLarge(buf, n, ihl, dataOff);
    if at.Some? {
      ClampAt(buf, n, ihl, at.value);
    }
  }

  /** The walk over the options of a SYN, and the test of the size it finds. */
  method FindTooLarge(buf: array<byte>, n: nat, ihl: nat, dataOff: nat) returns (at: Option<nat>)
    requires n <= buf.Length && SynWithOptions(buf[..][..n])
    requires ihl == Ihl(buf[..][..n]) && ihl + dataOff == HeaderEnd(buf[..][..n]) <= buf.Length
    ensures at == TooLargeAt(buf[..], n)
  {
    var opts := buf[ihl + 20..ihl + dataOff];
    var found := WalkOptions(opts);
    FoundIn(buf[..], n, ihl, ihl + dataOff, found);
    if found.Some? {
      var mss := ihl + 22 + found.value;
      if Get16(buf[..], mss) > TUN_MSS {
        return Some(mss);
      }
    }
    return None;
  }

  lemma FoundIn(buf: seq<byte>, n: nat, ihl: nat, end: nat, found: Option<nat>)
    requires n <= |buf| && SynWithOptions(buf[..n])
    requires Ihl(buf[..n]) == ihl && HeaderEnd(buf[..n]) == end <= |buf| && found == FindMss(buf[ihl + 20..end])
    ensures !Panics(buf, n)
    ensures var word := Shifted(ihl + 22, found);
            && (word.Some? ==> word.value + 2 <= |buf|)
            && TooLargeAt(buf, n) == LargeAt(buf, word)
  {
  }

  method ClampAt(buf: array<byte>, n: nat, ihl: nat, at: nat)
    requires 20 <= n <= buf.Length && ihl + 18 <= n && at + 2 <= buf.Length
    modifies buf
    ensures buf[..] == ClampedAt(old(buf[..]), n, ihl, at)
  {
    ghost var b := Put16(buf[..], at, TUN_MSS);
    StoreWord(buf, at, TUN_MSS);
    assert buf[..n] == b[..n] && buf[n..] == b[n..];
    StoreTcpChecksum(buf, n, ihl);
  }

  // ---- What clamping guarantees ----

  /** The walk does not look at the value of the option it stops at. */
  lemma {:induction false} FindMssFrame(opts: seq<byte>, opts': seq<byte>)
    requires |opts| == |opts'| && FindMss(opts).Some?
    requires var at := FindMss(opts).value;
             forall j :: 0 <= j < |opts| && j != at + 2 && j != at + 3 ==> opts'[j] == opts[j]
    ensures FindMss(opts') == FindMss(opts)
    decreases |opts|
  {
    var n := if opts[0] == 1 then 1 else opts[1] as int;
    if !(opts[0] == 2 && n == 4) {
      FindMssFrame(opts[n..], opts'[n..]);
    }
  }

  /** Only the announced size and the TCP checksum change. */
  lemma ClampedBytes(pkt: seq<byte>)
    requires OptionsInside(pkt) && TooLarge(pkt)
    ensures var r, at, off := Clamped(pkt), MssOffset(pkt).value, Ihl(pkt) + 16;
            && (forall j :: 0 <= j < |pkt| && j != at && j != at + 1 && j != off && j != off + 1 ==> r[j] == pkt[j])
            && Get16(r, at) == TUN_MSS
  {
  }

  /** The walk finds the same option again. */
  lemma ClampedFrame(pkt: seq<byte>)
    requires OptionsInside(pkt) && TooLarge(pkt)
    ensures var r := Clamped(pkt);
            SynWithOptions(r) && OptionsInside(r) && MssOffset(r) == MssOffset(pkt)
  {
    var r := Clamped(pkt);
    ClampedBytes(pkt);
    var ihl := Ihl(pkt);
    assert r[0] == pkt[0] && r[9] == pkt[9] && r[ihl + 12] == pkt[ihl + 12] && r[ihl + 13] == pkt[ihl + 13];
    SameWalk(pkt, r);
  }

  lemma SameWalk(pkt: seq<byte>, r: seq<byte>)
    requires |r| == |pkt| && OptionsInside(pkt) && SynWithOptions(pkt) && MssOffset(pkt).Some?
    requires r[0] == pkt[0] && r[9] == pkt[9]
    requires r[Ihl(pkt) + 12] == pkt[Ihl(pkt) + 12] && r[Ihl(pkt) + 13] == pkt[Ihl(pkt) + 13]
    requires var at := MssOffset(pkt).value;
             forall j :: Ihl(pkt) + 20 <= j < |pkt| && j != at && j != at + 1 ==> r[j] == pkt[j]
    ensures SynWithOptions(r) && OptionsInside(r) && MssOffset(r) == MssOffset(pkt)
  {
    FindMssFrame(OptionBytes(pkt), OptionBytes(r));
  }

  /** After clamping, the size the walk finds is at most 1360; clamping again changes nothing. */
  lemma ClampedIsSmallAndStable(pkt: seq<byte>)
    requires OptionsInside(pkt)
    ensures OptionsInside(Clamped(pkt))
    ensures SynWithOptions(Clamped(pkt)) && MssOffset(Clamped(pkt)).Some? ==>
              Get16(Clamped(pkt), MssOffset(Clamped(pkt)).value) <= TUN_MSS
    ensures Clamped(Clamped(pkt)) == Clamped(pkt)
  {
    if TooLarge(pkt) {
      ClampedFrame(pkt);
      ClampedBytes(pkt);
    }
  }

  lemma PseudoSum(pkt: seq<byte>, ihl: nat)
    requires 20 <= |pkt| && ihl + 18 <= |pkt| && pkt[9] == 6
    requires Get16(pkt, ihl + 16) == 0
    ensures Sum(Pseudo(pkt[ihl..], pkt[12..16], pkt[16..20])) == CoveredSum(pkt, ihl, (|pkt| - ihl) % 0x1_0000)
  {
    var seg := pkt[ihl..];
    var len := |seg| % 0x1_0000;
    var a: seq<byte>, b: seq<byte> := pkt[12..20], [0, 6, High(len), Low(len)];
    assert Put16(seg, 16, 0) == seg by {
      assert seg[16] == pkt[ihl + 16] && seg[17] == pkt[ihl + 17];
    }
    assert pkt[12..16] + pkt[16..20] == a;
    SumConcat(a, b);
    SumConcat(a + b, seg);
    Sum4(b);
  }

  /** A rewritten packet carries a valid TCP checksum, whatever it carried before. */
  lemma ClampedVerifies(pkt: seq<byte>)
    requires OptionsInside(pkt) && TooLarge(pkt)
    requires Ihl(pkt) >= 4
    requires |pkt| - Ihl(pkt) <= 131062
    ensures Verifies(CoveredSum(Clamped(pkt), Ihl(pkt), (|pkt| - Ihl(pkt)) % 0x1_0000))
  {
    var y := Put16(pkt, MssOffset(pkt).value, TUN_MSS);
    assert y[9] == 6;
    RecomputedVerifies(y, Ihl(pkt));
  }

  lemma RecomputedVerifies(y: seq<byte>, ihl: nat)
    requires 4 <= ihl && ihl + 18 <= |y| && |y| - ihl <= 131062
    requires y[9] == 6
    ensures Verifies(CoveredSum(Rechecksummed(y, ihl), ihl, (|y| - ihl) % 0x1_0000))
  {
    var z := Put16(y, ihl + 16, 0);
    var p := Pseudo(z[ihl..], z[12..16], z[16..20]);
    NoWrap(p);
    PseudoSum(z, ihl);
    CoveredSumStore(z, ihl, ihl + 16, Value(p), (|z| - ihl) % 0x1_0000);
    ComplementVerifies(Sum(p));
  }

  // ---- The walk against well-formed option lists (section 3.1 of RFC 793) ----

  datatype TcpOption = Nop | Opt(kind: byte, body: seq<byte>)

  predicate WellFormed(o: TcpOption) {
    o.Opt? ==> o.kind >= 2 && |o.body| <= 253
  }

  function Encode(o: TcpOption): (s: seq<byte>)
    requires WellFormed(o)
  {
    match o
    case Nop => [1]
    case Opt(kind, body) => [kind, 2 + |body|] + body
  }

  function EncodeAll(os: seq<TcpOption>): (s: seq<byte>)
    requires forall o :: o in os ==> WellFormed(o)
  {
    if os == [] then [] else Encode(os[0]) + EncodeAll(os[1..])
  }

  /** Byte offset of the first MSS option of a list. */
  function FirstMss(os: seq<TcpOption>): (at: Option<nat>)
    requires forall o :: o in os ==> WellFormed(o)
  {
    if os == [] then None
    else if IsMss(os[0]) then Some(0)
    else
      Shifted(|Encode(os[0])|, FirstMss(os[1..]))
  }

  predicate IsMss(o: TcpOption) {
    o.Opt? && o.kind == 2 && |o.body| == 2
  }

  /** One step of the walk over an encoded option. */
  lemma WalkStep(o: TcpOption, t: seq<byte>)
    requires WellFormed(o)
    ensures FindMss(Encode(o) + t) == if IsMss(o) then Some(0) else Shifted(|Encode(o)|, FindMss(t))
  {
    var e := Encode(o);
    assert (e + t)[|e|..] == t;
    assert (e + t)[0] == e[0];
    assert o.Opt? ==> (e + t)[1] == e[1];
  }

  /** On every encoded list, ended by its length or by an end-of-options byte, the walk finds the first MSS option. */
  lemma {:induction false} WalkFindsFirst(os: seq<TcpOption>, rest: seq<byte>)
    requires forall o :: o in os ==> WellFormed(o)
    requires rest == [] || rest[0] == 0
    ensures FindMss(EncodeAll(os) + rest) == FirstMss(os)
  {
    if os == [] {
      assert EncodeAll(os) + rest == rest;
    } else {
      var t := EncodeAll(os[1..]) + rest;
      assert EncodeAll(os) + rest == Encode(os[0]) + t;
      WalkStep(os[0], t);
      WalkFindsFirst(os[1..], rest);
    }
  }

  // ---- Back to the buffer ----

  lemma SameTooLarge(buf: seq<byte>, n: nat)
    requires n <= |buf| && OptionsInside(buf[..n])
    ensures !Panics(buf, n) && TooLargeAt(buf, n) == if TooLarge(buf[..n]) then MssOffset(buf[..n]) else None
  {
    var pkt := buf[..n];
    if SynWithOptions(pkt) {
      var opts := OptionBytes(pkt);
      assert opts == buf[Ihl(pkt) + 20..HeaderEnd(pkt)];
      FoundIn(buf, n, Ihl(pkt), HeaderEnd(pkt), FindMss(opts));
      SameWord(buf, n, MssOffset(pkt));
    }
  }

  lemma SameWord(buf: seq<byte>, n: nat, word: Option<nat>)
    requires n <= |buf| && (word.Some? ==> word.value + 2 <= n)
    ensures word.Some? ==> Get16(buf[..n], word.value) == Get16(buf, word.value)
  {
  }

  lemma ClampedAtInside(buf: seq<byte>, n: nat, ihl: nat, at: nat)
    requires 20 <= n <= |buf| && ihl + 18 <= n && at + 2 <= n
    ensures ClampedAt(buf, n, ihl, at) == Rechecksummed(Put16(buf[..n], at, TUN_MSS), ihl) + buf[n..]
  {
    var b := Put16(buf, at, TUN_MSS);
    assert b[..n] == Put16(buf[..n], at, TUN_MSS) && b[n..] == buf[n..];
  }

  /** When the options lie inside the packet, the rest of the buffer plays no part. */
  lemma InsideThePacket(buf: seq<byte>, n: nat)
    requires n <= |buf| && OptionsInside(buf[..n])
    ensures !Panics(buf, n) && ClampedIn(buf, n) == Clamped(buf[..n]) + buf[n..]
  {
    SameTooLarge(buf, n);
    if TooLarge(buf[..n]) {
      ClampedAtInside(buf, n, Ihl(buf[..n]), MssOffset(buf[..n]).value);
    } else {
      assert buf == buf[..n] + buf[n..];
    }
  }

  /** Wherever the options lie, a rewritten packet carries a valid TCP checksum. */
  lemma ClampedInVerifies(buf: seq<byte>, n: nat)
    requires n <= |buf| && !Panics(buf, n) && TooLargeAt(buf, n).Some?
    requires Ihl(buf[..n]) >= 4 && n - Ihl(buf[..n]) <= 131062
    ensures var ihl := Ihl(buf[..n]); Verifies(CoveredSum(ClampedIn(buf, n)[..n], ihl, (n - ihl) % 0x1_0000))
  {
    var ihl, b := Ihl(buf[..n]), Put16(buf, TooLargeAt(buf, n).value, TUN_MSS);
    assert b[9] == buf[..n][9];
    RecomputedVerifies(b[..n], ihl);
    assert ClampedIn(buf, n)[..n] == Rechecksummed(b[..n], ihl);
  }
}
