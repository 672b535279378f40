/** Tunnel data over a direct TCP connection: eight bytes of tunnel id, four of length, then the data. */
module DirectFraming {
  import opened Options
  import opened Bytes

  const MAX_FRAME: nat := 512 * 1024

  // ---- Tunnel ids: a Go string is a sequence of bytes ----

  /** Lower-case hexadecimal digit of a value below 16. */
  function HexDigit(n: nat): (c: byte)
    requires n < 16
  {
    if n < 10 then 0x30 + n else 0x57 + n
  }

  function HexValue(c: byte): (n: Option<nat>)
    ensures n.Some? ==> n.value < 16
  {
    if 0x30 <= c <= 0x39 then Some(c - 0x30)
    else if 0x61 <= c <= 0x66 then Some(c - 0x57)
    else if 0x41 <= c <= 0x46 then Some(c - 0x37)
    else None
  }

  /** hex.EncodeToString, which is tunnelIDFromBytes. */
  function HexEncode(b: seq<byte>): (s: seq<byte>)
    ensures |s| == 2 * |b|
  {
    if b == [] then [] else [HexDigit(Upper(b[0])), HexDigit(Lower(b[0]))] + HexEncode(b[1..])
  }

  /** hex.DecodeString. */
  function HexDecode(s: seq<byte>): (b: Option<seq<byte>>)
    ensures b.Some? ==> |s| == 2 * |b.value|
  {
    if s == [] then Some([])
    else if |s| == 1 then None
    else
      var hi, lo, rest := HexValue(s[0]), HexValue(s[1]), HexDecode(s[2..]);
      if hi.Some? && lo.Some? && rest.Some? then Some([hi.value * 16 + lo.value] + rest.value) else None
  }

  function TunnelIDToBytes(id: seq<byte>): (b: seq<byte>)
    ensures |b| == 8
  {
    var d := HexDecode(id);
    if d.Some? && |d.value| == 8 then d.value
    else if |id| >= 8 then id[..8]
    else id + seq(8 - |id|, _ => 0)
  }

  predicate LowerHex(c: byte) {
    0x30 <= c <= 0x39 || 0x61 <= c <= 0x66
  }

  /** An id as generateTunnelID makes them. */
  predicate IsTunnelID(id: seq<byte>) {
    |id| == 16 && forall c :: c in id ==> LowerHex(c)
  }

  lemma DigitValue(n: nat)
    requires n < 16
    ensures LowerHex(HexDigit(n)) && HexValue(HexDigit(n)) == Some(n)
    ensures HexDigit(n) as char == "0123456789abcdef"[n]
  {
  }

  lemma {:induction false} DecodeEncoded(b: seq<byte>)
    ensures HexDecode(HexEncode(b)) == Some(b)
    ensures forall c :: c in HexEncode(b) ==> LowerHex(c)
  {
    if b != [] {
      DecodeEncoded(b[1..]);
      DigitValue(Upper(b[0]));
      DigitValue(Lower(b[0]));
      assert HexEncode(b)[2..] == HexEncode(b[1..]);
      assert Upper(b[0]) * 16 + Lower(b[0]) == b[0];
      assert b == [b[0]] + b[1..];
    }
  }

  /** A byte is determined by its upper half. */
  lemma Halves(h: nat, l: nat)
    requires h < 16 && l < 16
    ensures Upper(h * 16 + l) == h && Lower(h * 16 + l) == l
  {
  }

  lemma EncodePair(hi: byte, lo: byte, rest: seq<byte>)
    requires LowerHex(hi) && LowerHex(lo)
    ensures HexEncode([HexValue(hi).value * 16 + HexValue(lo).value] + rest) == [hi, lo] + HexEncode(rest)
  {
    var b := HexValue(hi).value * 16 + HexValue(lo).value;
    Halves(HexValue(hi).value, HexValue(lo).value);
    assert ([b] + rest)[1..] == rest;
  }

  lemma {:induction false} EncodeDecoded(s: seq<byte>)
    requires |s| % 2 == 0 && forall c :: c in s ==> LowerHex(c)
    ensures HexDecode(s).Some? && HexEncode(HexDecode(s).value) == s
  {
    if s != [] {
      assert s[0] in s && s[1] in s;
      EncodeDecoded(s[2..]);
      EncodePair(s[0], s[1], HexDecode(s[2..]).value);
      assert s == [s[0], s[1]] + s[2..];
    }
  }

  /** An id survives the wire exactly when it is 16 lower-case hexadecimal digits. */
  lemma TunnelIDRoundTrip(id: seq<byte>)
    ensures HexEncode(TunnelIDToBytes(id)) == id <==> IsTunnelID(id)
  {
    DecodeEncoded(TunnelIDToBytes(id));
    if IsTunnelID(id) {
      EncodeDecoded(id);
    }
  }

  // ---- Frames ----

  datatype Chunk = Chunk(id: seq<byte>, data: seq<byte>)

  function Frame(c: Chunk): (f: seq<byte>)
    requires |c.data| < 0x1_0000_0000
    ensures |f| == 12 + |c.data|
  {
    TunnelIDToBytes(c.id) + Be32(|c.data|) + c.data
  }

  /** The first frame of a stream and its length, if the reader accepts it. */
  function First(s: seq<byte>): (r: Option<(Chunk, nat)>)
    ensures r.Some? ==> 12 < r.value.1 <= |s|
  {
    if |s| < 12 then None
    else
      var n: nat := Get32(s, 8);
      if n == 0 || n > MAX_FRAME || 12 + n > |s| then None
      else Some((Chunk(HexEncode(s[..8]), s[12..12 + n]), 12 + n))
  }

  /** On the wire: each byte of the id from two digits of it, the length with its highest byte first, the data. */
  lemma FrameWire(c: Chunk)
    requires IsTunnelID(c.id) && |c.data| < 0x1_0000_0000
    ensures var f := Frame(c);
            && (forall j :: 0 <= j < 8 ==> HexPair(c.id[2 * j], c.id[2 * j + 1], f[j]))
            && f[8] as int * 0x100_0000 + f[9] as int * 0x1_0000 + f[10] as int * 0x100 + f[11] as int == |c.data|
            && f[12..] == c.data
  {
    EncodeDecoded(c.id);
    assert |HexDecode(c.id).value| == 8;
    forall j | 0 <= j < 8
      ensures HexPair(c.id[2 * j], c.id[2 * j + 1], Frame(c)[j])
    {
      DecodedAt(c.id, j);
    }
  }

  /** The byte that two digits write, the first one worth sixteen times as much. */
  predicate HexPair(hi: byte, lo: byte, b: byte) {
    exists h, l :: 0 <= h < 16 && 0 <= l < 16 && "0123456789abcdef"[h] == hi as char && "0123456789abcdef"[l] == lo as char
                   && b as int == 16 * h + l
  }

  lemma LowerDigit(c: byte)
    requires LowerHex(c)
    ensures HexValue(c).Some? && "0123456789abcdef"[HexValue(c).value] == c as char
  {
    DigitValue(HexValue(c).value);
  }

  lemma {:induction false} DecodedAt(s: seq<byte>, j: nat)
    requires HexDecode(s).Some? && 2 * j + 1 < |s| && forall c :: c in s ==> LowerHex(c)
    ensures HexPair(s[2 * j], s[2 * j + 1], HexDecode(s).value[j])
  {
    if j == 0 {
      LowerDigit(s[0]);
      LowerDigit(s[1]);
    } else {
      assert s[2..][2 * (j - 1)] == s[2 * j] && s[2..][2 * (j - 1) + 1] == s[2 * j + 1];
      DecodedAt(s[2..], j - 1);
    }
  }

  /** What directTCPReadLoop hands on before it returns. */
  function ReadFrames(s: seq<byte>): (cs: seq<Chunk>) {
    match First(s)
    case None => []
    case Some((c, n)) => [c] + ReadFrames(s[n..])
  }

  /** The header and payload copied into one buffer. */
  method BuildFrame(c: Chunk) returns (f: seq<byte>)
    requires |c.data| < 0x1_0000_0000
    ensures f == Frame(c)
  {
    var clen := |c.data|;
    var frame := new byte[12 + clen](_ => 0);
    StoreBytes(frame, 0, TunnelIDToBytes(c.id));
    StoreWord(frame, 8, Top(clen));
    StoreWord(frame, 10, Bottom(clen));
    StoreBytes(frame, 12, c.data);
    f := frame[..];
    assert f[..8] == TunnelIDToBytes(c.id);
    assert f == f[..8] + (Be16(Top(clen)) + Be16(Bottom(clen))) + c.data;
  }

  /** The two io.ReadFull calls of one turn of the loop, at offset `at`. */
  method ReadOne(s: seq<byte>, at: nat) returns (r: Option<(Chunk, nat)>)
    requires at <= |s|
    ensures r == First(s[at..])
  {
    ghost var rest := s[at..];
    if |s| - at < 12 {
      return None;
    }
    var n: nat := Get32(s, at + 8);
    assert Get32(rest, 8) == n;
    if n <= 0 || n > MAX_FRAME {
      return None;
    }
    if |s| - (at + 12) < n {
      return None;
    }
    assert rest[..8] == s[at..at + 8] && rest[12..12 + n] == s[at + 12..at + 12 + n];
    return Some((Chunk(HexEncode(s[at..at + 8]), s[at + 12..at + 12 + n]), 12 + n));
  }

  method ReadLoop(s: seq<byte>) returns (cs: seq<Chunk>)
    ensures cs == ReadFrames(s)
  {
    cs := [];
    var at := 0;
    ghost var want := ReadFrames(s);
    assert s[0..] == s;
    while true
      invariant 0 <= at <= |s|
      invariant Done(s, want, cs, at)
      decreases |s| - at
    {
      var r := ReadOne(s, at);
      OneMore(s, want, cs, at, r);
      if r.None? {
        return;
      }
      cs := cs + [r.value.0];
      at := at + r.value.1;
    }
  }

  /** Of the chunks `want`, those in `cs` have been read when the reader is at offset `at`. */
  ghost predicate Done(s: seq<byte>, want: seq<Chunk>, cs: seq<Chunk>, at: nat)
    requires at <= |s|
  {
    want == cs + ReadFrames(s[at..])
  }

  lemma OneMore(s: seq<byte>, want: seq<Chunk>, cs: seq<Chunk>, at: nat, r: Option<(Chunk, nat)>)
    requires at <= |s| && Done(s, want, cs, at) && r == First(s[at..])
    ensures r.None? ==> cs == want
    ensures r.Some? ==>
              var (c, n) := r.value;
              0 < n && at + n <= |s| && Done(s, want, cs + [c], at + n)
  {
    var t := s[at..];
    ReadStep(t);
    if r.Some? {
      var (c, n) := r.value;
      assert t[n..] == s[at + n..];
      assert ReadFrames(t) == [c] + ReadFrames(s[at + n..]);
      Regroup(cs, c, ReadFrames(s[at + n..]));
    }
  }

  lemma ReadStep(t: seq<byte>)
    ensures First(t).None? ==> ReadFrames(t) == []
    ensures First(t).Some? ==> ReadFrames(t) == [First(t).value.0] + ReadFrames(t[First(t).value.1..])
  {
  }

  lemma Regroup(cs: seq<Chunk>, c: Chunk, rest: seq<Chunk>)
    ensures cs + ([c] + rest) == (cs + [c]) + rest
  {
  }

  // ---- Reading what was written ----

  predicate Sendable(c: Chunk) {
    IsTunnelID(c.id) && |c.data| < 0x1_0000_0000
  }

  predicate Fits(c: Chunk) {
    1 <= |c.data| <= 524_288
  }

  function Stream(cs: seq<Chunk>): (s: seq<byte>)
    requires forall c :: c in cs ==> Sendable(c)
  {
    if cs == [] then [] else assert Sendable(cs[0]); Frame(cs[0]) + Stream(cs[1..])
  }

  /** The chunks before the first one that the reader refuses. */
  function Readable(cs: seq<Chunk>): (r: seq<Chunk>) {
    if cs == [] || !Fits(cs[0]) then [] else [cs[0]] + Readable(cs[1..])
  }

  lemma FrameFields(c: Chunk, rest: seq<byte>)
    requires Sendable(c)
    ensures var s := Frame(c) + rest;
            Get32(s, 8) == |c.data| && s[..8] == TunnelIDToBytes(c.id)
            && s[12..12 + |c.data|] == c.data && s[12 + |c.data|..] == rest
  {
    var s, n := Frame(c) + rest, Be32(|c.data|);
    assert s[8] == n[0] && s[9] == n[1] && s[10] == n[2] && s[11] == n[3];
    assert Get32(s, 8) == Get32(n, 0);
  }

  lemma FirstOfFrame(c: Chunk, rest: seq<byte>)
    requires Sendable(c)
    ensures First(Frame(c) + rest) == if Fits(c) then Some((c, |Frame(c)|)) else None
    ensures (Frame(c) + rest)[|Frame(c)|..] == rest
  {
    FrameFields(c, rest);
    TunnelIDRoundTrip(c.id);
  }

  /** Reading a stream of frames returns exactly the chunks before the first empty or oversized one. */
  lemma {:induction false} ReadsWhatFits(cs: seq<Chunk>)
    requires forall c :: c in cs ==> Sendable(c)
    ensures ReadFrames(Stream(cs)) == Readable(cs)
  {
    if cs != [] {
      assert Sendable(cs[0]);
      FirstOfFrame(cs[0], Stream(cs[1..]));
      ReadsWhatFits(cs[1..]);
    }
  }

  lemma {:induction false} ReadableIsAll(cs: seq<Chunk>)
    ensures Readable(cs) == cs <==> forall c :: c in cs ==> Fits(c)
    ensures |Readable(cs)| <= |cs|
  {
    if cs != [] {
      ReadableIsAll(cs[1..]);
      if Fits(cs[0]) {
        assert cs == [cs[0]] + cs[1..];
        assert Readable(cs)[1..] == Readable(cs[1..]);
      }
    }
  }

  /** The stream reads back as the list that was written if and only if every chunk has 1 to 512*1024 bytes. */
  lemma ReadsAllIff(cs: seq<Chunk>)
    requires forall c :: c in cs ==> Sendable(c)
    ensures ReadFrames(Stream(cs)) == cs <==> forall c :: c in cs ==> Fits(c)
  {
    ReadsWhatFits(cs);
    ReadableIsAll(cs);
  }

  /** Of a frame that is cut short the reader takes nothing. */
  lemma CutFrame(c: Chunk, t: seq<byte>)
    requires Sendable(c) && t < Frame(c)
    ensures ReadFrames(t) == []
  {
    if |t| >= 12 {
      FrameFields(c, []);
      assert Frame(c) + [] == Frame(c);
      assert t[8..12] == Frame(c)[8..12];
      SameFields(t, 8, Frame(c), 8, 4);
    }
    ReadStep(t);
  }

  lemma ReadAfterFrame(c: Chunk, t: seq<byte>)
    requires Sendable(c) && Fits(c)
    ensures ReadFrames(Frame(c) + t) == [c] + ReadFrames(t)
  {
    FirstOfFrame(c, t);
    ReadStep(Frame(c) + t);
  }

  lemma PrefixOfConcat(t: seq<byte>, f: seq<byte>, rest: seq<byte>)
    requires t <= f + rest
    ensures |t| < |f| ==> t < f
    ensures |t| >= |f| ==> t == f + t[|f|..] && t[|f|..] <= rest
  {
    assert t == (f + rest)[..|t|];
  }

  lemma PrefixCons(cs: seq<Chunk>, tail: seq<Chunk>)
    requires cs != [] && tail <= cs[1..]
    ensures [cs[0]] + tail <= cs
  {
  }

  /** A connection that breaks anywhere delivers a prefix of the list, never a damaged chunk. */
  lemma {:induction false} CutStreamIsPrefix(cs: seq<Chunk>, t: seq<byte>)
    requires forall c :: c in cs ==> Sendable(c) && Fits(c)
    requires t <= Stream(cs)
    ensures ReadFrames(t) <= cs
    decreases |cs|
  {
    if cs == [] {
      ReadStep(t);
    } else {
      CutStreamStep(cs, t, Frame(cs[0]), Stream(cs[1..]));
    }
  }

  lemma {:induction false} CutStreamStep(cs: seq<Chunk>, t: seq<byte>, f: seq<byte>, rest: seq<byte>)
    requires cs != [] && Sendable(cs[0]) && forall c :: c in cs ==> Sendable(c) && Fits(c)
    requires f == Frame(cs[0]) && rest == Stream(cs[1..]) && t <= f + rest
    ensures ReadFrames(t) <= cs
    decreases |cs|, 0
  {
    PrefixOfConcat(t, f, rest);
    if |t| < |f| {
      CutFrame(cs[0], t);
    } else {
      var u := t[|f|..];
      ReadAfterFrame(cs[0], u);
      CutStreamIsPrefix(cs[1..], u);
      PrefixCons(cs, ReadFrames(u));
    }
  }
}
