/** The RUTP frame: magic, type, sequence number, length, data, byte-sum checksum, magic. */
module RutpFrame {
  import opened Options
  import opened Bytes

  const MAGIC_HEAD: u16 := 0x534D
  const MAGIC_TAIL: u16 := 0x4D53
  const DATA: byte := 1
  const ACK: byte := 2
  const OVERHEAD: nat := 13

  datatype Packet = Packet(typ: byte, seqNo: u32, payload: seq<byte>)

  function ByteTotal(s: seq<byte>): (n: nat) {
    if s == [] then 0 else ByteTotal(s[..|s| - 1]) + s[|s| - 1]
  }

  /** The part of a frame that its checksum covers. */
  function Body(p: Packet): (s: seq<byte>)
    ensures |s| == 7 + |p.payload|
  {
    [p.typ] + Be32(p.seqNo) + Be16(|p.payload| % 0x1_0000) + p.payload
  }

  function CheckWord(body: seq<byte>): (c: u16) {
    ByteTotal(body) % 0x1_0000
  }

  function Frame(p: Packet): (s: seq<byte>)
    ensures |s| == OVERHEAD + |p.payload|
  {
    Be16(MAGIC_HEAD) + Body(p) + (Be16(CheckWord(Body(p))) + Be16(MAGIC_TAIL))
  }

  function Parse(f: seq<byte>): (r: Option<Packet>) {
    if |f| < OVERHEAD || Get16(f, 0) != MAGIC_HEAD then None
    else
      var n := Get16(f, 7);
      if |f| < OVERHEAD + n || Get16(f, 11 + n) != MAGIC_TAIL || Get16(f, 9 + n) != CheckWord(f[2..9 + n]) then None
      else Some(Packet(f[2], Get32(f, 3), f[9..9 + n]))
  }

  // ---- The code ----

  /** The bytes from `lo` up to `hi` added in a uint32, of which the low 16 bits are the checksum. */
  method SumBytes(f: seq<byte>, lo: nat, hi: nat) returns (c: u16)
    requires lo <= hi <= |f|
    ensures c == CheckWord(f[lo..hi])
  {
    var ck: u32 := 0;
    for i := lo to hi
      invariant ck == Wrap32(ByteTotal(f[lo..i]))
    {
      assert f[lo..i + 1] == f[lo..i] + [f[i]];
      Wrap32Add(ByteTotal(f[lo..i]), f[i]);
      ck := Wrap32(ck + f[i]);
    }
    LowWordOfWrap(ByteTotal(f[lo..hi]));
    c := ck % 0x1_0000;
  }

  lemma LowWordOfWrap(n: nat)
    ensures Wrap32(n) % 0x1_0000 == n % 0x1_0000
  {
    var k := n / 0x1_0000_0000;
    assert n == Wrap32(n) + 0x1_0000 * (0x1_0000 * k);
  }

  /** Everything but checksum and trailing magic, in a buffer of the frame's size. */
  method FillBody(frame: array<byte>, p: Packet)
    requires frame.Length == OVERHEAD + |p.payload|
    modifies frame
    ensures frame[..2] == Be16(MAGIC_HEAD) && frame[2..9 + |p.payload|] == Body(p)
  {
    StoreWord(frame, 0, MAGIC_HEAD);
    frame[2] := p.typ;
    StoreWord(frame, 3, Top(p.seqNo));
    StoreWord(frame, 5, Bottom(p.seqNo));
    StoreWord(frame, 7, |p.payload| % 0x1_0000);
    ghost var h := frame[..];
    StoreBytes(frame, 9, p.payload);
    BodyFilled(h, p, frame[..]);
  }

  lemma BodyFilled(h: seq<byte>, p: Packet, f: seq<byte>)
    requires |h| == OVERHEAD + |p.payload| && f == Splice(h, 9, p.payload)
    requires h[0] == High(MAGIC_HEAD) && h[1] == Low(MAGIC_HEAD) && h[2] == p.typ
    requires h[3] == High(Top(p.seqNo)) && h[4] == Low(Top(p.seqNo))
    requires h[5] == High(Bottom(p.seqNo)) && h[6] == Low(Bottom(p.seqNo))
    requires var n := |p.payload| % 0x1_0000; h[7] == High(n) && h[8] == Low(n)
    ensures f[..2] == Be16(MAGIC_HEAD) && f[2..9 + |p.payload|] == Body(p)
  {
    var n := |p.payload|;
    assert f[..9] == h[..9] && f[9..9 + n] == p.payload;
    assert f[..2] == h[..2] == Be16(MAGIC_HEAD);
    assert f[2..9] == h[2..9] == [p.typ] + Be32(p.seqNo) + Be16(n % 0x1_0000);
    assert f[2..9 + n] == f[2..9] + f[9..9 + n];
  }

  method BuildFrame(typ: byte, seqNo: u32, data: seq<byte>) returns (r: seq<byte>)
    ensures r == Frame(Packet(typ, seqNo, data))
  {
    var n := |data|;
    var frame := new byte[OVERHEAD + n](_ => 0);
    FillBody(frame, Packet(typ, seqNo, data));
    ghost var f := frame[..];
    assert f[..2] == Be16(MAGIC_HEAD) && f[2..9 + n] == Body(Packet(typ, seqNo, data));
    var ck := SumBytes(frame[..], 2, 9 + n);
    StoreWord(frame, 9 + n, ck);
    StoreWord(frame, 11 + n, MAGIC_TAIL);
    r := frame[..];
    Sealed(f, n, ck);
  }

  /** Checksum and trailing magic take the last four bytes. */
  lemma Sealed(f: seq<byte>, n: nat, ck: u16)
    requires |f| == OVERHEAD + n
    ensures Put16(Put16(f, 9 + n, ck), 11 + n, MAGIC_TAIL) == f[..2] + f[2..9 + n] + (Be16(ck) + Be16(MAGIC_TAIL))
  {
    var g := Put16(f, 9 + n, ck);
    var r := Put16(g, 11 + n, MAGIC_TAIL);
    assert r[..9 + n] == f[..2] + f[2..9 + n];
    assert r[9 + n..] == Be16(ck) + Be16(MAGIC_TAIL);
  }

  method ParseFrame(f: seq<byte>) returns (r: Option<Packet>)
    ensures r == Parse(f)
  {
    if |f| < OVERHEAD {
      return None;
    }
    if Get16(f, 0) != MAGIC_HEAD {
      return None;
    }
    var typ, seqNo := f[2], Get32(f, 3);
    var n: nat := Get16(f, 7);
    if |f| < OVERHEAD + n {
      return None;
    }
    var tail := 9 + n;
    if Get16(f, tail + 2) != MAGIC_TAIL {
      return None;
    }
    var ck := SumBytes(f, 2, tail);
    if Get16(f, tail) != ck {
      return None;
    }
    return Some(Packet(typ, seqNo, f[9..9 + n]));
  }

  // ---- The codec is exact ----

  /** The fields of a frame. */
  ghost predicate HasFields(f: seq<byte>, p: Packet) {
    var n := |p.payload|;
    && |f| == 13 + n && n <= 0xFFFF
    && Get16(f, 0) == 0x534D && f[2] == p.typ && Get32(f, 3) == p.seqNo && Get16(f, 7) == n
    && f[9..9 + n] == p.payload
    && Get16(f, 9 + n) == ByteTotal(f[2..9 + n]) % 0x1_0000 && Get16(f, 11 + n) == 0x4D53
  }

  lemma BodyFields(p: Packet)
    requires |p.payload| <= 0xFFFF
    ensures var b := Body(p); b[0] == p.typ && Get32(b, 1) == p.seqNo && Get16(b, 5) == |p.payload| && b[7..] == p.payload
  {
    var b, s, n := Body(p), Be32(p.seqNo), Be16(|p.payload|);
    assert b[1..5] == s[0..4] && b[5..7] == n[0..2];
    SameFields(b, 1, s, 0, 4);
    SameFields(b, 5, n, 0, 2);
  }

  lemma FrameHasFields(p: Packet)
    requires |p.payload| <= 0xFFFF
    ensures HasFields(Frame(p), p)
  {
    var f, b, n := Frame(p), Body(p), |p.payload|;
    BodyFields(p);
    assert f[2..9 + n] == b;
    assert f[9..9 + n] == b[7..];
    assert forall j :: 0 <= j < |b| ==> f[2 + j] == b[j];
    assert Get32(f, 3) == Get32(b, 1) && Get16(f, 7) == Get16(b, 5);
    assert f[9 + n..11 + n] == Be16(CheckWord(b)) && f[11 + n..] == Be16(MAGIC_TAIL);
  }

  /** The fields determine every byte of a frame. */
  lemma FieldsDetermineFrame(f: seq<byte>, g: seq<byte>, p: Packet)
    requires HasFields(f, p) && HasFields(g, p)
    ensures f == g
  {
    var n := |p.payload|;
    assert f[2..9 + n] == g[2..9 + n] by {
      FieldsDetermineBody(f, g, p);
    }
    Get16Bytes(f, g, 0);
    Get16Bytes(f, g, 9 + n);
    Get16Bytes(f, g, 11 + n);
    SliceBytes(f, g, 2, 9 + n);
  }

  lemma SliceBytes(f: seq<byte>, g: seq<byte>, lo: nat, hi: nat)
    requires lo <= hi <= |f| == |g| && f[lo..hi] == g[lo..hi]
    ensures forall j :: lo <= j < hi ==> f[j] == g[j]
  {
    forall j | lo <= j < hi
      ensures f[j] == g[j]
    {
      assert f[j] == f[lo..hi][j - lo] && g[j] == g[lo..hi][j - lo];
    }
  }

  lemma FieldsDetermineBody(f: seq<byte>, g: seq<byte>, p: Packet)
    requires HasFields(f, p) && HasFields(g, p)
    ensures f[2..9 + |p.payload|] == g[2..9 + |p.payload|]
  {
    Get32Bytes(f, g, 3);
    Get16Bytes(f, g, 7);
    SliceBytes(f, g, 9, 9 + |p.payload|);
  }

  lemma ParseIsFields(f: seq<byte>, p: Packet)
    ensures Parse(f) == Some(p) <==>
            |f| >= OVERHEAD + |p.payload| && HasFields(f[..OVERHEAD + |p.payload|], p)
  {
    if |f| >= OVERHEAD + |p.payload| {
      var n := |p.payload|;
      var g := f[..OVERHEAD + n];
      assert g[2..9 + n] == f[2..9 + n] && g[9..9 + n] == f[9..9 + n];
    }
  }

  /** Parsing accepts exactly the inputs that begin with a built frame, and returns what was built. */
  lemma ParseIffBuilt(f: seq<byte>, p: Packet)
    ensures Parse(f) == Some(p) <==> |p.payload| <= 0xFFFF && Frame(p) <= f
  {
    ParseIsFields(f, p);
    PrefixIff(Frame(p), f);
    if |p.payload| <= 0xFFFF && OVERHEAD + |p.payload| <= |f| {
      FrameHasFields(p);
      var g := f[..OVERHEAD + |p.payload|];
      if HasFields(g, p) {
        FieldsDetermineFrame(g, Frame(p), p);
      }
    }
  }
}
