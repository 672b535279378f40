/**
 STUN (RFC 5389): the client's walk over the attributes of a Binding response, and the server's
 response that it has to read.
 */
module Stun {
  import opened Options
  import opened Bytes

  const MAGIC_COOKIE: u32 := 0x2112A442
  const COOKIE_TOP: u16 := 0x2112
  const BINDING_SUCCESS: u16 := 0x0101
  const ATTR_XOR_MAPPED: u16 := 0x0020
  const ATTR_MAPPED: u16 := 0x0001
  const ATTR_SOFTWARE: u16 := 0x8022
  const HEADER_SIZE: nat := 20
  /** "stun-max" in ASCII. */
  const SOFTWARE: seq<byte> := [0x73, 0x74, 0x75, 0x6E, 0x2D, 0x6D, 0x61, 0x78]

  // ---- Exclusive or ----

  /** The exclusive or of the low `n` bits. */
  function Xor(n: nat, a: nat, b: nat): (r: nat)
    ensures r < Power(n)
  {
    if n == 0 then 0 else 2 * Xor(n - 1, a / 2, b / 2) + if a % 2 == b % 2 then 0 else 1
  }

  lemma {:induction false} XorTwice(n: nat, a: nat, b: nat)
    requires a < Power(n)
    ensures Xor(n, Xor(n, a, b), b) == a
  {
    if n > 0 {
      XorTwice(n - 1, a / 2, b / 2);
    }
  }

  lemma PowerValues()
    ensures Power(16) == 0x1_0000 && Power(32) == 0x1_0000_0000
  {
    assert Power(4) == 16;
    assert Power(8) == 0x100;
    assert Power(12) == 0x1000;
    assert Power(20) == 0x10_0000;
    assert Power(24) == 0x100_0000;
    assert Power(28) == 0x1000_0000;
  }

  function Xor16(a: u16, b: u16): (r: u16) {
    PowerValues();
    Xor(16, a, b)
  }

  function Xor32(a: u32, b: u32): (r: u32) {
    PowerValues();
    Xor(32, a, b)
  }

  lemma Xor16Twice(a: u16, b: u16)
    ensures Xor16(Xor16(a, b), b) == a
  {
    PowerValues();
    XorTwice(16, a, b);
  }

  lemma Xor32Twice(a: u32, b: u32)
    ensures Xor32(Xor32(a, b), b) == a
  {
    PowerValues();
    XorTwice(32, a, b);
  }

  // ---- The client ----

  datatype Mapped = Address(ip: IPv4, port: u16) | TooShort | BadFamily(family: byte) | NotFound

  /** decodeXorAddress with xor set. */
  function Decode(v: seq<byte>): (m: Mapped) {
    if |v| < 8 then TooShort
    else if v[1] != 1 then BadFamily(v[1])
    else Address(Be32(Xor32(Get32(v, 4), MAGIC_COOKIE)), Xor16(Get16(v, 2), COOKIE_TOP))
  }

  /** Bytes up to the next multiple of four. */
  function Padding(n: nat): (k: nat)
    ensures k < 4
  {
    if n % 4 == 0 then 0 else 4 - n % 4
  }

  /** The value of the XOR-MAPPED-ADDRESS that the walk over `attrs` stops at. */
  function FindValue(attrs: seq<byte>): (v: Option<seq<byte>>) {
    if |attrs| < 4 then None
    else
      var n: nat := Get16(attrs, 2);
      if 4 + n > |attrs| then None
      else if Get16(attrs, 0) == ATTR_XOR_MAPPED then Some(attrs[4..4 + n])
      else if 4 + n + Padding(n) > |attrs| then None
      else FindValue(attrs[4 + n + Padding(n)..])
  }

  function DecodeFound(v: Option<seq<byte>>): (m: Mapped) {
    if v.Some? then Decode(v.value) else NotFound
  }

  function Walk(attrs: seq<byte>): (m: Mapped) {
    DecodeFound(FindValue(attrs))
  }

  /** The walk from offset `at` of `attrs` on; an offset past the end ends it. */
  function FindFrom(attrs: seq<byte>, at: nat): (v: Option<seq<byte>>) {
    if at <= |attrs| then FindValue(attrs[at..]) else None
  }

  lemma FindEnds(attrs: seq<byte>, at: nat)
    requires at + 4 <= |attrs| ==> at + 4 + Get16(attrs, at + 2) > |attrs|
    ensures FindFrom(attrs, at) == None
  {
    if at + 4 <= |attrs| {
      SameFields(attrs[at..], 2, attrs, at + 2, 2);
    }
  }

  lemma FindHits(attrs: seq<byte>, at: nat, n: u16)
    requires at + 4 <= |attrs| && n == Get16(attrs, at + 2) && at + 4 + n <= |attrs|
    requires Get16(attrs, at) == ATTR_XOR_MAPPED
    ensures FindFrom(attrs, at) == Some(attrs[at + 4..at + 4 + n])
  {
    var rest := attrs[at..];
    SameFields(rest, 0, attrs, at, 2);
    SameFields(rest, 2, attrs, at + 2, 2);
    assert rest[4..4 + n] == attrs[at + 4..at + 4 + n];
  }

  lemma FindSkips(attrs: seq<byte>, at: nat, n: u16)
    requires at + 4 <= |attrs| && n == Get16(attrs, at + 2) && at + 4 + n <= |attrs|
    requires Get16(attrs, at) != ATTR_XOR_MAPPED
    ensures FindFrom(attrs, at) == FindFrom(attrs, at + 4 + n + Padding(n))
  {
    var rest, k := attrs[at..], 4 + n + Padding(n);
    SameFields(rest, 0, attrs, at, 2);
    SameFields(rest, 2, attrs, at + 2, 2);
    assert k <= |rest| ==> rest[k..] == attrs[at + k..];
  }

  /** The loop over an offset. */
  method WalkAttributes(attrs: seq<byte>) returns (v: Option<seq<byte>>)
    ensures v == FindValue(attrs)
  {
    ghost var want := FindValue(attrs);
    assert attrs[0..] == attrs;
    var offset := 0;
    while offset + 4 <= |attrs|
      invariant 0 <= offset
      invariant want == FindFrom(attrs, offset)
      decreases |attrs| - offset
    {
      var typ := Get16(attrs, offset);
      var n := Get16(attrs, offset + 2);
      ghost var at := offset;
      offset := offset + 4;
      if offset + n > |attrs| {
        FindEnds(attrs, at);
        return None;
      }
      if typ == ATTR_XOR_MAPPED {
        FindHits(attrs, at, n);
        return Some(attrs[offset..offset + n]);
      }
      FindSkips(attrs, at, n);
      offset := offset + n;
      if n % 4 != 0 {
        offset := offset + (4 - n % 4);
      }
    }
    FindEnds(attrs, offset);
    return None;
  }

  method ParseXorMappedAddress(attrs: seq<byte>) returns (m: Mapped)
    ensures m == Walk(attrs)
  {
    var v := WalkAttributes(attrs);
    m := DecodeFound(v);
  }

  // ---- The walk against attribute lists (section 15 of RFC 5389) ----

  datatype Attr = Attr(typ: u16, value: seq<byte>, pad: seq<byte>)

  predicate WellFormed(a: Attr) {
    |a.value| <= 0xFFFF && |a.pad| == Padding(|a.value|)
  }

  function Encode(a: Attr): (s: seq<byte>)
    requires WellFormed(a)
    ensures |s| == 4 + |a.value| + Padding(|a.value|)
  {
    Be16(a.typ) + Be16(|a.value|) + (a.value + a.pad)
  }

  function EncodeAll(attrs: seq<Attr>): (s: seq<byte>)
    requires forall a :: a in attrs ==> WellFormed(a)
  {
    if attrs == [] then [] else Encode(attrs[0]) + EncodeAll(attrs[1..])
  }

  function FirstMapped(attrs: seq<Attr>): (m: Mapped) {
    if attrs == [] then NotFound
    else if attrs[0].typ == ATTR_XOR_MAPPED then Decode(attrs[0].value)
    else FirstMapped(attrs[1..])
  }

  lemma WalkStep(a: Attr, rest: seq<byte>)
    requires WellFormed(a)
    ensures Walk(Encode(a) + rest) == if a.typ == ATTR_XOR_MAPPED then Decode(a.value) else Walk(rest)
  {
    var e, n := Encode(a), |a.value|;
    var s := e + rest;
    assert s[0] == Be16(a.typ)[0] && s[1] == Be16(a.typ)[1];
    assert s[2] == Be16(n)[0] && s[3] == Be16(n)[1];
    assert Get16(s, 0) == Get16(Be16(a.typ), 0) && Get16(s, 2) == Get16(Be16(n), 0);
    assert s[4..4 + n] == a.value;
    assert s[4 + n + Padding(n)..] == rest;
  }

  /** On every list of padded attributes the walk decodes the first XOR-MAPPED-ADDRESS. */
  lemma {:induction false} WalkFindsFirst(attrs: seq<Attr>)
    requires forall a :: a in attrs ==> WellFormed(a)
    ensures Walk(EncodeAll(attrs)) == FirstMapped(attrs)
  {
    if attrs != [] {
      WalkStep(attrs[0], EncodeAll(attrs[1..]));
      WalkFindsFirst(attrs[1..]);
    }
  }

  // ---- The server ----

  /** Value of an address attribute: zero, family 1, port, address (sections 15.1 and 15.2). */
  function AddressValue(port: u16, ip: u32): (v: seq<byte>)
    ensures |v| == 8
  {
    [0, 1] + Be16(port) + Be32(ip)
  }

  function ServerAttrs(ip: IPv4, port: u16): (attrs: seq<Attr>) {
    [Attr(ATTR_XOR_MAPPED, AddressValue(Xor16(port, COOKIE_TOP), Xor32(Get32(ip, 0), MAGIC_COOKIE)), []),
     Attr(ATTR_MAPPED, AddressValue(port, Get32(ip, 0)), []),
     Attr(ATTR_SOFTWARE, SOFTWARE, [])]
  }

  function Response(txID: seq<byte>, ip: IPv4, port: u16): (r: seq<byte>) {
    Header(txID, 36) + EncodeAll(ServerAttrs(ip, port))
  }

  /** One 12-byte address attribute. */
  method FillAddress(typ: u16, port: u16, ip: u32) returns (r: seq<byte>)
    ensures r == Encode(Attr(typ, AddressValue(port, ip), []))
  {
    var a := new byte[12](_ => 0);
    StoreWord(a, 0, typ);
    StoreWord(a, 2, 8);
    a[4], a[5] := 0, 1;
    StoreWord(a, 6, port);
    StoreWord(a, 8, Top(ip));
    StoreWord(a, 10, Bottom(ip));
    r := a[..];
    assert r == Be16(typ) + Be16(8) + (([0, 1] + Be16(port) + (Be16(Top(ip)) + Be16(Bottom(ip)))) + []);
  }

  method FillSoftware() returns (r: seq<byte>)
    ensures r == Encode(Attr(ATTR_SOFTWARE, SOFTWARE, []))
  {
    var a := new byte[12](_ => 0);
    StoreWord(a, 0, ATTR_SOFTWARE);
    StoreWord(a, 2, 8);
    StoreBytes(a, 4, SOFTWARE);
    r := a[..];
    assert r == Be16(ATTR_SOFTWARE) + Be16(8) + (SOFTWARE + []);
  }

  function Header(txID: seq<byte>, attrsLen: u16): (h: seq<byte>) {
    Be16(BINDING_SUCCESS) + Be16(attrsLen) + Be32(MAGIC_COOKIE) + txID
  }

  method FillHeader(resp: array<byte>, txID: seq<byte>, attrsLen: u16)
    requires |txID| == 12 && resp.Length >= HEADER_SIZE
    modifies resp
    ensures resp[..HEADER_SIZE] == Header(txID, attrsLen)
  {
    StoreWord(resp, 0, BINDING_SUCCESS);
    StoreWord(resp, 2, attrsLen);
    StoreWord(resp, 4, Top(MAGIC_COOKIE));
    StoreWord(resp, 6, Bottom(MAGIC_COOKIE));
    ghost var p := resp[..];
    StoreBytes(resp, 8, txID);
    ghost var q := resp[..];
    assert q[..8] == p[..8] && q[8..20] == txID;
    assert p[..8] == Be16(BINDING_SUCCESS) + Be16(attrsLen) + Be32(MAGIC_COOKIE);
    assert resp[..HEADER_SIZE] == q[..8] + q[8..20];
  }

  /** `copy(resp[offset:], part)` behind what is already filled. */
  method Append(resp: array<byte>, offset: nat, part: seq<byte>)
    requires offset + |part| <= resp.Length
    modifies resp
    ensures resp[..offset + |part|] == old(resp[..offset]) + part
  {
    StoreBytes(resp, offset, part);
  }

  method BuildBindingResponse(txID: seq<byte>, ip: IPv4, port: u16) returns (r: seq<byte>)
    requires |txID| == 12
    ensures r == Response(txID, ip, port)
  {
    var xorMapped := FillAddress(ATTR_XOR_MAPPED, Xor16(port, COOKIE_TOP), Xor32(Get32(ip, 0), MAGIC_COOKIE));
    var mapped := FillAddress(ATTR_MAPPED, port, Get32(ip, 0));
    var software := FillSoftware();
    Assembled(txID, ip, port, xorMapped, mapped, software);
    r := Assemble(txID, xorMapped, mapped, software);
  }

  method Assemble(txID: seq<byte>, xorMapped: seq<byte>, mapped: seq<byte>, software: seq<byte>) returns (r: seq<byte>)
    requires |txID| == 12 && |xorMapped| == |mapped| == |software| == 12
    ensures r == Header(txID, 36) + (xorMapped + (mapped + software))
  {
    var attrsLen := |xorMapped| + |mapped| + |software|;
    var resp := new byte[HEADER_SIZE + attrsLen](_ => 0);
    FillHeader(resp, txID, attrsLen);
    var offset := HEADER_SIZE;
    Append(resp, offset, xorMapped);
    offset := offset + |xorMapped|;
    Append(resp, offset, mapped);
    offset := offset + |mapped|;
    Append(resp, offset, software);
    r := resp[..];
    assert resp[..56] == resp[..];
  }

  lemma Assembled(txID: seq<byte>, ip: IPv4, port: u16, x: seq<byte>, m: seq<byte>, s: seq<byte>)
    requires var attrs := ServerAttrs(ip, port); x == Encode(attrs[0]) && m == Encode(attrs[1]) && s == Encode(attrs[2])
    ensures EncodeAll(ServerAttrs(ip, port)) == x + (m + s)
  {
    var attrs := ServerAttrs(ip, port);
    assert attrs[1..] == [attrs[1], attrs[2]] && attrs[1..][1..] == [attrs[2]] && [attrs[2]][1..] == [];
    assert EncodeAll([attrs[2]]) == s + [];
    assert EncodeAll(attrs[1..]) == m + (s + []);
  }

  // ---- Client and server agree ----

  lemma DecodeEncoded(ip: IPv4, port: u16)
    ensures Decode(AddressValue(Xor16(port, COOKIE_TOP), Xor32(Get32(ip, 0), MAGIC_COOKIE))) == Address(ip, port)
  {
    var x, w := Xor16(port, COOKIE_TOP), Xor32(Get32(ip, 0), MAGIC_COOKIE);
    var v := AddressValue(x, w);
    assert v[2] == Be16(x)[0] && v[3] == Be16(x)[1] && Get16(v, 2) == Get16(Be16(x), 0);
    assert v[4..] == Be32(w);
    assert v[4] == Be32(w)[0] && v[5] == Be32(w)[1] && v[6] == Be32(w)[2] && v[7] == Be32(w)[3];
    assert Get32(v, 4) == Get32(Be32(w), 0);
    Xor16Twice(port, COOKIE_TOP);
    Xor32Twice(Get32(ip, 0), MAGIC_COOKIE);
    Get32Bytes(Be32(Get32(ip, 0)), ip, 0);
  }

  /** For every address, port and transaction id, the client reads back from the server's response what it was sent. */
  lemma ClientReadsServer(txID: seq<byte>, ip: IPv4, port: u16)
    requires |txID| == 12
    ensures var r := Response(txID, ip, port);
            && |r| == HEADER_SIZE + Get16(r, 2) && Get16(r, 0) == BINDING_SUCCESS && r[8..20] == txID
            && Walk(r[HEADER_SIZE..]) == Address(ip, port)
  {
    var attrs, r := ServerAttrs(ip, port), Response(txID, ip, port);
    Assembled(txID, ip, port, Encode(attrs[0]), Encode(attrs[1]), Encode(attrs[2]));
    assert r[HEADER_SIZE..] == EncodeAll(attrs);
    assert r[0] == Be16(BINDING_SUCCESS)[0] && r[1] == Be16(BINDING_SUCCESS)[1];
    assert r[2] == Be16(36)[0] && r[3] == Be16(36)[1];
    assert Get16(r, 0) == Get16(Be16(BINDING_SUCCESS), 0) && Get16(r, 2) == Get16(Be16(36), 0);
    WalkFindsFirst(attrs);
    DecodeEncoded(ip, port);
  }
}
