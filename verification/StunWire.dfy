/** The bytes of STUN (RFC 5389) on the wire: exclusive or bit by bit, the address value, the server's response. */
module StunWire {
  import opened Options
  import opened Bytes
  import opened Stun

  // ---- Exclusive or ----

  function Bit(a: nat, i: nat): (b: nat) {
    a / Power(i) % 2
  }

  lemma HigherBit(a: nat, i: nat)
    requires i > 0
    ensures Bit(a, i) == Bit(a / 2, i - 1)
  {
    QuotientOfHalf(a, Power(i - 1));
  }

  /** A bit of the result is set exactly where the operands differ. */
  lemma {:induction false} XorBits(n: nat, a: nat, b: nat, i: nat)
    requires i < n
    ensures Bit(Xor(n, a, b), i) == if Bit(a, i) == Bit(b, i) then 0 else 1
  {
    var x := Xor(n, a, b);
    if i > 0 {
      XorBits(n - 1, a / 2, b / 2, i - 1);
      HigherBit(a, i);
      HigherBit(b, i);
      HigherBit(x, i);
      assert x / 2 == Xor(n - 1, a / 2, b / 2);
    }
  }

  // ---- The address (section 15.2) ----

  /** Eight bytes of family 1 hold the port masked by 0x2112 and the address masked by the magic cookie. */
  lemma DecodeWire(v: seq<byte>)
    ensures |v| < 8 ==> Decode(v) == TooShort
    ensures |v| >= 8 && v[1] != 1 ==> Decode(v) == BadFamily(v[1])
    ensures |v| >= 8 && v[1] == 1 ==>
              Decode(v) == Address(Be32(Xor32(Get32(v, 4), 0x2112_A442)), Xor16(Get16(v, 2), 0x2112))
  {
  }

  // ---- The walk (section 15) ----

  /** The first attribute of type 0x0020 decides; without one nothing is found. */
  lemma {:induction false} WalkDecodes(attrs: seq<Attr>, k: nat)
    requires forall a :: a in attrs ==> WellFormed(a)
    requires k <= |attrs| && forall j :: 0 <= j < k ==> attrs[j].typ != 0x0020
    requires k < |attrs| ==> attrs[k].typ == 0x0020
    ensures Walk(EncodeAll(attrs)) == if k < |attrs| then Decode(attrs[k].value) else NotFound
  {
    WalkFindsFirst(attrs);
    FirstIs(attrs, k);
  }

  lemma {:induction false} FirstIs(attrs: seq<Attr>, k: nat)
    requires k <= |attrs| && forall j :: 0 <= j < k ==> attrs[j].typ != 0x0020
    requires k < |attrs| ==> attrs[k].typ == 0x0020
    ensures FirstMapped(attrs) == if k < |attrs| then Decode(attrs[k].value) else NotFound
  {
    if k > 0 {
      FirstIs(attrs[1..], k - 1);
    }
  }

  // ---- The response (section 6) ----

  /** An address attribute of the response: type, length 8, zero, family 1, port, address. */
  predicate AddressAt(r: seq<byte>, i: nat, typ: u16, port: u16, ip: u32)
    requires i + 12 <= |r|
  {
    Get16(r, i) == typ && Get16(r, i + 2) == 8 && r[i + 4] == 0 && r[i + 5] == 1 && Get16(r, i + 6) == port && Get32(r, i + 8) == ip
  }

  lemma AddressWire(typ: u16, port: u16, ip: u32)
    ensures AddressAt(Encode(Attr(typ, AddressValue(port, ip), [])), 0, typ, port, ip)
  {
    var v := AddressValue(port, ip);
    var e := Encode(Attr(typ, v, []));
    assert e[0..2] == Be16(typ)[0..2] && e[2..4] == Be16(8)[0..2];
    SameFields(e, 0, Be16(typ), 0, 2);
    SameFields(e, 2, Be16(8), 0, 2);
    assert e[6..8] == Be16(port)[0..2] && e[8..12] == Be32(ip)[0..4];
    SameFields(e, 6, Be16(port), 0, 2);
    SameFields(e, 8, Be32(ip), 0, 4);
  }

  lemma AddressMoves(r: seq<byte>, i: nat, e: seq<byte>, typ: u16, port: u16, ip: u32)
    requires i + 12 <= |r| && |e| == 12 && r[i..i + 12] == e && AddressAt(e, 0, typ, port, ip)
    ensures AddressAt(r, i, typ, port, ip)
  {
    assert r[i..i + 2] == e[0..2] && r[i + 2..i + 4] == e[2..4] && r[i + 6..i + 8] == e[6..8] && r[i + 8..i + 12] == e[8..12];
    SameFields(r, i, e, 0, 2);
    SameFields(r, i + 2, e, 2, 2);
    SameFields(r, i + 6, e, 6, 2);
    SameFields(r, i + 8, e, 8, 4);
    assert r[i + 4] == e[4] && r[i + 5] == e[5];
  }

  /** Success response 0x0101, 36 bytes of attributes, magic cookie, transaction id; masked address, plain address, software. */
  lemma ResponseWire(txID: seq<byte>, ip: IPv4, port: u16)
    requires |txID| == 12
    ensures var r := Response(txID, ip, port);
            && |r| == 56 && r[..4] == [1, 1, 0, 36] && r[4..8] == [0x21, 0x12, 0xA4, 0x42] && r[8..20] == txID
            && AddressAt(r, 20, 0x0020, Xor16(port, 0x2112), Xor32(Get32(ip, 0), 0x2112_A442))
            && AddressAt(r, 32, 0x0001, port, Get32(ip, 0))
            && r[44..48] == [0x80, 0x22, 0, 8]
            && r[48..] == [0x73, 0x74, 0x75, 0x6E, 0x2D, 0x6D, 0x61, 0x78]
  {
    var attrs, r := ServerAttrs(ip, port), Response(txID, ip, port);
    var x, m, s := Encode(attrs[0]), Encode(attrs[1]), Encode(attrs[2]);
    Assembled(txID, ip, port, x, m, s);
    HeaderWire(txID);
    SoftwareWire(s);
    Parts(r, Header(txID, 36), x, m, s);
    AddressWire(0x0020, Xor16(port, 0x2112), Xor32(Get32(ip, 0), 0x2112_A442));
    AddressWire(0x0001, port, Get32(ip, 0));
    AddressMoves(r, 20, x, 0x0020, Xor16(port, 0x2112), Xor32(Get32(ip, 0), 0x2112_A442));
    AddressMoves(r, 32, m, 0x0001, port, Get32(ip, 0));
  }

  lemma Parts(r: seq<byte>, h: seq<byte>, x: seq<byte>, m: seq<byte>, s: seq<byte>)
    requires |h| == 20 && |x| == |m| == |s| == 12 && r == h + (x + (m + s))
    ensures |r| == 56 && r[..4] == h[..4] && r[4..8] == h[4..8] && r[8..20] == h[8..20]
    ensures r[20..32] == x && r[32..44] == m && r[44..48] == s[..4] && r[48..] == s[4..]
  {
  }

  lemma HeaderWire(txID: seq<byte>)
    requires |txID| == 12
    ensures var h := Header(txID, 36);
            |h| == 20 && h[..4] == [1, 1, 0, 36] && h[4..8] == [0x21, 0x12, 0xA4, 0x42] && h[8..20] == txID
  {
    assert Be16(0x0101) == [1, 1] && Be16(36) == [0, 36];
    assert Be16(0x2112) == [0x21, 0x12] && Be16(0xA442) == [0xA4, 0x42] && Be32(0x2112_A442) == [0x21, 0x12, 0xA4, 0x42];
  }

  lemma SoftwareWire(s: seq<byte>)
    requires s == Encode(Attr(ATTR_SOFTWARE, SOFTWARE, []))
    ensures |s| == 12 && s[..4] == [0x80, 0x22, 0, 8] && s[4..] == [0x73, 0x74, 0x75, 0x6E, 0x2D, 0x6D, 0x61, 0x78]
  {
    assert Be16(0x8022) == [0x80, 0x22] && Be16(8) == [0, 8];
  }
}
