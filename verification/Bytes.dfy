/** Bytes, fixed-width integers and big-endian 16-bit fields, as the packet code reads and writes them. */
module Bytes {

  type byte = x: int | 0 <= x < 0x100
  type u16 = x: int | 0 <= x < 0x1_0000
  type u32 = x: int | 0 <= x < 0x1_0000_0000

  /** An IPv4 address in network byte order. */
  type IPv4 = s: seq<byte> | |s| == 4 witness [0, 0, 0, 0]

  /** Two to the `n`. */
  function Power(n: nat): (p: nat)
    ensures p > 0
  {
    if n == 0 then 1 else 2 * Power(n - 1)
  }

  /** The quotient is determined by its remainder. */
  lemma QuotientIs(a: nat, p: nat, q: nat)
    requires p > 0 && 0 <= a - q * p < p
    ensures a / p == q
  {
    var d := a / p;
    assert a == d * p + a % p && 0 <= a % p < p;
    assert d < q ==> (d + 1) * p <= q * p;
    assert d > q ==> (q + 1) * p <= d * p;
  }

  lemma HalfOfQuotient(a: nat, p: nat)
    requires p > 0
    ensures a / p / 2 == a / (2 * p)
  {
    var q := a / (2 * p);
    var r := a - q * (2 * p);
    assert 0 <= r < 2 * p;
    var c := if r < p then 0 else 1;
    assert a == (2 * q + c) * p + (r - c * p) && 0 <= r - c * p < p;
    QuotientIs(a, p, 2 * q + c);
  }

  lemma QuotientOfHalf(a: nat, p: nat)
    requires p > 0
    ensures a / 2 / p == a / (2 * p)
  {
    var q, h := a / (2 * p), a / 2;
    assert q * (2 * p) == 2 * (q * p);
    assert 0 <= a - 2 * (q * p) < 2 * p && a == 2 * h + a % 2;
    QuotientIs(h, p, q);
  }

  /** What a value becomes when it is stored in a uint32. */
  function Wrap32(x: int): (r: u32) {
    x % 0x1_0000_0000
  }

  lemma Wrap32Add(x: int, y: int)
    ensures Wrap32(Wrap32(x) + y) == Wrap32(x + y)
  {
  }

  /** atomic.AddUint32(&x, 1). */
  function Succ32(x: u32): (r: u32) {
    if x == 0xFFFF_FFFF then 0 else x + 1
  }

  /** The bitwise complement of a 16-bit value. */
  function Not16(x: u16): (r: u16) {
    0xFFFF - x
  }

  predicate IsHigh(v: u16, h: byte) {
    0 <= v - h as int * 0x100 < 0x100
  }

  /** The high byte of a 16-bit value; given by its defining property, which is linear, rather than as v / 256. */
  function High(v: u16): (h: byte)
    ensures IsHigh(v, h)
  {
    assert IsHigh(v, v / 0x100);
    var h: byte :| IsHigh(v, h);
    h
  }

  function Low(v: u16): (l: byte) {
    v - High(v) as int * 0x100
  }

  predicate IsUpper(b: byte, h: nat) {
    0 <= b - h * 16 < 16
  }

  /** `b >> 4`, given by its defining property. */
  function Upper(b: byte): (h: nat)
    ensures IsUpper(b, h) && h < 16
  {
    assert IsUpper(b, b / 16);
    var h: nat :| IsUpper(b, h) && h < 16;
    h
  }

  /** `b & 0x0f`. */
  function Lower(b: byte): (l: nat)
    ensures l < 16
  {
    b - Upper(b) * 16
  }

  function Get16(s: seq<byte>, i: nat): (r: u16)
    requires i + 2 <= |s|
  {
    s[i] as int * 0x100 + s[i + 1]
  }

  function Put16(s: seq<byte>, i: nat, v: u16): (r: seq<byte>)
    requires i + 2 <= |s|
    ensures |r| == |s|
    ensures Get16(r, i) == v
    ensures forall j :: 0 <= j < |s| && j != i && j != i + 1 ==> r[j] == s[j]
  {
    s[i := High(v)][i + 1 := Low(v)]
  }

  predicate IsTop(v: u32, h: u16) {
    0 <= v - h as int * 0x1_0000 < 0x1_0000
  }

  /** The upper half of a 32-bit value, given by its defining property. */
  function Top(v: u32): (h: u16)
    ensures IsTop(v, h)
  {
    assert IsTop(v, v / 0x1_0000);
    var h: u16 :| IsTop(v, h);
    h
  }

  function Bottom(v: u32): (l: u16) {
    v - Top(v) as int * 0x1_0000
  }

  function Get32(s: seq<byte>, i: nat): (r: u32)
    requires i + 4 <= |s|
  {
    Get16(s, i) as int * 0x1_0000 + Get16(s, i + 2)
  }

  function Be16(v: u16): (s: seq<byte>)
    ensures |s| == 2 && Get16(s, 0) == v
  {
    [High(v), Low(v)]
  }

  function Be32(v: u32): (s: seq<byte>)
    ensures |s| == 4 && Get32(s, 0) == v
  {
    Be16(Top(v)) + Be16(Bottom(v))
  }

  /** Big-endian fields determine their bytes. */
  lemma Get16Bytes(s: seq<byte>, t: seq<byte>, i: nat)
    requires i + 2 <= |s| == |t| && Get16(s, i) == Get16(t, i)
    ensures s[i] == t[i] && s[i + 1] == t[i + 1]
  {
  }

  lemma Get32Bytes(s: seq<byte>, t: seq<byte>, i: nat)
    requires i + 4 <= |s| == |t| && Get32(s, i) == Get32(t, i)
    ensures s[i] == t[i] && s[i + 1] == t[i + 1] && s[i + 2] == t[i + 2] && s[i + 3] == t[i + 3]
  {
    Get16Bytes(s, t, i);
    Get16Bytes(s, t, i + 2);
  }

  /** The same bytes, wherever they stand, are the same field. */
  lemma SameFields(s: seq<byte>, i: nat, t: seq<byte>, j: nat, n: nat)
    requires i + n <= |s| && j + n <= |t| && s[i..i + n] == t[j..j + n]
    ensures n == 2 ==> Get16(s, i) == Get16(t, j)
    ensures n == 4 ==> Get32(s, i) == Get32(t, j)
  {
    var u, v := s[i..i + n], t[j..j + n];
    assert n >= 2 ==> u[0] == v[0] && u[1] == v[1];
    assert n >= 4 ==> u[2] == v[2] && u[3] == v[3];
  }

  lemma PrefixIff(a: seq<byte>, s: seq<byte>)
    ensures a <= s <==> |a| <= |s| && s[..|a|] == a
  {
  }

  /** Overwrites the bytes of `s` from offset `i` on with `d`. */
  function Splice(s: seq<byte>, i: nat, d: seq<byte>): (r: seq<byte>)
    requires i + |d| <= |s|
    ensures |r| == |s|
    ensures r[i..i + |d|] == d
  {
    seq(|s|, j requires 0 <= j < |s| => if i <= j < i + |d| then d[j - i] else s[j])
  }

  /** binary.BigEndian.PutUint16 into a buffer. */
  method StoreWord(a: array<byte>, i: nat, v: u16)
    requires i + 2 <= a.Length
    modifies a
    ensures a[..] == Put16(old(a[..]), i, v)
  {
    a[i], a[i + 1] := High(v), Low(v);
  }

  /** `copy(a[i:], d)`, for a destination with room for all of `d`. */
  method StoreBytes(a: array<byte>, i: nat, d: seq<byte>)
    requires i + |d| <= a.Length
    modifies a
    ensures a[..] == Splice(old(a[..]), i, d)
  {
    forall j | 0 <= j < |d| {
      a[i + j] := d[j];
    }
    assert a[..] == Splice(old(a[..]), i, d);
  }
}
