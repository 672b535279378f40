/**
 The Internet checksum of RFC 1071: a one's-complement sum of big-endian 16-bit words, the last
 byte of an odd-length message counting as the high half of a word.

 The reference is `Sum`, which weighs each byte by its parity, and `Residue`, the closed form of
 repeated end-around-carry folding.  The methods are the loops of the source.
 */
module Checksum {
  import opened Bytes

  /** What byte `b` at index `i` adds to the sum: the high or the low half of a word. */
  function Term(i: nat, b: byte): (n: nat) {
    if i % 2 == 0 then b as int * 0x100 else b
  }

  /** The sum of the 16-bit words of `s`, padded with a zero byte when `|s|` is odd. */
  function Sum(s: seq<byte>): (n: nat) {
    if |s| == 0 then 0 else Sum(s[..|s| - 1]) + Term(|s| - 1, s[|s| - 1])
  }

  /** What folding the carries of `n` into 16 bits leaves: 0 for 0, otherwise a value in 1..65535. */
  function Residue(n: nat): (r: u16) {
    if n == 0 then 0 else 1 + (n - 1) % 0xFFFF
  }

  function Value(s: seq<byte>): (c: u16) {
    Not16(Residue(Sum(s)))
  }

  /** The receiver's test: the folded sum over the whole message is all ones. */
  predicate Verifies(n: nat) {
    Residue(n) == 0xFFFF
  }

  // ---- Laws of the sum ----

  lemma ResidueLaws(n: nat)
    ensures Residue(n) % 0xFFFF == n % 0xFFFF
    ensures Residue(n) == 0 <==> n == 0
    ensures Verifies(n) <==> n > 0 && n % 0xFFFF == 0
  {
  }

  /** Folding any representative of the same class of the same zero-ness gives the same residue. */
  lemma ResidueUnique(n: nat, r: u16)
    requires r % 0xFFFF == n % 0xFFFF
    requires r == 0 <==> n == 0
    ensures r == Residue(n)
  {
    ResidueLaws(n);
  }

  /** Adding the complement of a folded sum to that sum makes it verify. */
  lemma ComplementVerifies(n: nat)
    ensures Verifies(n + Not16(Residue(n)))
  {
    ResidueLaws(n);
    if n > 0 {
      var k := (n - 1) / 0xFFFF;
      assert n - 1 == 0xFFFF * k + (n - 1) % 0xFFFF;
      assert n + Not16(Residue(n)) - 1 == 0xFFFF * k + 0xFFFE;
    }
  }

  lemma {:induction false} SumUpdate(s: seq<byte>, i: nat, v: byte)
    requires i < |s|
    ensures Sum(s[i := v]) == Sum(s) - Term(i, s[i]) + Term(i, v)
  {
    var n := |s| - 1;
    if i == n {
      assert s[i := v][..n] == s[..n];
    } else {
      assert s[i := v][..n] == s[..n][i := v];
      SumUpdate(s[..n], i, v);
    }
  }

  lemma {:induction false} SumConcat(a: seq<byte>, b: seq<byte>)
    requires |a| % 2 == 0
    ensures Sum(a + b) == Sum(a) + Sum(b)
  {
    if |b| == 0 {
      assert a + b == a;
    } else {
      var b' := b[..|b| - 1];
      assert (a + b)[..|a + b| - 1] == a + b';
      SumConcat(a, b');
    }
  }

  lemma SumPutBytes(s: seq<byte>, i: nat, hi: byte, lo: byte)
    requires i + 2 <= |s| && i % 2 == 0
    ensures Sum(s[i := hi][i + 1 := lo]) == Sum(s) - Get16(s, i) + (hi as int * 0x100 + lo)
  {
    var t := s[i := hi];
    SumUpdate(s, i, hi);
    SumUpdate(t, i + 1, lo);
    assert t[i + 1] == s[i + 1];
  }

  /** Replacing the 16-bit field at an even offset moves the sum by exactly the difference. */
  lemma SumPut16(s: seq<byte>, i: nat, v: u16)
    requires i + 2 <= |s| && i % 2 == 0
    ensures Sum(Put16(s, i, v)) == Sum(s) - Get16(s, i) + v
  {
    SumPutBytes(s, i, High(v), Low(v));
  }

  lemma SumTake2(s: seq<byte>, i: nat)
    requires i % 2 == 0 && i + 2 <= |s|
    ensures Sum(s[..i + 2]) == Sum(s[..i]) + Get16(s, i)
  {
    assert s[..i + 2][..i + 1] == s[..i + 1];
    assert s[..i + 1][..i] == s[..i];
  }

  lemma Sum4(s: seq<byte>)
    requires |s| == 4
    ensures Sum(s) == Get16(s, 0) + Get16(s, 2)
  {
    SumTake2(s, 0);
    SumTake2(s, 2);
    assert s[..4] == s && s[..0] == [];
  }

  /** A message of at most 131074 bytes cannot overflow a uint32 accumulator. */
  lemma {:induction false} SumBound(s: seq<byte>)
    ensures 2 * Sum(s) <= 0xFFFF * (|s| + 1)
    ensures |s| % 2 == 0 ==> 2 * Sum(s) <= 0xFFFF * |s|
    ensures |s| <= 131074 ==> Sum(s) <= 0xFFFF_FFFF
  {
    if |s| > 1 {
      var t := s[..|s| - 1];
      SumBound(t[..|t| - 1]);
    } else if |s| == 1 {
      assert s[..0] == [];
    }
  }

  lemma NoWrap(s: seq<byte>)
    requires |s| <= 131074
    ensures Not16(Residue(Wrap32(Sum(s)))) == Value(s)
  {
    SumBound(s);
  }

  /** ... and 131074 is the sharp bound: two more 0xFF bytes overflow it. */
  lemma {:induction false} SumOfOnes(n: nat)
    ensures Sum(seq(2 * n, _ => 0xFF as byte)) == 0xFFFF * n
    ensures n == 65538 ==> Sum(seq(2 * n, _ => 0xFF as byte)) > 0xFFFF_FFFF
  {
    var s := seq(2 * n, _ => 0xFF as byte);
    if n > 0 {
      var t := seq(2 * (n - 1), _ => 0xFF as byte);
      SumOfOnes(n - 1);
      SumTake2(s, 2 * (n - 1));
      assert s[..2 * n] == s && s[..2 * (n - 1)] == t;
    }
  }

  /** Zero the field, recompute, store: the message then verifies (section 2 of RFC 1071). */
  lemma StoreVerifies(s: seq<byte>, i: nat)
    requires i + 2 <= |s| && i % 2 == 0
    ensures var z := Put16(s, i, 0); Verifies(Sum(Put16(z, i, Value(z))))
  {
    var z := Put16(s, i, 0);
    SumPut16(z, i, Value(z));
    ComplementVerifies(Sum(z));
  }

  // ---- The loops of the source ----

  /** Adds the upper half to the lower one until the sum fits in 16 bits. */
  method Fold(sum0: u32) returns (r: u16)
    ensures r == Residue(sum0)
  {
    var sum: u32 := sum0;
    while sum > 0xFFFF
      invariant sum % 0xFFFF == sum0 % 0xFFFF
      invariant sum == 0 <==> sum0 == 0
    {
      ghost var hi, lo := sum / 0x1_0000, sum % 0x1_0000;
      assert sum == 0xFFFF * hi + (hi + lo);
      sum := sum / 0x1_0000 + sum % 0x1_0000;
    }
    ResidueUnique(sum0, sum);
    r := sum;
  }

  /** The word loop in a uint32, with the odd tail. */
  method AddWords(data: seq<byte>) returns (sum: u32)
    ensures sum == Wrap32(Sum(data))
  {
    sum := 0;
    var i := 0;
    while i < |data| - 1
      invariant 0 <= i <= |data| && i % 2 == 0
      invariant sum == Wrap32(Sum(data[..i]))
    {
      SumTake2(data, i);
      Wrap32Add(Sum(data[..i]), Get16(data, i));
      sum := Wrap32(sum + Get16(data, i));
      i := i + 2;
    }
    assert data[..|data|] == data;
    if |data| % 2 == 1 {
      Wrap32Add(Sum(data[..i]), data[i] as int * 0x100);
      sum := Wrap32(sum + data[i] as int * 0x100);
    }
  }

  /** ipHeaderChecksum and icmpChecksum. */
  method Compute(data: seq<byte>) returns (c: u16)
    ensures c == Not16(Residue(Wrap32(Sum(data))))
    ensures |data| <= 131074 ==> c == Value(data)
  {
    var sum := AddWords(data);
    var r := Fold(sum);
    c := Not16(r);
    if |data| <= 131074 {
      NoWrap(data);
    }
  }
}
