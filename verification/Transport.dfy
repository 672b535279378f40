/**
 TCP and UDP checksums under an address change: the incremental update of section 3 of RFC 1624,
 computed in a uint32 that wraps when the running value goes below zero.
 */
module Transport {
  import opened Bytes
  import opened Checksum

  /** Offset of the transport checksum in a packet whose IP header has `ihl` bytes. */
  function ChecksumOffset(ihl: nat, isTCP: bool): (off: nat) {
    if isTCP then ihl + 16 else ihl + 6
  }

  /** What the transport checksum covers: addresses, protocol and `len` of the pseudo-header, and the segment. */
  function CoveredSum(pkt: seq<byte>, ihl: nat, len: nat): (n: nat)
    requires 20 <= |pkt| && ihl <= |pkt|
  {
    Sum(pkt[12..20]) + pkt[9] + len + Sum(pkt[ihl..])
  }

  /** ~old - o0 + n0 - o1 + n1 over the integers. */
  function Delta(oldSum: u16, oldIP: IPv4, newIP: IPv4): (d: int) {
    Not16(oldSum) - Get16(oldIP, 0) + Get16(newIP, 0) - Get16(oldIP, 2) + Get16(newIP, 2)
  }

  /** The packet after fixTransportChecksum. */
  function Fixed(pkt: seq<byte>, ihl: nat, oldIP: IPv4, newIP: IPv4, isTCP: bool): (r: seq<byte>)
    ensures |r| == |pkt|
  {
    var off := ChecksumOffset(ihl, isTCP);
    if |pkt| < off + 2 || (!isTCP && Get16(pkt, off) == 0) then pkt
    else Put16(pkt, off, Not16(Residue(Wrap32(Delta(Get16(pkt, off), oldIP, newIP)))))
  }

  /** The subtract-and-add loop over the two words of the address, in a uint32. */
  method ShiftSum(oldSum: u16, oldIP: IPv4, newIP: IPv4) returns (csum: u32)
    ensures csum == Wrap32(Delta(oldSum, oldIP, newIP))
  {
    csum := Not16(oldSum);
    ghost var d: int := csum;
    var i := 0;
    while i < 4
      invariant i == 0 || i == 2 || i == 4
      invariant csum == Wrap32(d)
      invariant d == Not16(oldSum) - (if i > 0 then Get16(oldIP, 0) - Get16(newIP, 0) else 0)
                                   - (if i > 2 then Get16(oldIP, 2) - Get16(newIP, 2) else 0)
    {
      var o: int, n: int := Get16(oldIP, i), Get16(newIP, i);
      Wrap32Add(d, -o);
      csum := Wrap32(csum - o);
      Wrap32Add(d - o, n);
      csum := Wrap32(csum + n);
      d := d - o + n;
      i := i + 2;
    }
  }

  method FixTransportChecksum(pkt: array<byte>, ihl: nat, oldIP: IPv4, newIP: IPv4, isTCP: bool)
    modifies pkt
    ensures pkt[..] == Fixed(old(pkt[..]), ihl, oldIP, newIP, isTCP)
  {
    var off := if isTCP then ihl + 16 else ihl + 6;
    if pkt.Length < off + 2 {
      return;
    }
    var oldSum := Get16(pkt[..], off);
    if !isTCP && oldSum == 0 {
      return; // a UDP checksum of 0 means "not computed"
    }
    var csum := ShiftSum(oldSum, oldIP, newIP);
    var r := Fold(csum);
    StoreWord(pkt, off, Not16(r));
  }

  // ---- When the incremental update is right ----

  lemma SumSplice(s: seq<byte>, i: nat, d: IPv4)
    requires i + 4 <= |s| && i % 2 == 0
    ensures Sum(Splice(s, i, d)) == Sum(s) - Sum(s[i..i + 4]) + Sum(d)
  {
    var a, b, c := s[..i], s[i..i + 4], s[i + 4..];
    assert s == (a + b) + c;
    assert Splice(s, i, d) == (a + d) + c;
    SumConcat(a, b);
    SumConcat(a + b, c);
    SumConcat(a, d);
    SumConcat(a + d, c);
  }

  /** The covered sum reads only the protocol, the addresses and the segment. */
  lemma CoveredSumFrame(p: seq<byte>, q: seq<byte>, ihl: nat, len: nat)
    requires 20 <= |p| == |q| && ihl <= |p|
    requires p[9] == q[9] && p[12..20] == q[12..20] && p[ihl..] == q[ihl..]
    ensures CoveredSum(p, ihl, len) == CoveredSum(q, ihl, len)
  {
  }

  /** Changing the address at `at` shifts the covered sum by exactly the difference. */
  lemma CoveredSumReaddress(pkt: seq<byte>, ihl: nat, at: nat, newIP: IPv4, len: nat)
    requires 20 <= ihl <= |pkt|
    requires at == 12 || at == 16
    ensures CoveredSum(Splice(pkt, at, newIP), ihl, len)
         == CoveredSum(pkt, ihl, len) - Sum(pkt[at..at + 4]) + Sum(newIP)
  {
    var q, a := Splice(pkt, at, newIP), pkt[12..20];
    assert q[12..20] == Splice(a, at - 12, newIP);
    assert a[at - 12..at - 12 + 4] == pkt[at..at + 4];
    SumSplice(a, at - 12, newIP);
    assert forall j :: ihl <= j < |pkt| ==> q[j] == pkt[j];
    assert q[ihl..] == pkt[ihl..];
  }

  /** Storing `c` in a 16-bit field of the segment shifts it by exactly the difference. */
  lemma CoveredSumStore(pkt: seq<byte>, ihl: nat, off: nat, c: u16, len: nat)
    requires 20 <= |pkt| && 20 <= off && ihl <= off && off + 2 <= |pkt| && (off - ihl) % 2 == 0
    ensures CoveredSum(Put16(pkt, off, c), ihl, len) == CoveredSum(pkt, ihl, len) - Get16(pkt, off) + c
  {
    var q, seg := Put16(pkt, off, c), pkt[ihl..];
    assert q[ihl..] == Put16(seg, off - ihl, c);
    assert Get16(seg, off - ihl) == Get16(pkt, off);
    SumPut16(seg, off - ihl, c);
    assert q[12..20] == pkt[12..20];
  }

  /** Not16(Residue(Wrap32(d))) is -d modulo 65535 when d >= 0 and -d - 1 when the uint32 wrapped. */
  lemma FoldedDelta(d: int)
    requires -0x2_0000 <= d <= 0x4_0000
    ensures d >= 0 ==> (Not16(Residue(Wrap32(d))) + d) % 0xFFFF == 0
    ensures d < 0 ==> (Not16(Residue(Wrap32(d))) + d + 1) % 0xFFFF == 0
  {
    var w := Wrap32(d);
    ResidueLaws(w);
    var k := (w - Residue(w)) / 0xFFFF;
    assert w - Residue(w) == 0xFFFF * k;
    if d >= 0 {
      assert w == d;
      assert Not16(Residue(w)) + d == 0xFFFF * (k + 1);
    } else {
      assert w == d + 0x1_0000_0000;
      assert Not16(Residue(w)) + d + 1 == 0xFFFF * (k + 1 - 0x1_0001);
    }
  }

  lemma FixedSumClass(before: nat, c: u16, d: int, after: nat)
    requires Verifies(before) && after > 0
    requires after == before + (c + d) - 0xFFFF
    requires d >= 0 ==> (c + d) % 0xFFFF == 0
    requires d < 0 ==> (c + d + 1) % 0xFFFF == 0
    ensures Verifies(after) <==> d >= 0
    ensures d < 0 ==> after % 0xFFFF == 0xFFFE
  {
    ResidueLaws(before);
    ResidueLaws(after);
    var b := before / 0xFFFF;
    if d >= 0 {
      var k := (c + d) / 0xFFFF;
      assert after == 0xFFFF * (b + k - 1);
    } else {
      var k := (c + d + 1) / 0xFFFF;
      assert after == 0xFFFF * (b + k - 2) + 0xFFFE;
    }
  }

  /** Rewriting the address at `at` and fixing the checksum moves the covered sum by c + d - 65535. */
  lemma FixShift(pkt: seq<byte>, ihl: nat, at: nat, newIP: IPv4, isTCP: bool, len: nat)
    requires 20 <= ihl && ihl % 2 == 0 && ChecksumOffset(ihl, isTCP) + 2 <= |pkt|
    requires at == 12 || at == 16
    requires isTCP || Get16(pkt, ChecksumOffset(ihl, isTCP)) != 0
    ensures var oldIP: IPv4 := pkt[at..at + 4];
            var q := Fixed(Splice(pkt, at, newIP), ihl, oldIP, newIP, isTCP);
            var d := Delta(Get16(pkt, ChecksumOffset(ihl, isTCP)), oldIP, newIP);
            && q[9] == pkt[9]
            && CoveredSum(q, ihl, len) == CoveredSum(pkt, ihl, len) + (Not16(Residue(Wrap32(d))) + d) - 0xFFFF
  {
    var off := ChecksumOffset(ihl, isTCP);
    var oldIP: IPv4 := pkt[at..at + 4];
    var p := Splice(pkt, at, newIP);
    assert Get16(p, off) == Get16(pkt, off);
    CoveredSumReaddress(pkt, ihl, at, newIP, len);
    CoveredSumStore(p, ihl, off, Not16(Residue(Wrap32(Delta(Get16(pkt, off), oldIP, newIP)))), len);
    Sum4(oldIP);
    Sum4(newIP);
  }

  /**
   A valid TCP checksum (or non-zero UDP checksum) stays valid under the incremental update exactly
   when Delta >= 0; otherwise the new sum is -1 modulo 65535.
   */
  lemma IncrementalFixIff(pkt: seq<byte>, ihl: nat, at: nat, newIP: IPv4, isTCP: bool, len: nat)
    requires 20 <= ihl && ihl % 2 == 0 && ChecksumOffset(ihl, isTCP) + 2 <= |pkt|
    requires at == 12 || at == 16
    requires pkt[9] > 0
    requires isTCP || Get16(pkt, ChecksumOffset(ihl, isTCP)) != 0
    requires Verifies(CoveredSum(pkt, ihl, len))
    ensures var oldIP: IPv4 := pkt[at..at + 4];
            var q := Fixed(Splice(pkt, at, newIP), ihl, oldIP, newIP, isTCP);
            var d := Delta(Get16(pkt, ChecksumOffset(ihl, isTCP)), oldIP, newIP);
            && (Verifies(CoveredSum(q, ihl, len)) <==> d >= 0)
            && (d < 0 ==> CoveredSum(q, ihl, len) % 0xFFFF == 0xFFFE)
  {
    var off := ChecksumOffset(ihl, isTCP);
    var oldIP: IPv4 := pkt[at..at + 4];
    var d := Delta(Get16(pkt, off), oldIP, newIP);
    var q := Fixed(Splice(pkt, at, newIP), ihl, oldIP, newIP, isTCP);
    FixShift(pkt, ihl, at, newIP, isTCP, len);
    FoldedDelta(d);
    FixedSumClass(CoveredSum(pkt, ihl, len), Not16(Residue(Wrap32(d))), d, CoveredSum(q, ihl, len));
  }
}
