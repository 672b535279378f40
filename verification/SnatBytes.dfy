/**
 What the two rewriting directions do to the bytes of a packet: which packets, which bytes, and when the
 transport checksum stays valid, in terms of offsets alone.
 */
module SnatBytes {
  import opened Options
  import opened Bytes
  import opened Checksum
  import opened Transport
  import opened FlowKeys
  import opened NatHistory
  import opened Snat
  import opened SnatTheorems

  /** An IPv4 packet whose header has `w` words, all present. */
  predicate IPv4Header(pkt: seq<byte>, w: nat) {
    5 <= w <= 15 && |pkt| >= 4 * w && pkt[0] as int == 0x40 + w
  }

  lemma HeaderWords(pkt: seq<byte>, w: nat)
    requires IPv4Header(pkt, w)
    ensures HasHeader(pkt) && Ihl(pkt) == 4 * w
  {
    assert Upper(pkt[0]) == 4 && Lower(pkt[0]) == w;
  }

  /** Everything that is not such a packet passes both directions unchanged. */
  lemma OthersPass(pkt: seq<byte>, nets: seq<Route>, snat: IPv4, t: NatTable)
    requires forall w: nat :: !IPv4Header(pkt, w)
    ensures Forwarded(pkt, nets, snat) == pkt && Returned(pkt, snat, t) == pkt
  {
    assert HasHeader(pkt) ==> IPv4Header(pkt, Lower(pkt[0]));
  }

  /** A transport checksum that a device has to keep valid stands at `off`. */
  predicate HasChecksum(pkt: seq<byte>, w: nat, off: nat) {
    || (|pkt| >= 4 * w + 18 && pkt[9] == 6 && off == 4 * w + 16)
    || (|pkt| >= 4 * w + 8 && 10 <= |pkt| && pkt[9] == 17 && off == 4 * w + 6 && Get16(pkt, off) != 0)
  }

  /** Bytes of a packet that rewriting the address at `at` may touch. */
  predicate Touchable(pkt: seq<byte>, w: nat, at: nat, j: int) {
    || 10 <= j < 12 || at <= j < at + 4
    || (HasChecksum(pkt, w, 4 * w + 16) && 4 * w + 16 <= j < 4 * w + 18)
    || (HasChecksum(pkt, w, 4 * w + 6) && 4 * w + 6 <= j < 4 * w + 8)
  }

  // ---- Rewriting one address ----

  lemma ReaddressedBytes(pkt: seq<byte>, w: nat, at: nat, newIP: IPv4)
    requires IPv4Header(pkt, w) && (at == 12 || at == 16)
    ensures HasHeader(pkt)
    ensures var r := Readdressed(pkt, at, pkt[at..at + 4], newIP);
            && r[at..at + 4] == newIP
            && forall j :: 0 <= j < |pkt| && !Touchable(pkt, w, at, j) ==> r[j] == pkt[j]
  {
    HeaderWords(pkt, w);
    ReaddressedFrame(pkt, at, pkt[at..at + 4], newIP);
    var s := Splice(pkt, at, newIP);
    var p := Rechecked(s, 4 * w);
    assert |pkt| >= 4 * w + 8 ==> Get16(p, 4 * w + 6) == Get16(pkt, 4 * w + 6);
  }

  /** ~old - o0 + n0 - o1 + n1 >= 0, where o and n are the words at `at` before and after. */
  predicate Kept(pkt: seq<byte>, r: seq<byte>, off: nat, at: nat)
    requires off + 2 <= |pkt| && at + 4 <= |pkt| == |r|
  {
    0xFFFF - Get16(pkt, off) - Get16(pkt, at) + Get16(r, at) - Get16(pkt, at + 2) + Get16(r, at + 2) >= 0
  }

  lemma ReaddressedDelta(pkt: seq<byte>, w: nat, off: nat, at: nat, newIP: IPv4, len: nat)
    requires IPv4Header(pkt, w) && HasChecksum(pkt, w, off) && (at == 12 || at == 16)
    requires Verifies(CoveredSum(pkt, 4 * w, len))
    ensures HasHeader(pkt)
    ensures Verifies(CoveredSum(Readdressed(pkt, at, pkt[at..at + 4], newIP), 4 * w, len)) <==>
            Delta(Get16(pkt, off), pkt[at..at + 4], newIP) >= 0
  {
    HeaderWords(pkt, w);
    TransportIff(pkt, at, newIP, len);
  }

  lemma ReaddressedChecksum(pkt: seq<byte>, w: nat, off: nat, at: nat, newIP: IPv4, len: nat, r: seq<byte>)
    requires IPv4Header(pkt, w) && HasChecksum(pkt, w, off) && (at == 12 || at == 16)
    requires Verifies(CoveredSum(pkt, 4 * w, len))
    requires HasHeader(pkt) && r == Readdressed(pkt, at, pkt[at..at + 4], newIP)
    ensures Verifies(CoveredSum(r, 4 * w, len)) <==> Kept(pkt, r, off, at)
  {
    ReaddressedDelta(pkt, w, off, at, newIP, len);
    assert r[at..at + 4] == newIP by {
      ReaddressedBytes(pkt, w, at, newIP);
    }
    KeptIsDelta(pkt, r, off, at, newIP);
  }

  lemma KeptIsDelta(pkt: seq<byte>, r: seq<byte>, off: nat, at: nat, newIP: IPv4)
    requires off + 2 <= |pkt| && at + 4 <= |pkt| == |r| && r[at..at + 4] == newIP
    ensures Kept(pkt, r, off, at) <==> Delta(Get16(pkt, off), pkt[at..at + 4], newIP) >= 0
  {
    var oldIP: IPv4 := pkt[at..at + 4];
    assert oldIP[0] == pkt[at] && oldIP[1] == pkt[at + 1] && oldIP[2] == pkt[at + 2] && oldIP[3] == pkt[at + 3];
    assert newIP[0] == r[at] && newIP[1] == r[at + 1] && newIP[2] == r[at + 2] && newIP[3] == r[at + 3];
  }

  // ---- The two directions ----

  /** A packet to a routed subnet leaves with the SNAT address, any other unchanged; nothing else but checksums changes. */
  lemma ForwardedBytes(pkt: seq<byte>, w: nat, nets: seq<Route>, snat: IPv4)
    requires IPv4Header(pkt, w)
    ensures var r := Forwarded(pkt, nets, snat);
            && (if Routed(nets, pkt[16..20]) then r[12..16] == snat else r == pkt)
            && forall j :: 0 <= j < |pkt| && !Touchable(pkt, w, 12, j) ==> r[j] == pkt[j]
  {
    HeaderWords(pkt, w);
    ReaddressedBytes(pkt, w, 12, snat);
  }

  /**
   Every TCP packet with room for its checksum, and every UDP packet with a checksum, leaves with a valid
   one exactly when the difference of the update is not negative.
   */
  lemma ForwardedChecksum(pkt: seq<byte>, w: nat, off: nat, nets: seq<Route>, snat: IPv4, len: nat)
    requires IPv4Header(pkt, w) && HasChecksum(pkt, w, off)
    requires Verifies(CoveredSum(pkt, 4 * w, len))
    ensures var r := Forwarded(pkt, nets, snat);
            Verifies(CoveredSum(r, 4 * w, len)) <==> Kept(pkt, r, off, 12)
  {
    HeaderWords(pkt, w);
    if Routed(nets, pkt[16..20]) {
      ReaddressedChecksum(pkt, w, off, 12, snat, len, Forwarded(pkt, nets, snat));
    }
  }

  /** A reply changes at most its destination and checksums. */
  lemma ReturnedBytes(pkt: seq<byte>, w: nat, snat: IPv4, t: NatTable)
    requires IPv4Header(pkt, w)
    ensures var r := Returned(pkt, snat, t);
            forall j :: 0 <= j < |pkt| && !Touchable(pkt, w, 16, j) ==> r[j] == pkt[j]
  {
    HeaderWords(pkt, w);
    if Answers(pkt, snat) && Print(ReplyKey(pkt).value) in t {
      ReaddressedBytes(pkt, w, 16, t[Print(ReplyKey(pkt).value)].originalSrc);
    }
  }

  lemma ReturnedChecksum(pkt: seq<byte>, w: nat, off: nat, snat: IPv4, t: NatTable, len: nat)
    requires IPv4Header(pkt, w) && HasChecksum(pkt, w, off)
    requires Verifies(CoveredSum(pkt, 4 * w, len))
    ensures var r := Returned(pkt, snat, t);
            Verifies(CoveredSum(r, 4 * w, len)) <==> Kept(pkt, r, off, 16)
  {
    HeaderWords(pkt, w);
    if Answers(pkt, snat) && Print(ReplyKey(pkt).value) in t {
      var to := t[Print(ReplyKey(pkt).value)].originalSrc;
      ReaddressedChecksum(pkt, w, off, 16, to, len, Returned(pkt, snat, t));
    }
  }

  /** The packets that carry a flow: TCP and UDP with both ports, and echo requests with an identifier. */
  lemma TrackedIff(pkt: seq<byte>, w: nat)
    requires IPv4Header(pkt, w)
    ensures HasHeader(pkt)
    ensures ForwardKey(pkt).Some? <==>
            || ((pkt[9] == 6 || pkt[9] == 17) && |pkt| >= 4 * w + 4)
            || (pkt[9] == 1 && |pkt| >= 4 * w + 6 && pkt[4 * w] == 8)
  {
    HeaderWords(pkt, w);
  }

  /** The packets that can answer a flow: TCP and UDP with both ports, and echo replies with an identifier. */
  lemma AnswerIff(pkt: seq<byte>, w: nat)
    requires IPv4Header(pkt, w)
    ensures HasHeader(pkt)
    ensures ReplyKey(pkt).Some? <==>
            || ((pkt[9] == 6 || pkt[9] == 17) && |pkt| >= 4 * w + 4)
            || (pkt[9] == 1 && |pkt| >= 4 * w + 6 && pkt[4 * w] == 0)
  {
    HeaderWords(pkt, w);
  }

  /** Where the bytes begin that tell apart the flows of one protocol and host: both ports, or the identifier. */
  function FlowAt(pkt: seq<byte>, w: nat): (i: nat)
    requires IPv4Header(pkt, w)
  {
    if pkt[9] == 1 then 4 * w + 4 else 4 * w
  }

  lemma SameWord(p: seq<byte>, i: nat, q: seq<byte>, j: nat)
    requires i + 2 <= |p| && j + 2 <= |q|
    ensures Get16(p, i) == Get16(q, j) <==> p[i] == q[j] && p[i + 1] == q[j + 1]
  {
  }

  /** Two packets on their way out are of one flow exactly if protocol, destination and both ports, or identifier, agree. */
  lemma SameFlowIff(p: seq<byte>, v: nat, q: seq<byte>, w: nat)
    requires IPv4Header(p, v) && IPv4Header(q, w)
    ensures HasHeader(p) && HasHeader(q)
    ensures ForwardKey(p).Some? && ForwardKey(q).Some? ==>
              var i, j := FlowAt(p, v), FlowAt(q, w);
              ForwardKey(p) == ForwardKey(q) <==>
                && p[9] == q[9] && p[16..20] == q[16..20] && p[i] == q[j] && p[i + 1] == q[j + 1]
                && (p[9] != 1 ==> p[i + 2] == q[j + 2] && p[i + 3] == q[j + 3])
  {
    TrackedIff(p, v);
    TrackedIff(q, w);
    HeaderWords(p, v);
    HeaderWords(q, w);
    if ForwardKey(p).Some? && ForwardKey(q).Some? {
      SameWord(p, FlowAt(p, v), q, FlowAt(q, w));
      if p[9] != 1 && q[9] != 1 {
        SameWord(p, 4 * v + 2, q, 4 * w + 2);
      }
    }
  }

  /** A packet coming back answers a flow exactly if it comes from where the flow goes, with the ports swapped. */
  lemma AnswersFlowIff(p: seq<byte>, v: nat, q: seq<byte>, w: nat)
    requires IPv4Header(p, v) && IPv4Header(q, w)
    ensures HasHeader(p) && HasHeader(q)
    ensures ForwardKey(p).Some? && ReplyKey(q).Some? ==>
              var i, j := FlowAt(p, v), FlowAt(q, w);
              ForwardKey(p) == ReplyKey(q) <==>
                && p[9] == q[9] && p[16..20] == q[12..16]
                && (p[9] == 1 ==> p[i] == q[j] && p[i + 1] == q[j + 1])
                && (p[9] != 1 ==> p[i] == q[j + 2] && p[i + 1] == q[j + 3] && p[i + 2] == q[j] && p[i + 3] == q[j + 1])
  {
    TrackedIff(p, v);
    AnswerIff(q, w);
    HeaderWords(p, v);
    HeaderWords(q, w);
    if ForwardKey(p).Some? && ReplyKey(q).Some? {
      if p[9] == 1 && q[9] == 1 {
        SameWord(p, 4 * v + 4, q, 4 * w + 4);
      } else if p[9] != 1 && q[9] != 1 {
        SameWord(p, 4 * v, q, 4 * w + 2);
        SameWord(p, 4 * v + 2, q, 4 * w);
      }
    }
  }

  // ---- Which subnets contain an address ----

  /** Bit `i` of an address, the first one being the highest bit of its first byte. */
  function AddressBit(ip: IPv4, i: nat): (b: nat)
    requires i < 32
  {
    (ip[0] as int * 0x100_0000 + ip[1] as int * 0x1_0000 + ip[2] as int * 0x100 + ip[3]) / Power(31 - i) % 2
  }

  lemma {:induction false} PrefixBits(a: IPv4, b: IPv4, n: nat)
    requires n <= 32
    ensures AddressValue(a) / Power(32 - n) == AddressValue(b) / Power(32 - n) <==>
            forall i :: 0 <= i < n ==> AddressBit(a, i) == AddressBit(b, i)
  {
    if n == 0 {
      TopPower();
      QuotientIs(AddressValue(a), Power(32), 0);
      QuotientIs(AddressValue(b), Power(32), 0);
    } else {
      PrefixBits(a, b, n - 1);
      var p := Power(32 - n);
      assert Power(32 - (n - 1)) == 2 * p;
      HalfOfQuotient(AddressValue(a), p);
      HalfOfQuotient(AddressValue(b), p);
      var x, y := AddressValue(a) / p, AddressValue(b) / p;
      assert x == 2 * (x / 2) + x % 2 && y == 2 * (y / 2) + y % 2;
      assert AddressBit(a, n - 1) == x % 2 && AddressBit(b, n - 1) == y % 2;
    }
  }

  lemma TopPower()
    ensures Power(32) == 0x1_0000_0000
  {
    assert Power(8) == 0x100;
    assert Power(16) == 0x1_0000;
    assert Power(24) == 0x100_0000;
  }

  /** A subnet contains exactly the addresses that share its first `bits` bits. */
  lemma ContainsIff(r: Route, ip: IPv4)
    requires r.bits <= 32
    ensures Contains(r, ip) <==> forall i :: 0 <= i < r.bits ==> AddressBit(r.base, i) == AddressBit(ip, i)
  {
    PrefixBits(r.base, ip, r.bits);
  }
}
