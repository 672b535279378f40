/** What rewriting an address keeps, and where replies go over every run of the device. */
module SnatTheorems {
  import opened Options
  import opened Bytes
  import opened Checksum
  import opened Transport
  import opened FlowKeys
  import opened NatHistory
  import opened Snat

  /** Where readdressing may write: header checksum, the address, the transport checksum. */
  predicate Writable(pkt: seq<byte>, at: nat, j: int)
    requires HasHeader(pkt)
  {
    || 10 <= j < 12
    || at <= j < at + 4
    || (Fixable(pkt, Ihl(pkt)).Some? &&
        var off := ChecksumOffset(Ihl(pkt), Fixable(pkt, Ihl(pkt)).value);
        off <= j < off + 2)
  }

  /** Only addresses and checksums change, and the address becomes the new one. */
  lemma ReaddressedFrame(pkt: seq<byte>, at: nat, oldIP: IPv4, newIP: IPv4)
    requires HasHeader(pkt) && (at == 12 || at == 16)
    ensures var r := Readdressed(pkt, at, oldIP, newIP);
            && (forall j :: 0 <= j < |pkt| && !Writable(pkt, at, j) ==> r[j] == pkt[j])
            && r[at..at + 4] == newIP
            && HasHeader(r) && Ihl(r) == Ihl(pkt)
  {
    var ihl := Ihl(pkt);
    var s := Splice(pkt, at, newIP);
    var p := Rechecked(s, ihl);
    var r := Readdressed(pkt, at, oldIP, newIP);
    assert forall j :: 0 <= j < |p| && j != 10 && j != 11 ==> p[j] == s[j];
    assert forall j :: 0 <= j < 20 ==> r[j] == p[j];
    assert r[at..at + 4] == s[at..at + 4];
  }

  /** The IP header of a readdressed packet verifies, whatever its checksum was before. */
  lemma HeaderVerifies(pkt: seq<byte>, at: nat, oldIP: IPv4, newIP: IPv4)
    requires HasHeader(pkt) && (at == 12 || at == 16)
    ensures Verifies(Sum(Readdressed(pkt, at, oldIP, newIP)[..Ihl(pkt)]))
  {
    var ihl := Ihl(pkt);
    var s := Splice(pkt, at, newIP);
    var z := Put16(s, 10, 0);
    var p := Rechecked(s, ihl);
    var h := s[..ihl];
    assert z[..ihl] == Put16(h, 10, 0);
    assert p[..ihl] == Put16(z[..ihl], 10, Value(z[..ihl]));
    StoreVerifies(h, 10);
    assert Readdressed(pkt, at, oldIP, newIP)[..ihl] == p[..ihl];
  }

  /** Recomputing the header checksum does not disturb the transport checksum. */
  lemma RecheckIsTransparent(s: seq<byte>, ihl: nat, oldIP: IPv4, newIP: IPv4, isTCP: bool, len: nat)
    requires 20 <= ihl && ChecksumOffset(ihl, isTCP) + 2 <= |s|
    ensures CoveredSum(Fixed(Rechecked(s, ihl), ihl, oldIP, newIP, isTCP), ihl, len)
         == CoveredSum(Fixed(s, ihl, oldIP, newIP, isTCP), ihl, len)
  {
    var p := Rechecked(s, ihl);
    assert forall j :: 12 <= j < |p| ==> p[j] == s[j];
    var r, q := Fixed(p, ihl, oldIP, newIP, isTCP), Fixed(s, ihl, oldIP, newIP, isTCP);
    assert r[12..20] == q[12..20] && r[ihl..] == q[ihl..];
    CoveredSumFrame(r, q, ihl, len);
  }

  /** The transport checksum stays valid exactly when the uint32 of the update does not wrap. */
  lemma TransportIff(pkt: seq<byte>, at: nat, newIP: IPv4, len: nat)
    requires HasHeader(pkt) && (at == 12 || at == 16)
    requires Fixable(pkt, Ihl(pkt)).Some?
    requires var isTCP := Fixable(pkt, Ihl(pkt)).value;
             isTCP || Get16(pkt, ChecksumOffset(Ihl(pkt), isTCP)) != 0
    requires Verifies(CoveredSum(pkt, Ihl(pkt), len))
    ensures var ihl := Ihl(pkt);
            var off := ChecksumOffset(ihl, Fixable(pkt, ihl).value);
            var d := Delta(Get16(pkt, off), pkt[at..at + 4], newIP);
            var r := Readdressed(pkt, at, pkt[at..at + 4], newIP);
            && (Verifies(CoveredSum(r, ihl, len)) <==> d >= 0)
            && (d < 0 ==> CoveredSum(r, ihl, len) % 0xFFFF == 0xFFFE)
  {
    var ihl := Ihl(pkt);
    var isTCP := Fixable(pkt, ihl).value;
    RecheckIsTransparent(Splice(pkt, at, newIP), ihl, pkt[at..at + 4], newIP, isTCP, len);
    IncrementalFixIff(pkt, ihl, at, newIP, isTCP, len);
  }

  // ---- A packet whose checksum the rewrite breaks ----

  /** Header of a packet from 192.168.1.5 to 10.0.0.7; 0xAF1C is its checksum. */
  const SYN_HEADER: seq<byte> := [0x45, 0, 0, 40, 0, 0, 0, 0, 64, 6, 0xAF, 0x1C, 192, 168, 1, 5, 10, 0, 0, 7]

  /** A SYN from port 5000 to port 443; 0xCEEB is its checksum. */
  const SYN_SEGMENT: seq<byte> := [0x13, 0x88, 0x01, 0xBB, 0, 0, 0, 0, 0, 0, 0, 0, 0x50, 0x02, 0, 0, 0xCE, 0xEB, 0, 0]

  const SYN := SYN_HEADER + SYN_SEGMENT
  const SUBNET := Route([10, 0, 0, 0], 24)
  const SNAT_IP: IPv4 := [10, 0, 0, 1]

  lemma Sum8(s: seq<byte>)
    requires |s| == 8
    ensures Sum(s) == Get16(s, 0) + Get16(s, 2) + Get16(s, 4) + Get16(s, 6)
  {
    assert s[..0] == [] && s[..8] == s;
    SumTake2(s, 0);
    SumTake2(s, 2);
    SumTake2(s, 4);
    SumTake2(s, 6);
  }

  lemma Sum20(s: seq<byte>)
    requires |s| == 20
    ensures Sum(s) == Get16(s, 0) + Get16(s, 2) + Get16(s, 4) + Get16(s, 6) + Get16(s, 8)
                    + Get16(s, 10) + Get16(s, 12) + Get16(s, 14) + Get16(s, 16) + Get16(s, 18)
  {
    assert s == s[..12] + s[12..] && s[..12] == s[..4] + s[4..12];
    SumConcat(s[..12], s[12..]);
    SumConcat(s[..4], s[4..12]);
    Sum4(s[..4]);
    Sum8(s[4..12]);
    Sum8(s[12..]);
  }

  lemma SynSums()
    ensures Sum(SYN_HEADER) == 0x1_FFFE && Sum(SYN_SEGMENT) == 0x1_3430
  {
    Sum20(SYN_HEADER);
    Sum20(SYN_SEGMENT);
  }

  lemma SynFields()
    ensures |SYN| == 40 && HasHeader(SYN) && Ihl(SYN) == 20 && Fixable(SYN, 20) == Some(true)
    ensures Source(SYN) == [192, 168, 1, 5] && Destination(SYN) == [10, 0, 0, 7] && Get16(SYN, 36) == 0xCEEB
    ensures SYN[..20] == SYN_HEADER && SYN[20..] == SYN_SEGMENT
  {
    assert SYN[0] == 0x45 && Upper(0x45) == 4 && Lower(0x45) == 5;
    assert SYN[9] == 6 && SYN[36] == 0xCE && SYN[37] == 0xEB;
  }

  lemma SubnetHasTarget()
    ensures Contains(SUBNET, [10, 0, 0, 7]) && Routed([SUBNET], [10, 0, 0, 7])
  {
    assert Power(4) == 16 && Power(8) == 256;
    assert AddressValue([10, 0, 0, 0]) == 167772160 && AddressValue([10, 0, 0, 7]) == 167772167;
    assert Contains([SUBNET][0], [10, 0, 0, 7]);
  }

  /** Both checksums of the packet are the ones that computing them from scratch gives. */
  lemma SynIsValid()
    ensures Verifies(Sum(SYN[..20])) && CoveredSum(SYN, 20, 20) == 0x1_FFFE && Verifies(CoveredSum(SYN, 20, 20))
    ensures Get16(SYN, 36) == Not16(Residue(CoveredSum(Put16(SYN, 36, 0), 20, 20)))
  {
    SynFields();
    SynSums();
    var addresses: seq<byte> := [192, 168, 1, 5, 10, 0, 0, 7];
    assert SYN[12..20] == addresses;
    Sum8(addresses);
    assert Sum(SYN[12..20]) == 0xCBB4 && SYN[9] == 6;
    CoveredSumStore(SYN, 20, 36, 0, 20);
    assert Residue(0x1_3113) == 0x3114;
  }

  /** The wrap is reachable: applySNAT forwards this valid packet with an invalid TCP checksum. */
  lemma WrapIsReachable()
    ensures HasHeader(SYN) && Ihl(SYN) == 20 && Routed([SUBNET], Destination(SYN))
    ensures Verifies(Sum(SYN[..20])) && Verifies(CoveredSum(SYN, 20, 20))
    ensures Get16(SYN, 36) == Not16(Residue(CoveredSum(Put16(SYN, 36, 0), 20, 20)))
    ensures !Verifies(CoveredSum(Forwarded(SYN, [SUBNET], SNAT_IP), 20, 20))
  {
    SynFields();
    SynIsValid();
    SubnetHasTarget();
    assert Delta(0xCEEB, [192, 168, 1, 5], SNAT_IP) < 0;
    assert SYN[12..16] == [192, 168, 1, 5];
    TransportIff(SYN, 12, SNAT_IP, 20);
  }

  // ---- Replies over whole runs ----

  /** `q` is the answer of the remote end to packet `p`: addresses and ports swapped, request turned reply. */
  predicate Mirrors(q: seq<byte>, p: seq<byte>)
    requires HasHeader(p) && HasHeader(q)
  {
    var i, j := Ihl(p), Ihl(q);
    && Source(q) == Destination(p) && Destination(q) == Source(p) && q[9] == p[9]
    && if p[9] == 6 || p[9] == 17 then
         |p| >= i + 4 && |q| >= j + 4 && Get16(q, j) == Get16(p, i + 2) && Get16(q, j + 2) == Get16(p, i)
       else
         p[9] == 1 && |p| >= i + 6 && |q| >= j + 6 && p[i] == 8 && q[j] == 0 && Get16(q, j + 4) == Get16(p, i + 4)
  }

  /** applySNAT keeps the flow of a packet readable: protocol, destination and the first six transport bytes. */
  lemma ForwardedFields(p: seq<byte>, nets: seq<Route>, snat: IPv4)
    requires HasHeader(p) && Routed(nets, Destination(p))
    ensures var r := Forwarded(p, nets, snat);
            && HasHeader(r) && Ihl(r) == Ihl(p) && r[9] == p[9]
            && Destination(r) == Destination(p) && Source(r) == snat
            && forall j :: Ihl(p) <= j < Ihl(p) + 6 && j < |p| ==> r[j] == p[j]
  {
    ReaddressedFrame(p, 12, Source(p), snat);
    var r := Forwarded(p, nets, snat);
    assert r[9] == p[9];
    assert forall j :: 16 <= j < 20 ==> r[j] == p[j];
  }

  lemma ForwardedKey(p: seq<byte>, r: seq<byte>)
    requires HasHeader(p) && HasHeader(r) && |r| == |p| && Ihl(r) == Ihl(p) && r[9] == p[9]
    requires Destination(r) == Destination(p)
    requires forall j :: Ihl(p) <= j < Ihl(p) + 6 && j < |p| ==> r[j] == p[j]
    ensures ForwardKey(r) == ForwardKey(p)
  {
  }

  lemma MirrorKeys(q: seq<byte>, p: seq<byte>)
    requires HasHeader(p) && HasHeader(q) && Mirrors(q, p)
    ensures ForwardKey(p).Some? && ReplyKey(q) == ForwardKey(p)
  {
  }

  /** The answer to what applySNAT emitted names the flow that applySNAT recorded. */
  lemma MirrorNamesFlow(p: seq<byte>, nets: seq<Route>, snat: IPv4, q: seq<byte>)
    requires HasHeader(p) && Routed(nets, Destination(p))
    requires HasHeader(Forwarded(p, nets, snat)) && HasHeader(q) && Mirrors(q, Forwarded(p, nets, snat))
    ensures Answers(q, snat)
    ensures ForwardKey(p).Some? && ReplyKey(q) == ForwardKey(p)
  {
    var r := Forwarded(p, nets, snat);
    ForwardedFields(p, nets, snat);
    ForwardedKey(p, r);
    MirrorKeys(q, r);
  }

  /**
   A reply to the SNAT address is sent to the source of the latest forwarded packet of its mirrored
   flow, unless that flow has expired; a reply to anything else passes through unchanged.
   */
  lemma ReplyDestination(h: seq<Event>, snat: IPv4, q: seq<byte>)
    ensures !Answers(q, snat) ==> Returned(q, snat, TableAfter(h)) == q
    ensures Answers(q, snat) && NeverForwarded(h, ReplyKey(q).value) ==> Returned(q, snat, TableAfter(h)) == q
    ensures forall i: nat :: Answers(q, snat) && IsLastForward(h, ReplyKey(q).value, i) ==>
              if Unexpired(h, ReplyKey(q).value, i)
              then Destination(Returned(q, snat, TableAfter(h))) == h[i].src
              else Returned(q, snat, TableAfter(h)) == q
  {
    if Answers(q, snat) {
      var k := ReplyKey(q).value;
      if NeverForwarded(h, k) {
        NeverForwardedAbsent(h, k);
      }
      forall i: nat | IsLastForward(h, k, i)
        ensures if Unexpired(h, k, i)
                then Destination(Returned(q, snat, TableAfter(h))) == h[i].src
                else Returned(q, snat, TableAfter(h)) == q
      {
        TableIsLastForward(h, k, i);
        ReaddressedFrame(q, 16, snat, h[i].src);
      }
    }
  }

  /**
   Out and back: whatever ran before, and whatever ran since as long as it neither forwarded the same
   flow nor let it expire, the answer to a forwarded packet returns to that packet's original source.
   */
  lemma OutAndBack(before: seq<Event>, p: seq<byte>, nets: seq<Route>, snat: IPv4, now: int, since: seq<Event>, q: seq<byte>)
    requires HasHeader(p) && Routed(nets, Destination(p))
    requires HasHeader(Forwarded(p, nets, snat)) && HasHeader(q) && Mirrors(q, Forwarded(p, nets, snat))
    requires ForwardKey(p).Some? ==> NeverForwarded(since, ForwardKey(p).value)
    requires ForwardKey(p).Some? ==>
               Unexpired(before + ForwardEvents(p, nets, now) + since, ForwardKey(p).value, |before|)
    ensures Destination(Returned(q, snat, TableAfter(before + ForwardEvents(p, nets, now) + since))) == Source(p)
  {
    MirrorNamesFlow(p, nets, snat, q);
    var k := ForwardKey(p).value;
    LatestIs(before, Forward(k, Source(p), now), since, k);
    ReplyDestination(before + [Forward(k, Source(p), now)] + since, snat, q);
  }

  lemma LatestIs(before: seq<Event>, e: Event, since: seq<Event>, k: FlowKey)
    requires Forwards(e, k) && NeverForwarded(since, k)
    ensures IsLastForward(before + [e] + since, k, |before|)
  {
    var h := before + [e] + since;
    forall j | |before| < j < |h|
      ensures !Forwards(h[j], k)
    {
      assert h[j] == since[j - |before| - 1];
    }
  }
}
