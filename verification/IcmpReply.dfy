/** Echo replies that the subnet proxy builds for the peer. */
module IcmpReply {
  import opened Options
  import opened Bytes
  import opened Checksum
  import opened FlowKeys
  import opened NatHistory
  import opened Snat

  /** Storing the checksum in a field that is still zero makes the message verify. */
  lemma StoreInZeroed(s: seq<byte>, i: nat)
    requires i + 2 <= |s| && i % 2 == 0 && |s| <= 131074
    requires s[i] == 0 && s[i + 1] == 0
    ensures Verifies(Sum(Put16(s, i, Not16(Residue(Wrap32(Sum(s)))))))
  {
    NoWrap(s);
    ZeroedVerifies(s, i);
  }

  lemma ZeroedVerifies(s: seq<byte>, i: nat)
    requires i + 2 <= |s| && i % 2 == 0 && s[i] == 0 && s[i + 1] == 0
    ensures Verifies(Sum(Put16(s, i, Value(s))))
  {
    assert Sum(Put16(s, i, Value(s))) == Sum(s) + Value(s) by {
      SumPut16(s, i, Value(s));
    }
    ComplementVerifies(Sum(s));
  }

  /** What an echo reply from `src` to `dst` looks like. */
  predicate IsEchoReply(r: seq<byte>, src: IPv4, dst: IPv4, id: u16, seqNo: u16, data: seq<byte>) {
    && |r| == 28 + |data|
    && HasHeader(r) && Ihl(r) == 20
    && Get16(r, 2) == (28 + |data|) % 0x1_0000
    && r[8] == 64 && r[9] == 1
    && Source(r) == src && Destination(r) == dst
    && r[0] == 0x45 && r[1] == 0 && r[4] == r[5] == r[6] == r[7] == 0
    && r[20] == 0 && r[21] == 0
    && Get16(r, 24) == id && Get16(r, 26) == seqNo
    && r[28..] == data
  }

  /** The fields of the IPv4 header other than the checksum, and zeroes where the message goes. */
  predicate HeaderFields(p: seq<byte>, src: IPv4, dst: IPv4) {
    && |p| >= 28 && HasHeader(p) && Ihl(p) == 20
    && Get16(p, 2) == |p| % 0x1_0000
    && p[8] == 64 && p[9] == 1 && p[12..16] == src && p[16..20] == dst
    && p[0] == 0x45 && p[1] == 0 && p[4] == p[5] == p[6] == p[7] == 0
    && forall j :: 20 <= j < |p| ==> p[j] == 0
  }

  /** The IPv4 header of the reply, checksum included, in a zeroed buffer. */
  method FillHeader(pkt: array<byte>, src: IPv4, dst: IPv4)
    requires pkt.Length >= 28 && forall j :: 0 <= j < pkt.Length ==> pkt[j] == 0
    modifies pkt
    ensures HeaderFields(pkt[..], src, dst) && Verifies(Sum(pkt[..20]))
  {
    FillFields(pkt, src, dst);
    ghost var p := pkt[..];
    var cksum := Compute(pkt[..20]);
    assert pkt[..20] == p[..20];
    StoreWord(pkt, 10, cksum);
    HeaderFilled(p, pkt[..], src, dst, cksum);
    assert pkt[..20] == pkt[..][..20];
  }

  method FillFields(pkt: array<byte>, src: IPv4, dst: IPv4)
    requires pkt.Length >= 28 && forall j :: 0 <= j < pkt.Length ==> pkt[j] == 0
    modifies pkt
    ensures HeaderFields(pkt[..], src, dst) && pkt[10] == pkt[11] == 0
  {
    pkt[0] := 0x45;
    StoreWord(pkt, 2, pkt.Length % 0x1_0000);
    pkt[8] := 64;
    pkt[9] := 1;
    StoreBytes(pkt, 12, src);
    StoreBytes(pkt, 16, dst);
    ghost var p := pkt[..];
    assert p[12..16] == src && p[16..20] == dst;
    assert Upper(0x45) == 4 && Lower(0x45) == 5;
  }

  lemma HeaderFilled(p: seq<byte>, q: seq<byte>, src: IPv4, dst: IPv4, cksum: u16)
    requires HeaderFields(p, src, dst) && p[10] == 0 && p[11] == 0
    requires q == Put16(p, 10, cksum) && cksum == Not16(Residue(Wrap32(Sum(p[..20]))))
    ensures HeaderFields(q, src, dst) && Verifies(Sum(q[..20]))
  {
    StoreInZeroed(p[..20], 10);
    assert q[..20] == Put16(p[..20], 10, cksum);
    assert q[12..16] == p[12..16] && q[16..20] == p[16..20];
  }

  /** buildICMPReplyPacket: both checksums of every reply it builds verify. */
  method BuildICMPReply(src: IPv4, dst: IPv4, id: u16, seqNo: u16, data: seq<byte>) returns (r: seq<byte>)
    ensures IsEchoReply(r, src, dst, id, seqNo, data)
    ensures Verifies(Sum(r[..20]))
    ensures |data| <= 131066 ==> Verifies(Sum(r[20..]))
  {
    var pkt := new byte[28 + |data|](_ => 0);
    FillHeader(pkt, src, dst);
    ghost var h := pkt[..];
    StoreWord(pkt, 24, id);
    StoreWord(pkt, 26, seqNo);
    StoreBytes(pkt, 28, data);
    ghost var p := pkt[..];
    EchoFilled(h, p, src, dst, id, seqNo, data);
    var cksum := Compute(pkt[20..]);
    assert pkt[20..] == p[20..];
    StoreWord(pkt, 22, cksum);
    r := pkt[..];
    FinishEcho(p, r, cksum, src, dst, id, seqNo, data);
  }

  /** Identifier, sequence number and data, stored in a packet that so far holds a header and zeroes. */
  lemma EchoFilled(h: seq<byte>, p: seq<byte>, src: IPv4, dst: IPv4, id: u16, seqNo: u16, data: seq<byte>)
    requires |h| == 28 + |data| && HeaderFields(h, src, dst)
    requires p == Splice(Put16(Put16(h, 24, id), 26, seqNo), 28, data)
    ensures IsEchoReply(p, src, dst, id, seqNo, data) && p[..20] == h[..20] && p[22] == 0 && p[23] == 0
  {
    var g := Put16(h, 24, id);
    var f := Put16(g, 26, seqNo);
    assert forall j :: 0 <= j < 24 ==> p[j] == h[j];
    assert p[12..16] == h[12..16] && p[16..20] == h[16..20];
    assert p[24] == g[24] && p[25] == g[25] && p[26] == f[26] && p[27] == f[27];
  }

  lemma FinishEcho(p: seq<byte>, r: seq<byte>, cksum: u16, src: IPv4, dst: IPv4, id: u16, seqNo: u16, data: seq<byte>)
    requires IsEchoReply(p, src, dst, id, seqNo, data)
    requires p[22] == 0 && p[23] == 0 && r == Put16(p, 22, cksum)
    requires cksum == Not16(Residue(Wrap32(Sum(p[20..]))))
    ensures IsEchoReply(r, src, dst, id, seqNo, data)
    ensures r[..20] == p[..20]
    ensures |data| <= 131066 ==> Verifies(Sum(r[20..]))
  {
    assert r[..20] == p[..20] && r[28..] == p[28..];
    assert r[12..16] == r[..20][12..16] && r[16..20] == r[..20][16..20];
    assert forall j :: 0 <= j < 20 ==> r[j] == p[j];
    assert r[20..] == Put16(p[20..], 2, cksum);
    if |data| <= 131066 {
      StoreInZeroed(p[20..], 2);
    }
  }

  /**
   One turn of icmpReadLoop: an echo reply of `remote` is passed on exactly when its flow is live, and
   then to whoever last pinged that host under that id.
   */
  method AnswerEcho(dev: TunDevice, remote: IPv4, id: u16, seqNo: u16, data: seq<byte>) returns (r: Option<seq<byte>>)
    requires dev.Valid()
    ensures NeverForwarded(dev.history, Echo(remote, id)) ==> r.None?
    ensures forall i: nat :: IsLastForward(dev.history, Echo(remote, id), i) ==>
              && (r.Some? <==> Unexpired(dev.history, Echo(remote, id), i))
              && (r.Some? ==> IsEchoReply(r.value, remote, dev.history[i].src, id, seqNo, data))
    ensures r.Some? ==> |r.value| == 28 + |data| && Verifies(Sum(r.value[..20])) && (|data| <= 131066 ==> Verifies(Sum(r.value[20..])))
  {
    ghost var k := Echo(remote, id);
    if NeverForwarded(dev.history, k) {
      NeverForwardedAbsent(dev.history, k);
    }
    forall i: nat | IsLastForward(dev.history, k, i)
      ensures Print(k) in dev.natTable <==> Unexpired(dev.history, k, i)
      ensures Print(k) in dev.natTable ==> dev.natTable[Print(k)].originalSrc == dev.history[i].src
    {
      TableIsLastForward(dev.history, k, i);
    }
    var key := Print(Echo(remote, id));
    if key !in dev.natTable {
      return None;
    }
    var pkt := BuildICMPReply(remote, dev.natTable[key].originalSrc, id, seqNo, data);
    return Some(pkt);
  }
}
