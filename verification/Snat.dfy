/**
 Userspace source NAT of the VPN device: packets of the peer leave with the SNAT address as their
 source, and replies to that address are sent back to the peer that the NAT table remembers.
 */
module Snat {
  import opened Options
  import opened Bytes
  import opened Checksum
  import opened Transport
  import opened FlowKeys
  import opened NatHistory

  // ---- Packets ----

  /** The IP header length in bytes. */
  function Ihl(pkt: seq<byte>): (n: nat)
    requires |pkt| > 0
    ensures n % 2 == 0 && n <= 60
  {
    4 * Lower(pkt[0])
  }

  /** An IPv4 packet whose whole header is present. */
  predicate HasHeader(pkt: seq<byte>) {
    |pkt| >= 20 && Upper(pkt[0]) == 4 && 20 <= Ihl(pkt) <= |pkt|
  }

  function Source(pkt: seq<byte>): (ip: IPv4)
    requires |pkt| >= 20
  {
    pkt[12..16]
  }

  function Destination(pkt: seq<byte>): (ip: IPv4)
    requires |pkt| >= 20
  {
    pkt[16..20]
  }

  /** A routed subnet in CIDR form. */
  datatype Route = Route(base: IPv4, bits: nat)

  function AddressValue(ip: IPv4): (v: nat) {
    ((ip[0] as int * 0x100 + ip[1]) * 0x100 + ip[2]) * 0x100 + ip[3]
  }

  /** net.IPNet.Contains: the network parts agree. */
  predicate Contains(r: Route, ip: IPv4) {
    var host := Power(if r.bits <= 32 then 32 - r.bits else 0);
    AddressValue(r.base) / host == AddressValue(ip) / host
  }

  predicate Routed(nets: seq<Route>, ip: IPv4) {
    exists i :: 0 <= i < |nets| && Contains(nets[i], ip)
  }

  /** The flow of a packet on its way out, if it is one the table tracks. */
  function ForwardKey(pkt: seq<byte>): (k: Option<FlowKey>)
    requires HasHeader(pkt)
  {
    var ihl, proto := Ihl(pkt), pkt[9];
    if proto == 6 || proto == 17 then
      if |pkt| >= ihl + 4
      then Some(Ports(proto, Destination(pkt), Get16(pkt, ihl + 2), Get16(pkt, ihl)))
      else None
    else if proto == 1 && |pkt| >= ihl + 6 && pkt[ihl] == 8
    then Some(Echo(Destination(pkt), Get16(pkt, ihl + 4)))
    else None
  }

  /** The outgoing flow that a packet answers, if it is one the table tracks. */
  function ReplyKey(pkt: seq<byte>): (k: Option<FlowKey>)
    requires HasHeader(pkt)
  {
    var ihl, proto := Ihl(pkt), pkt[9];
    if proto == 6 || proto == 17 then
      if |pkt| >= ihl + 4
      then Some(Ports(proto, Source(pkt), Get16(pkt, ihl), Get16(pkt, ihl + 2)))
      else None
    else if proto == 1 && |pkt| >= ihl + 6 && pkt[ihl] == 0
    then Some(Echo(Source(pkt), Get16(pkt, ihl + 4)))
    else None
  }

  /** Zero the header checksum, recompute it, store it. */
  function Rechecked(pkt: seq<byte>, ihl: nat): (r: seq<byte>)
    requires 20 <= ihl <= |pkt|
    ensures |r| == |pkt|
  {
    var z := Put16(pkt, 10, 0);
    Put16(z, 10, Value(z[..ihl]))
  }

  /** Which transport checksum a packet has room for: TCP, UDP or none. */
  function Fixable(pkt: seq<byte>, ihl: nat): (isTCP: Option<bool>)
    requires |pkt| >= 20
  {
    if pkt[9] == 6 && |pkt| >= ihl + 18 then Some(true)
    else if pkt[9] == 17 && |pkt| >= ihl + 8 then Some(false)
    else None
  }

  /** The address at `at` replaced and both checksums brought up to date. */
  function Readdressed(pkt: seq<byte>, at: nat, oldIP: IPv4, newIP: IPv4): (r: seq<byte>)
    requires HasHeader(pkt) && (at == 12 || at == 16)
    ensures |r| == |pkt|
  {
    var ihl := Ihl(pkt);
    var p := Rechecked(Splice(pkt, at, newIP), ihl);
    match Fixable(pkt, ihl)
    case Some(isTCP) => Fixed(p, ihl, oldIP, newIP, isTCP)
    case None => p
  }

  /** The packet that leaves applySNAT. */
  function Forwarded(pkt: seq<byte>, nets: seq<Route>, snat: IPv4): (r: seq<byte>)
    ensures |r| == |pkt|
  {
    if HasHeader(pkt) && Routed(nets, Destination(pkt))
    then Readdressed(pkt, 12, Source(pkt), snat)
    else pkt
  }

  function ForwardEvents(pkt: seq<byte>, nets: seq<Route>, now: int): (es: seq<Event>) {
    if HasHeader(pkt) && Routed(nets, Destination(pkt)) && ForwardKey(pkt).Some?
    then [Forward(ForwardKey(pkt).value, Source(pkt), now)]
    else []
  }

  predicate Answers(pkt: seq<byte>, snat: IPv4) {
    HasHeader(pkt) && Destination(pkt) == snat && ReplyKey(pkt).Some?
  }

  /** The packet that leaves applyReverseSNAT. */
  function Returned(pkt: seq<byte>, snat: IPv4, t: NatTable): (r: seq<byte>)
    ensures |r| == |pkt|
  {
    if Answers(pkt, snat) && Print(ReplyKey(pkt).value) in t
    then Readdressed(pkt, 16, snat, t[Print(ReplyKey(pkt).value)].originalSrc)
    else pkt
  }

  function ReplyEvents(pkt: seq<byte>, snat: IPv4, now: int): (es: seq<Event>) {
    if Answers(pkt, snat) then [Reply(ReplyKey(pkt).value, now)] else []
  }

  // ---- The device ----

  method Readdress(pkt: array<byte>, ihl: nat, at: nat, oldIP: IPv4, newIP: IPv4)
    requires HasHeader(pkt[..]) && ihl == Ihl(pkt[..])
    requires at == 12 || at == 16
    modifies pkt
    ensures pkt[..] == Readdressed(old(pkt[..]), at, oldIP, newIP)
  {
    var proto := pkt[9];
    StoreBytes(pkt, at, newIP);
    pkt[10], pkt[11] := 0, 0;
    ghost var z := Put16(Splice(old(pkt[..]), at, newIP), 10, 0);
    assert pkt[..] == z;
    var cksum := Compute(pkt[..ihl]);
    assert pkt[..ihl] == z[..ihl];
    StoreWord(pkt, 10, cksum);
    assert pkt[..] == Rechecked(Splice(old(pkt[..]), at, newIP), ihl);
    if proto == 6 && pkt.Length >= ihl + 18 {
      FixTransportChecksum(pkt, ihl, oldIP, newIP, true);
    } else if proto == 17 && pkt.Length >= ihl + 8 {
      FixTransportChecksum(pkt, ihl, oldIP, newIP, false);
    }
  }

  class TunDevice {
    var routeNets: seq<Route>
    var snatIP: IPv4
    var natTable: NatTable
    /** Everything that ever happened to the table. */
    ghost var history: seq<Event>

    ghost predicate Valid()
      reads this
    {
      natTable == TableAfter(history)
    }

    constructor (nets: seq<Route>, snat: IPv4)
      ensures Valid() && routeNets == nets && snatIP == snat && natTable == map[] && history == []
    {
      routeNets, snatIP, natTable, history := nets, snat, map[], [];
    }

    method InRoute(dst: IPv4) returns (yes: bool)
      ensures yes <==> Routed(routeNets, dst)
    {
      for i := 0 to |routeNets|
        invariant forall j :: 0 <= j < i ==> !Contains(routeNets[j], dst)
      {
        if Contains(routeNets[i], dst) {
          return true;
        }
      }
      return false;
    }

    ghost method Log(es: seq<Event>, before: NatTable)
      requires before == TableAfter(history)
      requires |es| <= 1 && natTable == if es == [] then before else Step(before, es[0])
      modifies this`history
      ensures Valid() && history == old(history) + es
    {
      if es != [] {
        TableAfterSnoc(history, es[0]);
        assert es == [es[0]];
      } else {
        assert history + es == history;
      }
      history := history + es;
    }

    method ApplySNAT(pkt: array<byte>, now: int)
      requires Valid()
      modifies pkt, this`natTable, this`history
      ensures Valid()
      ensures pkt[..] == Forwarded(old(pkt[..]), routeNets, snatIP)
      ensures history == old(history) + ForwardEvents(old(pkt[..]), routeNets, now)
    {
      ghost var before, p := natTable, pkt[..];
      if pkt.Length < 20 || Upper(pkt[0]) != 4 {
        Log([], before);
        return;
      }
      var ihl := 4 * Lower(pkt[0]);
      if ihl < 20 || pkt.Length < ihl {
        Log([], before);
        return;
      }
      var dst: IPv4 := pkt[16..20];
      var inRoute := InRoute(dst);
      if !inRoute {
        Log([], before);
        return;
      }
      var origSrc: IPv4 := pkt[12..16];
      var key := ForwardKey(pkt[..]);
      if key.Some? {
        natTable := natTable[Print(key.value) := NatEntry(origSrc, now)];
      }
      Log(ForwardEvents(p, routeNets, now), before);
      Readdress(pkt, ihl, 12, origSrc, snatIP);
    }

    method ApplyReverseSNAT(pkt: array<byte>, now: int)
      requires Valid()
      modifies pkt, this`natTable, this`history
      ensures Valid()
      ensures pkt[..] == Returned(old(pkt[..]), snatIP, old(natTable))
      ensures history == old(history) + ReplyEvents(old(pkt[..]), snatIP, now)
    {
      ghost var before, p := natTable, pkt[..];
      if pkt.Length < 20 || Upper(pkt[0]) != 4 {
        Log([], before);
        return;
      }
      var ihl := 4 * Lower(pkt[0]);
      if ihl < 20 || pkt.Length < ihl {
        Log([], before);
        return;
      }
      if pkt[16..20] != snatIP {
        Log([], before);
        return;
      }
      var key := ReplyKey(pkt[..]);
      if key.None? {
        Log([], before);
        return;
      }
      var name := Print(key.value);
      if name !in natTable {
        Log(ReplyEvents(p, snatIP, now), before);
        return;
      }
      var origDst := natTable[name].originalSrc;
      natTable := natTable[name := natTable[name].(lastSeen := now)];
      Log(ReplyEvents(p, snatIP, now), before);
      Readdress(pkt, ihl, 16, snatIP, origDst);
    }

    /** The table entry that handleICMP makes for an echo request; `sent` says whether it could be sent on. */
    method RecordEcho(pkt: seq<byte>, sent: bool, now: int) returns (handled: bool)
      requires Valid()
      requires HasHeader(pkt) && pkt[9] == 1
      modifies this`natTable, this`history
      ensures Valid()
      ensures handled <==> |pkt| >= Ihl(pkt) + 8 && pkt[Ihl(pkt)] == 8 && sent
      ensures history == old(history) + (if handled then [Forward(ForwardKey(pkt).value, Source(pkt), now)] else [])
    {
      ghost var before := natTable;
      var ihl := Ihl(pkt);
      if |pkt| < ihl + 8 || pkt[ihl] != 8 || !sent {
        Log([], before);
        return false;
      }
      var key := Echo(pkt[16..20], Get16(pkt, ihl + 4));
      natTable := natTable[Print(key) := NatEntry(pkt[12..16], now)];
      Log([Forward(key, Source(pkt), now)], before);
      return true;
    }

    method CleanupNATTable(now: int)
      requires Valid()
      modifies this`natTable, this`history
      ensures Valid() && history == old(history) + [Expire(now)]
    {
      ghost var before := natTable;
      var cutoff := now - MAX_AGE;
      var todo := natTable.Keys;
      while todo != {}
        invariant todo <= natTable.Keys <= before.Keys
        invariant forall s :: s in natTable ==> natTable[s] == before[s]
        invariant forall s :: s in before && s !in todo ==> (s in natTable <==> before[s].lastSeen >= cutoff)
        decreases todo
        modifies this`natTable
      {
        var s :| s in todo;
        todo := todo - {s};
        if natTable[s].lastSeen < cutoff {
          natTable := natTable - {s};
        }
      }
      assert natTable == Step(before, Expire(now));
      Log([Expire(now)], before);
    }
  }
}
