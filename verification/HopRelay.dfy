/** The middle peer of a multi-hop forward: it bridges a tunnel from the origin to a tunnel to the target. */
module HopRelay {
  import opened Bytes

  type Payload = seq<byte>

  datatype Bridge = Bridge(hopID: string, inID: string, outID: string, origin: string, target: string)

  /** Relay messages, by the handler that they reach. */
  datatype Msg =
    | Open(id: string)
    | Opened(id: string)
    | Data(id: string, bytes: Payload)
    | Close(id: string)
    | Rejected(id: string)
    | HopAccept(hopID: string, inID: string)
    | HopReject(hopID: string)

  datatype Packet = Packet(peer: string, msg: Msg)

  /** c.hops and c.hopBridgeByTunnel. */
  datatype Table = Table(hops: map<string, Bridge>, byTunnel: map<string, Bridge>)

  /** Where a message that came in under `id` goes: the peer and tunnel id of the other side. */
  function OtherPeer(b: Bridge, id: string): (peer: string) {
    if id == b.inID then b.target else b.origin
  }

  function OtherID(b: Bridge, id: string): (other: string) {
    if id == b.inID then b.outID else b.inID
  }

  function Registered(t: Table, b: Bridge): (r: Table) {
    Table(t.hops[b.hopID := b], t.byTunnel[b.inID := b][b.outID := b])
  }

  function Dropped(t: Table, b: Bridge): (r: Table) {
    Table(t.hops - {b.hopID}, t.byTunnel - {b.inID, b.outID})
  }

  // ---- What B does with each message ----

  /** handleTunnelData: what is sent on. */
  function DataOut(t: Table, id: string, bytes: Payload): (out: seq<Packet>) {
    if id in t.byTunnel then [Packet(OtherPeer(t.byTunnel[id], id), Data(OtherID(t.byTunnel[id], id), bytes))] else []
  }

  function AfterClose(t: Table, id: string): (r: Table) {
    if id in t.byTunnel then Dropped(t, t.byTunnel[id]) else t
  }

  /** handleCloseTunnel: the close goes on to the other side of a bridge. */
  function CloseOut(t: Table, id: string): (out: seq<Packet>) {
    if id in t.byTunnel then [Packet(OtherPeer(t.byTunnel[id], id), Close(OtherID(t.byTunnel[id], id)))] else []
  }

  /** handleTunnelRejected: the origin learns that the hop failed. */
  function RejectOut(t: Table, id: string): (out: seq<Packet>) {
    if id in t.byTunnel then [Packet(t.byTunnel[id].origin, HopReject(t.byTunnel[id].hopID))] else []
  }

  /** The index holds both ids of a bridge or neither, and each leads to that bridge. */
  ghost predicate Paired(t: Table) {
    forall id :: id in t.byTunnel ==>
      var b := t.byTunnel[id];
      && (id == b.inID || id == b.outID) && b.inID != b.outID
      && b.inID in t.byTunnel && t.byTunnel[b.inID] == b
      && b.outID in t.byTunnel && t.byTunnel[b.outID] == b
  }

  class Relay {
    var hops: map<string, Bridge>
    var byTunnel: map<string, Bridge>
    var allowForward: bool
    var allowHopRelay: bool
    /** Messages handed to sendRelay. */
    var sent: seq<Packet>

    ghost function View(): (t: Table)
      reads this
    {
      Table(hops, byTunnel)
    }

    ghost predicate Valid()
      reads this
    {
      Paired(View())
    }

    constructor (allowForward: bool, allowHopRelay: bool)
      ensures Valid() && View() == Table(map[], map[]) && sent == []
    {
      hops, byTunnel, sent := map[], map[], [];
      this.allowForward, this.allowHopRelay := allowForward, allowHopRelay;
    }

    /** `inID` and `outID` are the two generated ids; `reachable` says whether open_tunnel could be sent. */
    method HandleHopForward(from: string, hopID: string, target: string, auto: bool,
                            inID: string, outID: string, reachable: bool) returns (accepted: bool)
      requires Valid() && inID != outID && inID !in byTunnel && outID !in byTunnel
      modifies this`hops, this`byTunnel, this`sent
      ensures Valid()
      ensures accepted <==> (if auto then allowHopRelay else allowForward) && reachable
      ensures accepted ==>
                && View() == Registered(old(View()), Bridge(hopID, inID, outID, from, target))
                && sent == old(sent) + [Packet(target, Open(outID)), Packet(from, HopAccept(hopID, inID))]
      ensures !accepted ==>
                && byTunnel == old(byTunnel)
                && hops == (if (if auto then allowHopRelay else allowForward) then old(hops) - {hopID} else old(hops))
                && sent == old(sent) + [Packet(from, HopReject(hopID))]
    {
      if auto && !allowHopRelay {
        sent := sent + [Packet(from, HopReject(hopID))];
        return false;
      }
      if !auto && !allowForward {
        sent := sent + [Packet(from, HopReject(hopID))];
        return false;
      }
      var b := Bridge(hopID, inID, outID, from, target);
      hops := hops[hopID := b];
      byTunnel := byTunnel[inID := b][outID := b];
      if !reachable {
        hops := hops - {hopID};
        byTunnel := byTunnel - {inID} - {outID};
        assert byTunnel == old(byTunnel) && hops == old(hops) - {hopID};
        sent := sent + [Packet(from, HopReject(hopID))];
        return false;
      }
      sent := sent + [Packet(target, Open(outID)), Packet(from, HopAccept(hopID, inID))];
      return true;
    }

    method HandleTunnelData(id: string, bytes: Payload) returns (isHop: bool)
      requires Valid()
      modifies this`sent
      ensures Valid() && (isHop <==> id in byTunnel) && sent == old(sent) + DataOut(View(), id, bytes)
    {
      if id !in byTunnel {
        return false;
      }
      var b := byTunnel[id];
      var peer, tunnel;
      if id == b.inID {
        peer, tunnel := b.target, b.outID;
      } else {
        peer, tunnel := b.origin, b.inID;
      }
      sent := sent + [Packet(peer, Data(tunnel, bytes))];
      return true;
    }

    method HandleCloseTunnel(id: string) returns (isHop: bool)
      requires Valid()
      modifies this`hops, this`byTunnel, this`sent
      ensures Valid() && View() == AfterClose(old(View()), id)
      ensures (isHop <==> id in old(byTunnel)) && sent == old(sent) + CloseOut(old(View()), id)
    {
      CloseKeepsPairs(View(), id);
      if id !in byTunnel {
        return false;
      }
      var b := byTunnel[id];
      byTunnel := byTunnel - {b.inID, b.outID};
      hops := hops - {b.hopID};
      if id == b.inID {
        sent := sent + [Packet(b.target, Close(b.outID))];
      } else {
        sent := sent + [Packet(b.origin, Close(b.inID))];
      }
      return true;
    }

    method HandleTunnelRejected(id: string) returns (isHop: bool)
      requires Valid()
      modifies this`hops, this`byTunnel, this`sent
      ensures Valid() && View() == AfterClose(old(View()), id)
      ensures (isHop <==> id in old(byTunnel)) && sent == old(sent) + RejectOut(old(View()), id)
    {
      CloseKeepsPairs(View(), id);
      if id !in byTunnel {
        return false;
      }
      var b := byTunnel[id];
      byTunnel := byTunnel - {b.inID, b.outID};
      hops := hops - {b.hopID};
      sent := sent + [Packet(b.origin, HopReject(b.hopID))];
      return true;
    }
  }

  lemma CloseKeepsPairs(t: Table, id: string)
    requires Paired(t)
    ensures Paired(AfterClose(t, id))
    ensures id in t.byTunnel ==> t.byTunnel[id].inID !in AfterClose(t, id).byTunnel && t.byTunnel[id].outID !in AfterClose(t, id).byTunnel
  {
    var r := AfterClose(t, id);
    if id in t.byTunnel {
      var b := t.byTunnel[id];
      forall x | x in r.byTunnel
        ensures r.byTunnel[x].inID in r.byTunnel && r.byTunnel[x].outID in r.byTunnel
      {
        assert x in t.byTunnel && t.byTunnel[x] != b;
      }
    }
  }

  /** Swapping sides twice leads back. */
  lemma SwapTwice(t: Table, id: string)
    requires Paired(t) && id in t.byTunnel
    ensures var b := t.byTunnel[id];
            && OtherID(b, id) in t.byTunnel && t.byTunnel[OtherID(b, id)] == b
            && OtherID(b, OtherID(b, id)) == id && OtherID(b, id) != id
            && OtherPeer(b, OtherID(b, id)) == if id == b.inID then b.origin else b.target
  {
  }
}
