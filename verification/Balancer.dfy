/** The peers of an upstream as a linked list, and one request's selections among them. */
module Balancers {
  import opened Tried

  class PeerNode {
    var data: Peer
    var next: PeerNode?

    constructor (data: Peer, next: PeerNode?)
      ensures this.data == data && this.next == next
    {
      this.data, this.next := data, next;
    }
  }

  /** The i-th peer of a list, and null after the last. */
  ghost function NodeAt(nodes: seq<PeerNode>, i: nat): PeerNode? { if i < |nodes| then nodes[i] else null }

  ghost function Data(nodes: seq<PeerNode>): (data: seq<Peer>)
    reads nodes`data
    ensures |data| == |nodes| && forall i :: 0 <= i < |nodes| ==> data[i] == nodes[i].data
  {
    if nodes == [] then [] else [nodes[0].data] + Data(nodes[1..])
  }

  class Balancer {
    const first: PeerNode?
    const tried: array<bv64>
    /** The configuration the request began with, and the peers' own, if they live in shared memory. */
    const config: int
    var peersConfig: int
    var inZone: bool
    var current: PeerNode?
    ghost const nodes: seq<PeerNode>

    ghost predicate Valid()
      reads this, nodes`next
    {
      && first == NodeAt(nodes, 0)
      && (forall i :: 0 <= i < |nodes| ==> nodes[i].next == NodeAt(nodes, i + 1))
      && (forall i, j :: 0 <= i < j < |nodes| ==> nodes[i] != nodes[j])
      && (!Stale() ==> |nodes| <= 64 * tried.Length)
    }

    ghost function Peers(): seq<Peer>
      reads nodes`data
    {
      Data(nodes)
    }

    predicate Stale()
      reads this
    {
      inZone && config != peersConfig
    }

    /** The walk along the list; a list too short gives null. */
    method FindPeer(index: nat) returns (peer: PeerNode?)
      requires Valid()
      ensures peer == NodeAt(nodes, index)
    {
      peer := first;
      var i := 0;
      while peer != null
        invariant i <= |nodes| && peer == NodeAt(nodes, i) && i <= index
        decreases |nodes| - i
      {
        if i == index {
          return;
        }
        peer := peer.next;
        i := i + 1;
      }
    }

    method SelectPeer(index: nat, now: int) returns (rc: int)
      requires Valid()
      modifies this`current, nodes`data, tried
      ensures Valid()
      ensures var (b, r) := Select(Balance(old(Peers()), old(tried[..]), -1), index, now, old(Stale()));
        && rc == r && Peers() == b.peers && tried[..] == b.tried
        && (rc == OK ==> current == NodeAt(nodes, b.current))
      ensures rc != OK ==> current == old(current)
      ensures inZone && config != peersConfig ==> rc == BUSY
    {
      hide Has, With, Data;
      if Stale() {
        return BUSY;
      }
      var peer := FindPeer(index);
      if peer == null {
        return ERROR;
      }
      var n, m := index / 64, index % 64;
      if Has(tried[n], m) {
        return BUSY;
      }
      assert Peers()[index] == peer.data;
      var busy := Busy(peer, now);
      if busy {
        return BUSY;
      }
      Take(peer, index, now);
      Mark(index);
      return OK;
    }

    /** Down, failed too often of late, or at its limit of connections. */
    method Busy(peer: PeerNode, now: int) returns (busy: bool)
      ensures busy <==> peer.data.down || peer.data.Barred(now) || peer.data.Saturated()
    {
      if peer.data.down {
        return true;
      }
      if peer.data.maxFails != 0 && peer.data.fails >= peer.data.maxFails && now - peer.data.checked <= peer.data.failTimeout {
        return true;
      }
      if peer.data.maxConns != 0 && peer.data.conns >= peer.data.maxConns {
        return true;
      }
      return false;
    }

    method Take(peer: PeerNode, ghost index: nat, now: int)
      requires Valid() && index < |nodes| && nodes[index] == peer
      modifies this`current, peer`data
      ensures Valid() && current == peer
      ensures Peers() == old(Peers())[index := old(Peers())[index].Taken(now)]
    {
      hide Data;
      current := peer;
      var data := peer.data.(refs := peer.data.refs + 1);
      if now - data.checked > data.failTimeout {
        data := data.(checked := now);
      }
      data := data.(conns := data.conns + 1);
      assert data == peer.data.Taken(now);
      hide Peer.Taken;
      Update(peer, index, data);
    }

    /** A write to one peer is a write to its place in the list. */
    method Update(peer: PeerNode, ghost index: nat, data: Peer)
      requires Valid() && index < |nodes| && nodes[index] == peer
      modifies peer`data
      ensures Valid() && peer.data == data && Peers() == old(Peers())[index := data] && old(Peers())[index] == old(peer.data)
    {
      hide Data;
      peer.data := data;
    }

    method Mark(index: nat)
      requires index / 64 < tried.Length
      modifies tried
      ensures tried[..] == Tried.Mark(old(tried[..]), index)
    {
      hide With;
      tried[index / 64] := With(tried[index / 64], index % 64);
    }
  }
}
