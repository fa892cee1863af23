/**
 * The process-wide controller (NDNController) as the Wi-Fi Direct layer sees
 * it. Its own code is not part of this model: its state is a handful of plain
 * fields, and every call it makes to the forwarding daemon, the named-data
 * face or the Wi-Fi Direct manager is appended to `effects` instead of being
 * performed.
 */
module Controller {
  import opened JavaLang

  /** The name under which a device announces itself as probeable. */
  const PROBE_PREFIX: string := "/localhop/wifidirect"

  /** A peer record as the controller keeps it. */
  datatype Peer = Peer(deviceAddress: string, name: string, numProbeTimeouts: int)

  /** One forwarding-table entry: a prefix and the face ids of its next hops. */
  datatype FibEntry = FibEntry(prefix: string, nextHops: seq<int>)

  /** Calls this node makes to the world outside the model. */
  datatype Effect =
    | RibRegister(faceId: int, prefixes: set<string>)
    | Unregister(prefix: string, faceId: int)
    | ExpressInterest(name: string, mustBeFresh: bool)
    | RemovePeer(ip: string)
    | RegisterOwnLocalhop
    | UnregisterOwnLocalhop
    | StartDiscoveringPeers
    | RequestPeers
    | RequestConnectionInfo
    | Connect(deviceAddress: string)
    | CreateFace(address: string)

  /** `getFaceIdForPeer`: the face towards the peer with that address, or -1. */
  function FaceIdForPeer(faceIdOf: map<string, int>, ip: Option<string>): int
  {
    if ip.Some? && ip.value in faceIdOf then faceIdOf[ip.value] else -1
  }

  /** Appending one more call to a log that grew from `start`. */
  lemma EffectsGrow(start: seq<Effect>, sent: seq<Effect>, e: Effect)
    ensures (start + sent) + [e] == start + (sent + [e])
  {
  }

  class NdnController {
    /** Device (MAC) addresses of the peers admitted to the group. */
    var connectedPeers: set<string>
    /** Network addresses of the peers the controller has logged. */
    var ipsOfLoggedPeers: set<string>
    /** Peer records by network address. */
    var peersByIp: map<string, Peer>
    /** Face ids towards peers, by network address. */
    var faceIdOf: map<string, int>
    var hasRegisteredOwnLocalhop: bool
    var isGroupOwner: bool
    /** Most peers `logConnectedPeer` admits. */
    const capacity: nat
    /** Every outbound call made so far, oldest first. */
    var effects: seq<Effect>

    constructor (capacity: nat)
      ensures this.capacity == capacity
      ensures connectedPeers == {} && ipsOfLoggedPeers == {}
      ensures peersByIp == map[] && faceIdOf == map[]
      ensures !hasRegisteredOwnLocalhop && !isGroupOwner
      ensures effects == []
    {
      this.capacity := capacity;
      connectedPeers, ipsOfLoggedPeers := {}, {};
      peersByIp, faceIdOf := map[], map[];
      hasRegisteredOwnLocalhop, isGroupOwner := false, false;
      effects := [];
    }

    method Emit(e: Effect)
      modifies this`effects
      ensures effects == old(effects) + [e]
    {
      effects := effects + [e];
    }

    /**
     * `logConnectedPeer`: admits the peer's device address while fewer than
     * `capacity` peers are admitted, and refuses it otherwise.
     */
    method LogConnectedPeer(peer: Peer) returns (accepted: bool)
      modifies this`connectedPeers
      ensures accepted <==> |old(connectedPeers)| < capacity
      ensures connectedPeers == if accepted then old(connectedPeers) + {peer.deviceAddress}
                                else old(connectedPeers)
    {
      accepted := |connectedPeers| < capacity;
      if accepted {
        connectedPeers := connectedPeers + {peer.deviceAddress};
      }
    }

    /**
     * `removePeer`: the record is no longer found by its network address.
     * What else the controller tears down is recorded, not modelled.
     */
    method RemovePeerByIp(ip: string)
      modifies this`peersByIp, this`effects
      ensures peersByIp == old(peersByIp) - {ip}
      ensures effects == old(effects) + [RemovePeer(ip)]
    {
      peersByIp := peersByIp - {ip};
      Emit(RemovePeer(ip));
    }

    /** `registerOwnLocalhop`: announces this device and remembers having done so. */
    method RegisterOwnLocalhopPrefix()
      modifies this`effects, this`hasRegisteredOwnLocalhop
      ensures hasRegisteredOwnLocalhop
      ensures effects == old(effects) + [RegisterOwnLocalhop]
    {
      Emit(RegisterOwnLocalhop);
      hasRegisteredOwnLocalhop := true;
    }
  }
}
