/**
 * The Wi-Fi Direct broadcast receiver: it diffs the device list the platform
 * reports against the admitted peers, admits newcomers up to the controller's
 * capacity and connects to them, and, once a group has formed, records the
 * addresses, announces this device and, as a client, opens a face towards
 * the group owner.
 */
module WDBroadcastReceiver {
  import opened JavaLang
  import opened Controller

  /** A device in a peer list the platform reports. */
  datatype Device = Device(deviceAddress: string, deviceName: string)

  /** The broadcasts the receiver tells apart. */
  datatype Action =
    | P2pStateChanged
    | PeersChanged
    | ConnectionChanged(isConnected: bool)
    | ThisDeviceChanged
    | DiscoveryChanged
    | OtherAction

  /** What the platform reports once connection information is available. */
  datatype ConnectionInfo = ConnectionInfo(groupFormed: bool, groupOwnerAddress: string, isGroupOwner: bool)

  /** The device addresses in a reported peer list. */
  function Reported(devices: seq<Device>): set<string>
  {
    set i | 0 <= i < |devices| :: devices[i].deviceAddress
  }

  /** The reported devices keyed by device address; a later duplicate replaces an earlier one. */
  function DevicesByAddress(devices: seq<Device>): map<string, Device>
  {
    if devices == [] then map[]
    else
      var d := devices[|devices| - 1];
      DevicesByAddress(devices[..|devices| - 1])[d.deviceAddress := d]
  }

  lemma {:induction false} DevicesByAddressKeys(devices: seq<Device>)
    ensures DevicesByAddress(devices).Keys == Reported(devices)
    ensures forall a | a in DevicesByAddress(devices) :: DevicesByAddress(devices)[a].deviceAddress == a
  {
    if devices != [] {
      var init := devices[..|devices| - 1];
      DevicesByAddressKeys(init);
      assert Reported(devices) == Reported(init) + {devices[|devices| - 1].deviceAddress} by {
        forall a | a in Reported(devices) ensures a in Reported(init) + {devices[|devices| - 1].deviceAddress} {
          var i :| 0 <= i < |devices| && devices[i].deviceAddress == a;
          if i < |init| { assert init[i] == devices[i]; }
        }
        forall a | a in Reported(init) ensures a in Reported(devices) {
          var i :| 0 <= i < |init| && init[i].deviceAddress == a;
          assert devices[i] == init[i];
        }
      }
    }
  }

  /** The platform requests a broadcast makes, given whether the manager exists. */
  function Requests(action: Action, hasManager: bool): seq<Effect>
  {
    match action
    case PeersChanged => if hasManager then [RequestPeers] else []
    case ConnectionChanged(isConnected) => if hasManager && isConnected then [RequestConnectionInfo] else []
    case _ => []
  }

  /** A broadcast without a Wi-Fi Direct manager requests nothing. */
  lemma NullManagerIgnored(action: Action)
    ensures Requests(action, false) == []
  {
  }

  /** `cs` connects to every address of `addresses`, each exactly once. */
  predicate IsConnectBatch(cs: seq<Effect>, addresses: set<string>)
  {
    && (forall i | 0 <= i < |cs| :: cs[i].Connect?)
    && (forall i, j | 0 <= i < j < |cs| && cs[i].Connect? && cs[j].Connect? ::
          cs[i].deviceAddress != cs[j].deviceAddress)
    && (set i | 0 <= i < |cs| && cs[i].Connect? :: cs[i].deviceAddress) == addresses
  }

  /** One connect call per address, in order. */
  function ConnectsTo(order: seq<string>): seq<Effect>
  {
    seq(|order|, i requires 0 <= i < |order| => Connect(order[i]))
  }

  lemma ConnectsToSnoc(order: seq<string>, a: string)
    ensures ConnectsTo(order + [a]) == ConnectsTo(order) + [Connect(a)]
  {
  }

  /** Connecting to distinct addresses one after the other is a connect batch. */
  lemma ConnectsToIsBatch(order: seq<string>, addresses: set<string>)
    requires forall i, j | 0 <= i < j < |order| :: order[i] != order[j]
    requires forall a :: a in order <==> a in addresses
    ensures IsConnectBatch(ConnectsTo(order), addresses)
  {
    var cs := ConnectsTo(order);
    var got := set i | 0 <= i < |cs| && cs[i].Connect? :: cs[i].deviceAddress;
    forall a | a in addresses ensures a in got {
      var i :| 0 <= i < |order| && order[i] == a;
      assert cs[i].deviceAddress == a;
    }
  }

  /**
   * The state of the admission walk over the newcomers `all`: `keys` are
   * still to be offered, `admitted` were accepted, in the order `order`, on
   * top of the peers `kept` from before, and `full` records a refusal.
   */
  ghost predicate AdmissionWalk(all: set<string>, keys: set<string>, admitted: set<string>, full: bool,
                                kept: set<string>, connected: set<string>, order: seq<string>, capacity: nat)
  {
    && keys <= all && all !! kept
    && admitted <= all - keys
    && (!full ==> admitted == all - keys)
    && connected == kept + admitted
    && (forall i, j | 0 <= i < j < |order| :: order[i] != order[j])
    && (forall a :: a in order <==> a in admitted)
    && (full ==> |connected| >= capacity)
    && (admitted != {} ==> |connected| <= capacity)
  }

  /** Offering one more newcomer to `logConnectedPeer` keeps the walk's state consistent. */
  lemma AdmissionStep(all: set<string>, keys: set<string>, admitted: set<string>, full: bool,
                      kept: set<string>, connected: set<string>, order: seq<string>, capacity: nat,
                      x: string, accepted: bool, connected': set<string>)
    requires AdmissionWalk(all, keys, admitted, full, kept, connected, order, capacity)
    requires x in keys
    requires accepted <==> |connected| < capacity
    requires connected' == if accepted then connected + {x} else connected
    ensures accepted ==> AdmissionWalk(all, keys - {x}, admitted + {x}, full, kept, connected', order + [x], capacity)
    ensures !accepted ==> AdmissionWalk(all, keys - {x}, admitted, true, kept, connected', order, capacity)
  {
  }

  /** The map of newly reported peers built at the start of `onPeersAvailable`. */
  method BuildNewPeers(devices: seq<Device>) returns (newPeers: map<string, Device>)
    ensures newPeers == DevicesByAddress(devices)
  {
    newPeers := map[];
    for i := 0 to |devices|
      invariant newPeers == DevicesByAddress(devices[..i])
    {
      newPeers := newPeers[devices[i].deviceAddress := devices[i]];
      assert devices[..i + 1][..i] == devices[..i];
    }
    assert devices[..|devices|] == devices;
  }

  /**
   * The receiver object together with the two addresses the source keeps
   * as static fields of its class.
   */
  class Receiver {
    var myAddress: Option<string>
    var groupOwnerAddress: Option<string>
    /** Whether the Wi-Fi Direct manager handed to the receiver is non-null. */
    const hasManager: bool

    constructor (hasManager: bool)
      ensures this.hasManager == hasManager
      ensures myAddress.None? && groupOwnerAddress.None?
    {
      this.hasManager := hasManager;
      myAddress, groupOwnerAddress := None, None;
    }

    /** `onReceive`: a peers-changed or connected broadcast asks the manager for details. */
    method OnReceive(ctl: NdnController, action: Action)
      modifies ctl`effects
      ensures ctl.effects == old(ctl.effects) + Requests(action, hasManager)
    {
      match action
      case PeersChanged =>
        if hasManager {
          ctl.Emit(RequestPeers);
        }
      case ConnectionChanged(isConnected) =>
        if !hasManager {
          return;
        }
        if isConnected {
          ctl.Emit(RequestConnectionInfo);
        }
      case _ =>
    }

    /**
     * `onPeersAvailable`: keeps the admitted peers that are still reported,
     * drops the others, and offers every newly reported device to
     * `logConnectedPeer`, connecting to those it admits. `admitted` names
     * the devices admitted in this call.
     */
    method OnPeersAvailable(ctl: NdnController, devices: seq<Device>) returns (ghost admitted: set<string>)
      modifies ctl`connectedPeers, ctl`effects
      ensures admitted <= Reported(devices) - old(ctl.connectedPeers)
      ensures ctl.connectedPeers == (old(ctl.connectedPeers) * Reported(devices)) + admitted
      ensures admitted != Reported(devices) - old(ctl.connectedPeers) ==> |ctl.connectedPeers| >= ctl.capacity
      ensures admitted != {} ==> |ctl.connectedPeers| <= ctl.capacity
      ensures |old(ctl.effects)| <= |ctl.effects| && ctl.effects[..|old(ctl.effects)|] == old(ctl.effects)
      ensures IsConnectBatch(ctl.effects[|old(ctl.effects)|..], admitted)
    {
      var newPeers := BuildNewPeers(devices);
      DevicesByAddressKeys(devices);
      newPeers := DropDeparted(ctl, newPeers);
      ghost var start := ctl.effects;
      ghost var order;
      admitted, order := AdmitNewcomers(ctl, newPeers);
      assert ctl.effects[|start|..] == ConnectsTo(order);
      ConnectsToIsBatch(order, admitted);
    }

    /**
     * The walk over the admitted peers in `onPeersAvailable`: a peer still
     * reported is taken out of `newPeers`, any other is dropped.
     */
    method DropDeparted(ctl: NdnController, newPeers: map<string, Device>) returns (remaining: map<string, Device>)
      requires forall a | a in newPeers :: newPeers[a].deviceAddress == a
      modifies ctl`connectedPeers
      ensures ctl.connectedPeers == old(ctl.connectedPeers) * newPeers.Keys
      ensures remaining.Keys == newPeers.Keys - old(ctl.connectedPeers)
      ensures forall a | a in remaining :: remaining[a] == newPeers[a]
    {
      ghost var before := ctl.connectedPeers;
      remaining := newPeers;
      var pending := ctl.connectedPeers;
      while pending != {}
        invariant pending <= before
        invariant ctl.connectedPeers == before - ((before - pending) - newPeers.Keys)
        invariant remaining.Keys == newPeers.Keys - (before - pending)
        invariant forall a | a in remaining :: remaining[a] == newPeers[a]
        decreases pending
      {
        var peerMacAddr :| peerMacAddr in pending;
        if peerMacAddr in remaining {
          remaining := remaining - {peerMacAddr};
        } else {
          ctl.connectedPeers := ctl.connectedPeers - {peerMacAddr};
        }
        pending := pending - {peerMacAddr};
      }
    }

    /**
     * The admission walk of `onPeersAvailable`: each newcomer not yet
     * admitted is offered to `logConnectedPeer` and connected to if accepted.
     */
    method AdmitNewcomers(ctl: NdnController, newPeers: map<string, Device>)
      returns (ghost admitted: set<string>, ghost order: seq<string>)
      requires forall a | a in newPeers :: newPeers[a].deviceAddress == a
      requires newPeers.Keys !! ctl.connectedPeers
      modifies ctl`connectedPeers, ctl`effects
      ensures admitted <= newPeers.Keys
      ensures ctl.connectedPeers == old(ctl.connectedPeers) + admitted
      ensures admitted != newPeers.Keys ==> |ctl.connectedPeers| >= ctl.capacity
      ensures admitted != {} ==> |ctl.connectedPeers| <= ctl.capacity
      ensures ctl.effects == old(ctl.effects) + ConnectsTo(order)
      ensures forall i, j | 0 <= i < j < |order| :: order[i] != order[j]
      ensures forall a :: a in order <==> a in admitted
    {
      ghost var kept := ctl.connectedPeers;
      ghost var start := ctl.effects;
      order := [];
      ghost var full := false;
      admitted := {};
      var keys := newPeers.Keys;
      while keys != {}
        invariant AdmissionWalk(newPeers.Keys, keys, admitted, full, kept, ctl.connectedPeers, order, ctl.capacity)
        invariant ctl.effects == start + ConnectsTo(order)
        decreases keys
      {
        var peerMacAddr :| peerMacAddr in keys;
        var device := newPeers[peerMacAddr];
        ghost var before := ctl.connectedPeers;
        assert peerMacAddr !in before;
        var accepted := OfferNewcomer(ctl, device);
        AdmissionStep(newPeers.Keys, keys, admitted, full, kept, before, order, ctl.capacity,
                      peerMacAddr, accepted, ctl.connectedPeers);
        if accepted {
          assert device.deviceAddress == peerMacAddr;
          ConnectsToSnoc(order, peerMacAddr);
          EffectsGrow(start, ConnectsTo(order), Effect.Connect(peerMacAddr));
          order := order + [peerMacAddr];
          admitted := admitted + {peerMacAddr};
        } else {
          full := true;
        }
        keys := keys - {peerMacAddr};
      }
    }

    /**
     * One step of the admission walk: a device not yet admitted is offered
     * to `logConnectedPeer` and, if accepted, connected to; an admitted one
     * is skipped.
     */
    method OfferNewcomer(ctl: NdnController, device: Device) returns (accepted: bool)
      modifies ctl`connectedPeers, ctl`effects
      ensures accepted <==> device.deviceAddress !in old(ctl.connectedPeers) && |old(ctl.connectedPeers)| < ctl.capacity
      ensures accepted ==> |ctl.connectedPeers| == |old(ctl.connectedPeers)| + 1
      ensures ctl.connectedPeers == if accepted then old(ctl.connectedPeers) + {device.deviceAddress}
                                    else old(ctl.connectedPeers)
      ensures ctl.effects == if accepted then old(ctl.effects) + [Effect.Connect(device.deviceAddress)]
                             else old(ctl.effects)
    {
      var peer := Peer(device.deviceAddress, device.deviceName, 0);
      accepted := false;
      if device.deviceAddress !in ctl.connectedPeers {
        accepted := ctl.LogConnectedPeer(peer);
        if accepted {
          Connect(ctl, device);
        }
      }
    }

    /** `connect`: asks the manager to connect to the device. */
    method Connect(ctl: NdnController, device: Device)
      modifies ctl`effects
      ensures ctl.effects == old(ctl.effects) + [Effect.Connect(device.deviceAddress)]
    {
      ctl.Emit(Effect.Connect(device.deviceAddress));
    }

    /** The failure callback of `connect`: forgets that one device. */
    method OnConnectFailure(ctl: NdnController, deviceAddress: string)
      modifies ctl`connectedPeers
      ensures ctl.connectedPeers == old(ctl.connectedPeers) - {deviceAddress}
    {
      ctl.connectedPeers := ctl.connectedPeers - {deviceAddress};
    }

    /**
     * `onConnectionInfoAvailable`: once a group has formed, records both
     * addresses, announces this device unless it already has, sets the role,
     * and as a client without a face towards the group owner creates one.
     * `localIp` is what the network interface reports (null when none).
     */
    method OnConnectionInfoAvailable(ctl: NdnController, info: ConnectionInfo, localIp: Option<string>)
      modifies this, ctl`effects, ctl`hasRegisteredOwnLocalhop, ctl`isGroupOwner
      ensures !info.groupFormed ==>
        && myAddress == old(myAddress) && groupOwnerAddress == old(groupOwnerAddress)
        && ctl.effects == old(ctl.effects)
        && ctl.hasRegisteredOwnLocalhop == old(ctl.hasRegisteredOwnLocalhop)
        && ctl.isGroupOwner == old(ctl.isGroupOwner)
      ensures info.groupFormed ==>
        && groupOwnerAddress == Some(info.groupOwnerAddress)
        && myAddress == localIp
        && ctl.hasRegisteredOwnLocalhop
        && ctl.isGroupOwner == info.isGroupOwner
        && ctl.effects == old(ctl.effects)
             + (if old(ctl.hasRegisteredOwnLocalhop) then [] else [RegisterOwnLocalhop])
             + (if info.isGroupOwner || FaceIdForPeer(ctl.faceIdOf, Some(info.groupOwnerAddress)) != -1
                then [] else [CreateFace(info.groupOwnerAddress)])
    {
      if !info.groupFormed {
        return;
      }
      groupOwnerAddress := Some(info.groupOwnerAddress);
      myAddress := localIp;
      if !ctl.hasRegisteredOwnLocalhop {
        ctl.RegisterOwnLocalhopPrefix();
      }
      if info.isGroupOwner {
        ctl.isGroupOwner := true;
      } else {
        ctl.isGroupOwner := false;
        if FaceIdForPeer(ctl.faceIdOf, groupOwnerAddress) != -1 {
          return;
        }
        ctl.Emit(CreateFace(info.groupOwnerAddress));
      }
    }

    /**
     * The callback run once the face towards the group owner exists: makes
     * the group owner probeable through it. It reads the group-owner address
     * when it runs.
     */
    method OnFaceCreated(ctl: NdnController)
      modifies ctl`effects
      ensures ctl.effects == old(ctl.effects) +
        [RibRegister(FaceIdForPeer(ctl.faceIdOf, groupOwnerAddress), {PROBE_PREFIX + "/" + Show(groupOwnerAddress)})]
    {
      var prefixes := {PROBE_PREFIX + "/" + Show(groupOwnerAddress)};
      ctl.Emit(RibRegister(FaceIdForPeer(ctl.faceIdOf, groupOwnerAddress), prefixes));
    }

    /** `cleanUp`: forgets both addresses. */
    method CleanUp()
      modifies this
      ensures myAddress.None? && groupOwnerAddress.None?
    {
      myAddress := None;
      groupOwnerAddress := None;
    }
  }
}
