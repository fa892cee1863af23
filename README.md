# Wi-Fi Direct peer synchronisation of NFD-android, in Dafny

This project models the peer-synchronisation core of the Wi-Fi Direct layer
of NFD-android and proves properties of the model. The core has three parts:

- **The probe response handler** (`ProbeOnData.doJob`). It reads the peer's
  address out of the probe name and parses the `{N}\n p1\n … pN` payload. It
  then collects the prefixes the forwarding table (FIB) routes to the peer's
  face, leaving out `/localhop` and `/localhost`. It diffs the two sets in
  place and registers the new prefixes in one call. Each withdrawn prefix
  is unregistered by its own call.
- **The periodic probe** (`ProbeRunnable.run` and its `onData`/`onTimeout`
  completions). When the Wi-Fi Direct address has gone, it resets the group
  state. Otherwise it sends one fresh interest to every peer announced under
  `/localhop/wifidirect` in the FIB. A response runs the handler above and
  clears the peer's timeout counter. A timeout raises the counter, and the
  fifth in a row evicts the peer.
- **The broadcast receiver** (`WDBroadcastReceiver`). It diffs the reported
  device list against the admitted peers. It admits newcomers through the
  controller's `logConnectedPeer` and connects to them. It forgets a device
  whose connection fails. Once a group forms, it announces this device and,
  as a client, opens a face towards the group owner whose callback
  registers the owner's probe prefix.

Modules:

- `JavaLang`: the Java semantics the core relies on. This covers null
  references (`Option`), the exceptions that escape callbacks,
  `String.split` with one separator character, `Integer.parseInt`, and
  decimal rendering.
- `Controller`: the process-wide `NDNController`, kept as plain fields. Each
  outbound call it or the core makes is appended to an `effects` log.
- `ProbeOnData`, `ProbeRunnable` and `WDBroadcastReceiver`: one module per
  source file.

Every imperative operation is a `method` with loop invariants. Each is
proved against a pure specification function. The properties the source
promises are lemmas about those functions.

Where the code and the design description of the system disagree, the
model follows the code:

- A malformed probe payload is described as failing silently. In the code,
  the parse at `ProbeOnData.java:55-58` sits outside the `try`, so the
  exception escapes `doJob` and `onData`. `PlanFor` returns it as an
  `Err`, and `DoJob` and `OnData` return it as `Thrown`.
- A response from an untracked peer is described as aborted before
  reconciling. In the code, `onData` reconciles first and then dereferences
  the peer without a null check (`ProbeRunnable.java:83-85`). `OnData`
  returns `Thrown(NullPointer)` after the reconciliation's effects.
- On disconnection, the design clears the peer registry. The code clears
  only the connected-peer set and the logged-address set
  (`ProbeRunnable.java:52-53`). `Run` leaves `peersByIp` unchanged.
- The design registers each new prefix. The code makes one
  `ribRegisterPrefix` call that carries all of them, and only when there is
  at least one.
- The design removes departed devices from the registry and tears down
  their connection. The code only drops their addresses from the
  connected-peer set (`WDBroadcastReceiver.java:94-104`).

## Model

| member | source | states |
|---|---|---|
| ProbeOnData.ParseResponse | app/src/main/java/net/named_data/nfd/wifidirect/callback/ProbeOnData.java:55-59 | The parse loop yields exactly the lines 1..N as a set, where N is line 0, so duplicates collapse. A non-numeric count gives NumberFormatException, a negative one IllegalArgumentException, and too few lines an index error. |
| ProbeOnData.CollectRegistered | app/src/main/java/net/named_data/nfd/wifidirect/callback/ProbeOnData.java:62-76 | The nested FIB scan collects exactly `RegisteredFor`: the non-local prefixes with a next hop on the peer's face. |
| ProbeOnData.RegisteredForMembership | app/src/main/java/net/named_data/nfd/wifidirect/callback/ProbeOnData.java:64-76 | A prefix is in R iff some FIB entry has it as prefix, it starts with neither `/localhop` nor `/localhost`, and one of its next hops is the peer's face. |
| ProbeOnData.Diff | app/src/main/java/net/named_data/nfd/wifidirect/callback/ProbeOnData.java:82-89 | The in-place iterator loop leaves the response set equal to A−R and the registered set equal to R−A. |
| ProbeOnData.UnregisterBatchGrows | app/src/main/java/net/named_data/nfd/wifidirect/callback/ProbeOnData.java:100-103 | Unregistering one more prefix that was not yet withdrawn extends a batch of one call per prefix. |
| ProbeOnData.UnregisterAll | app/src/main/java/net/named_data/nfd/wifidirect/callback/ProbeOnData.java:99-103 | Only appends to the log. What it appends is exactly one unregister call per prefix of the set, all towards the peer's face. |
| ProbeOnData.SyncPrefixes | app/src/main/java/net/named_data/nfd/wifidirect/callback/ProbeOnData.java:61-103 | The body of the `try` makes the calls of the reconciliation plan. At most one register call carries all of A−R, and only when A−R is non-empty. Then each prefix of R−A gets exactly one unregister call. |
| ProbeOnData.DoJob | app/src/main/java/net/named_data/nfd/wifidirect/callback/ProbeOnData.java:31-108 | The outcome and the calls follow `PlanFor`. A name with fewer than 3 components, or a bad payload from a known peer, throws. Face id −1 makes no call. A failing FIB listing is caught. Otherwise the calls are those of `SyncPrefixes`. |
| ProbeOnData.UndocumentedPeerIgnoresPayload | app/src/main/java/net/named_data/nfd/wifidirect/callback/ProbeOnData.java:47-53 | With face id −1 the handler ends with no call, whatever the payload, even a malformed one. |
| ProbeOnData.ThrowsOnlyOnMalformedInput | app/src/main/java/net/named_data/nfd/wifidirect/callback/ProbeOnData.java:35-107 | The handler throws iff the name is too short, or the peer is known and the payload is malformed; the exception is the first of those. A FIB failure never escapes. |
| ProbeOnData.ReconcileConverges | app/src/main/java/net/named_data/nfd/wifidirect/callback/ProbeOnData.java:82-103 | The two deltas are disjoint, A−R is disjoint from R, and R−A lies within R. Applying them to R gives exactly A. |
| ProbeOnData.ReconcileIdempotent | app/src/main/java/net/named_data/nfd/wifidirect/callback/ProbeOnData.java:82-103 | When R equals A, both deltas are empty, and the handler's calls are exactly none. |
| ProbeOnData.LocalScopeNeverUnregistered | app/src/main/java/net/named_data/nfd/wifidirect/callback/ProbeOnData.java:68 | A `/localhop` or `/localhost` prefix is never unregistered from a peer. |
| ProbeOnData.AdvertisedLocalScopeAlwaysRegistered | app/src/main/java/net/named_data/nfd/wifidirect/callback/ProbeOnData.java:68-94 | A local-scope prefix the peer advertises is never counted as registered, so every response registers it again. |
| ProbeOnData.PayloadRoundTrip | app/src/main/java/net/named_data/nfd/wifidirect/callback/ProbeOnData.java:40-59 | A payload written in the documented format parses back to exactly {p1..pN}. This needs N within int range and every prefix non-empty without a newline. |
| ProbeOnData.CountBeyondLinesThrows | app/src/main/java/net/named_data/nfd/wifidirect/callback/ProbeOnData.java:55-58 | A count larger than the number of prefix lines that follow throws an index error. |
| ProbeOnData.LinesBeyondCountIgnored | app/src/main/java/net/named_data/nfd/wifidirect/callback/ProbeOnData.java:55-58 | Lines after the N-th prefix are ignored: the result is the first N prefixes. |
| ProbeOnData.SplitFormatted | app/src/main/java/net/named_data/nfd/wifidirect/callback/ProbeOnData.java:47 | Splitting a formatted payload on newlines gives the count line followed by the prefix lines, because the trailing empty piece is dropped. |
| JavaLang.SplitKeepsAllPieces | app/src/main/java/net/named_data/nfd/wifidirect/callback/ProbeOnData.java:35 | `split` drops nothing from a string that does not end with the separator. |
| JavaLang.SplitNonEmpty | app/src/main/java/net/named_data/nfd/wifidirect/runnable/ProbeRunnable.java:73-74 | `split` yields at least one component when some character is not the separator, so the last component exists. |
| JavaLang.PiecesOfJoin | app/src/main/java/net/named_data/nfd/wifidirect/callback/ProbeOnData.java:35 | The components of `a + sep + b` are those of `a` followed by those of `b`. |
| JavaLang.DecimalRoundTrip | app/src/main/java/net/named_data/nfd/wifidirect/callback/ProbeOnData.java:55 | `Integer.parseInt` reads back the decimal rendering of any count in int range. |
| JavaLang.ParseInt | app/src/main/java/net/named_data/nfd/wifidirect/callback/ProbeOnData.java:55 | Every value `Integer.parseInt` returns fits in 32 bits. |
| ProbeRunnable.ThirdFromLast | app/src/main/java/net/named_data/nfd/wifidirect/callback/ProbeOnData.java:35-36 | Take a prefix that does not end with `/` and add two more `/` components. The handler then reads the prefix's last component as the peer address. |
| ProbeRunnable.ProbeNameCarriesPeer | app/src/main/java/net/named_data/nfd/wifidirect/runnable/ProbeRunnable.java:77 | The name `prefix/myAddress/probe?ts` carries as its third-from-last component the peer address that the probed prefix announces. |
| ProbeRunnable.ProbeSuffixHasNoSlash | app/src/main/java/net/named_data/nfd/wifidirect/runnable/ProbeRunnable.java:77 | The `probe?` + timestamp component has no `/`. |
| ProbeRunnable.ProbeTargetsAreProbePrefixes | app/src/main/java/net/named_data/nfd/wifidirect/runnable/ProbeRunnable.java:71-74 | Every probed prefix starts with the probe prefix, and its last component is not this device's address. |
| ProbeRunnable.ProbeTargetsComplete | app/src/main/java/net/named_data/nfd/wifidirect/runnable/ProbeRunnable.java:71-74 | Every FIB entry that announces another peer is probed. |
| ProbeRunnable.ProbeTargetsSnoc | app/src/main/java/net/named_data/nfd/wifidirect/runnable/ProbeRunnable.java:71-74 | Targets are picked in FIB order: one more entry adds its prefix at the end iff it is a target. |
| ProbeRunnable.ProbeTargetsPrefix | app/src/main/java/net/named_data/nfd/wifidirect/runnable/ProbeRunnable.java:71-74 | The targets of the first n FIB entries lead the targets of the whole table. |
| ProbeRunnable.ProbeTargetsBefore | app/src/main/java/net/named_data/nfd/wifidirect/runnable/ProbeRunnable.java:71-80 | The targets before a probed entry are strictly fewer than all targets, and they lead them. |
| ProbeRunnable.ProbeInterestsSnoc | app/src/main/java/net/named_data/nfd/wifidirect/runnable/ProbeRunnable.java:77-80 | One more target adds one fresh interest named after it, stamped with the next time. |
| ProbeRunnable.ProbeInterestsPrefix | app/src/main/java/net/named_data/nfd/wifidirect/runnable/ProbeRunnable.java:77-80 | Probing a leading part of the targets sends a leading part of the interests. |
| ProbeRunnable.ProbesSentStop | app/src/main/java/net/named_data/nfd/wifidirect/runnable/ProbeRunnable.java:80-116 | When a send fails, the round has sent exactly the probes of the earlier targets. |
| ProbeRunnable.SendProbes | app/src/main/java/net/named_data/nfd/wifidirect/runnable/ProbeRunnable.java:67-108 | Only appends to the log. It appends exactly one fresh interest `prefix/myAddress/probe?ts` per target, in FIB order. A failed send stops the round after the earlier probes. |
| ProbeRunnable.Run | app/src/main/java/net/named_data/nfd/wifidirect/runnable/ProbeRunnable.java:36-117 | With no local address and `myAddress` set: `myAddress` becomes null, the own localhop prefix is unregistered, the connected and logged sets are emptied, the flag is cleared and discovery restarts, with no probe. With neither: nothing changes. With an address: only the probes of `ProbesSent` go out, and a FIB or send failure is caught. |
| ProbeRunnable.AfterTimeout | app/src/main/java/net/named_data/nfd/wifidirect/runnable/ProbeRunnable.java:89-104 | A timeout touches no other peer and adds no peer. |
| ProbeRunnable.OnTimeout | app/src/main/java/net/named_data/nfd/wifidirect/runnable/ProbeRunnable.java:87-105 | The peer map becomes `AfterTimeout`: an untracked address changes nothing. The fifth consecutive timeout removes the peer and records the removal. An earlier timeout raises the counter by one. |
| ProbeRunnable.TimeoutKeepsCountersBounded | app/src/main/java/net/named_data/nfd/wifidirect/runnable/ProbeRunnable.java:99-104 | A timeout keeps every stored counter within 0..4. |
| ProbeRunnable.DataKeepsCountersBounded | app/src/main/java/net/named_data/nfd/wifidirect/runnable/ProbeRunnable.java:85 | A response keeps every stored counter within 0..4. |
| ProbeRunnable.TimeoutsCount | app/src/main/java/net/named_data/nfd/wifidirect/runnable/ProbeRunnable.java:99-104 | Below the bound, k timeouts raise the counter by exactly k, and nothing else in the record changes. |
| ProbeRunnable.TimeoutsLeaveOthers | app/src/main/java/net/named_data/nfd/wifidirect/runnable/ProbeRunnable.java:99-104 | Any number of timeouts for one peer leave every other peer's record unchanged. |
| ProbeRunnable.FifthTimeoutEvicts | app/src/main/java/net/named_data/nfd/wifidirect/runnable/ProbeRunnable.java:99-104 | From counter c, timeout 5−c evicts the peer and none before it does. For a fresh peer that is the fifth. |
| ProbeRunnable.AfterData | app/src/main/java/net/named_data/nfd/wifidirect/runnable/ProbeRunnable.java:84-85 | A response from an untracked address throws NullPointerException. Otherwise it zeroes that peer's counter and changes no other peer. |
| ProbeRunnable.ResponseRestartsCount | app/src/main/java/net/named_data/nfd/wifidirect/runnable/ProbeRunnable.java:82-104 | After 4 timeouts and then a response, 4 more timeouts keep the peer and a fifth evicts it. |
| ProbeRunnable.OnData | app/src/main/java/net/named_data/nfd/wifidirect/runnable/ProbeRunnable.java:80-86 | The reconciliation runs first, with its calls. If it throws, nothing else happens. Otherwise the peer map becomes `AfterData`, which throws for an untracked peer. |
| Controller.NdnController.LogConnectedPeer | app/src/main/java/net/named_data/nfd/wifidirect/utils/WDBroadcastReceiver.java:118 | The peer is accepted iff fewer than `capacity` peers are admitted, and then only its address is added. |
| Controller.NdnController.RemovePeerByIp | app/src/main/java/net/named_data/nfd/wifidirect/runnable/ProbeRunnable.java:101 | The peer is no longer found by its address, and the removal is recorded. |
| Controller.NdnController.RegisterOwnLocalhopPrefix | app/src/main/java/net/named_data/nfd/wifidirect/utils/WDBroadcastReceiver.java:162-165 | Records the announcement and sets the flag that stops a second one. |
| WDBroadcastReceiver.BuildNewPeers | app/src/main/java/net/named_data/nfd/wifidirect/utils/WDBroadcastReceiver.java:85-90 | The temporary map keys the reported devices by address, and a later duplicate wins. |
| WDBroadcastReceiver.DevicesByAddressKeys | app/src/main/java/net/named_data/nfd/wifidirect/utils/WDBroadcastReceiver.java:86-90 | The map's keys are exactly the reported addresses, and each device sits under its own address. |
| WDBroadcastReceiver.Receiver.OnReceive | app/src/main/java/net/named_data/nfd/wifidirect/utils/WDBroadcastReceiver.java:54-225 | With a manager, a peers-changed broadcast requests the peer list and a connected broadcast requests the connection info. Any other broadcast makes no request. |
| WDBroadcastReceiver.NullManagerIgnored | app/src/main/java/net/named_data/nfd/wifidirect/utils/WDBroadcastReceiver.java:136-139 | Without a manager, no broadcast makes any request. |
| WDBroadcastReceiver.Receiver.DropDeparted | app/src/main/java/net/named_data/nfd/wifidirect/utils/WDBroadcastReceiver.java:92-104 | The admitted set keeps exactly the admitted addresses still reported. The candidates are the reported addresses minus the admitted ones. |
| WDBroadcastReceiver.AdmissionStep | app/src/main/java/net/named_data/nfd/wifidirect/utils/WDBroadcastReceiver.java:109-127 | Offering one newcomer keeps the admission walk consistent. Admitted devices are connected to in order and never twice, and a refusal means capacity was reached. |
| WDBroadcastReceiver.Receiver.AdmitNewcomers | app/src/main/java/net/named_data/nfd/wifidirect/utils/WDBroadcastReceiver.java:106-127 | Only candidates are admitted, one connect call each and in order. A candidate is left out only once capacity is reached. |
| WDBroadcastReceiver.ConnectsToIsBatch | app/src/main/java/net/named_data/nfd/wifidirect/utils/WDBroadcastReceiver.java:117-120 | Connecting to distinct addresses in turn is exactly one connect call per admitted device. |
| WDBroadcastReceiver.Receiver.OnPeersAvailable | app/src/main/java/net/named_data/nfd/wifidirect/utils/WDBroadcastReceiver.java:81-128 | Afterwards the admitted set is (old ∩ reported) plus the newly admitted devices. Those are reported and new, and each gets exactly one connect call. Any candidate left out means capacity was reached. Nothing else is logged. |
| WDBroadcastReceiver.Receiver.OfferNewcomer | app/src/main/java/net/named_data/nfd/wifidirect/utils/WDBroadcastReceiver.java:111-127 | The device is admitted and connected to iff it is not yet admitted and `logConnectedPeer` has room. A device already admitted, or refused, gets no call and changes nothing. |
| WDBroadcastReceiver.Receiver.Connect | app/src/main/java/net/named_data/nfd/wifidirect/utils/WDBroadcastReceiver.java:231-239 | Records one connect call to the device's address. |
| WDBroadcastReceiver.Receiver.OnConnectFailure | app/src/main/java/net/named_data/nfd/wifidirect/utils/WDBroadcastReceiver.java:248-252 | Removes only that device address from the admitted set. |
| WDBroadcastReceiver.Receiver.OnConnectionInfoAvailable | app/src/main/java/net/named_data/nfd/wifidirect/utils/WDBroadcastReceiver.java:149-203 | No group: nothing changes. Group formed: both addresses are set, the own prefix is announced only if it was not yet, and the role is set to `isGroupOwner`. A client without a face to the owner creates exactly one. |
| WDBroadcastReceiver.Receiver.OnFaceCreated | app/src/main/java/net/named_data/nfd/wifidirect/utils/WDBroadcastReceiver.java:190-198 | Registers exactly the one prefix `PROBE_PREFIX/groupOwnerAddress` towards the owner's face. |
| WDBroadcastReceiver.Receiver.CleanUp | app/src/main/java/net/named_data/nfd/wifidirect/utils/WDBroadcastReceiver.java:260-263 | Both addresses become null. |

## Left out

- `NDNController` is not part of this model.
  - Its state is plain fields, and its outbound calls are entries in an
    effect log.
  - `logConnectedPeer` is assumed to accept iff fewer than a fixed capacity
    are admitted, and to add only the device address.
  - `registerOwnLocalhop` is assumed to set `hasRegisteredOwnLocalhop`.
  - `getFaceIdForPeer` is a map lookup with −1 for a missing or null address.
  - `removePeer` is assumed to drop the record by network address. Whether
    it also tears down the face is not settled.
- The value of `NDNController.PROBE_PREFIX` is not in the modelled files.
  It is taken as `/localhop/wifidirect`, from the name layout described
  next to the probe code.
- `URI_TRANSPORT_PREFIX` and the face creation itself are not modelled:
  creating a face is a recorded effect, and its callback is `OnFaceCreated`.
- Platform I/O comes in as parameters:
  - the local Wi-Fi Direct address (`IPAddress.getLocalIPAddress`);
  - the reported device list;
  - the connection info;
  - the FIB listing, as `None` when `Nfdc.getFibList` throws;
  - the clock, `System.currentTimeMillis`, as a function from probe index
    to time;
  - the index of a failing `expressInterest`.
- The asynchronous completions, the periodic scheduling and races between
  threads are not modelled. Each completion is a separate sequential method.
- `DoJob`: a register or unregister call that fails halfway through the
  `try` is not modelled. Every call issued there is taken to return.
- `Name` URI escaping is not modelled. Names are plain strings split on `/`.
- `Integer.parseInt` accepts only ASCII digits here. Other Unicode decimal
  digits, which Java also accepts, are left out.
- `new HashSet<>(n)` is modelled as throwing only for a negative `n`. Running
  out of memory for a huge `n` is not modelled.
- `OnData` and `OnTimeout`: the peer record is a value in `peersByIp`, not a
  shared mutable object, so aliasing of `Peer` objects is not modelled.
- `OnTimeout`: `numProbeTimeouts + 1` is not wrapped to 32 bits. Counters
  stay within 0..4 (`TimeoutKeepsCountersBounded`), so the addition cannot
  overflow from any reachable state.
- `ProbeNameCarriesPeer` assumes the probed prefix does not end with `/` and
  the device address contains no `/`. Otherwise the two handlers of one
  probe disagree on the peer address, and no property is stated for that case.
- `OnReceive`: a missing network-info extra (a null `NetworkInfo`) is not
  modelled. The connection-changed broadcast carries its `isConnected` flag
  directly.
- Logging and `printStackTrace` are left out.
