/**
 * The periodic probe (ProbeRunnable): when the Wi-Fi Direct address has
 * gone it resets the group state, otherwise it sends one probe interest to
 * every peer announced in the forwarding table. A response runs the
 * reconciliation of `ProbeOnData` and clears the peer's timeout counter; a
 * timeout raises the counter and evicts the peer on the fifth one in a row.
 */
module ProbeRunnable {
  import opened JavaLang
  import opened Controller
  import opened ProbeOnData
  import opened WDBroadcastReceiver

  /** Consecutive probe timeouts after which a peer counts as gone. */
  const MAX_TIMEOUTS_ALLOWED: int := 5

  // ---------------------------------------------------------------------
  // Probe targets and probe names
  // ---------------------------------------------------------------------

  /** The last `/` component of a probe prefix: the address of the peer it announces. */
  function LastComponent(prefix: string): string
    requires StartsWith(prefix, PROBE_PREFIX)
  {
    assert prefix[1] == PROBE_PREFIX[1];
    SplitNonEmpty(prefix, '/', 1);
    var prefixArr := Split(prefix, '/');
    prefixArr[|prefixArr| - 1]
  }

  /** A forwarding-table prefix is probed when it announces a peer other than this device. */
  predicate IsProbeTarget(prefix: string, myAddress: Option<string>)
  {
    StartsWith(prefix, PROBE_PREFIX) && Some(LastComponent(prefix)) != myAddress
  }

  /** The probe targets of a forwarding table, in table order. */
  function ProbeTargets(fib: seq<FibEntry>, myAddress: Option<string>): (r: seq<string>)
    ensures |r| <= |fib|
  {
    if fib == [] then []
    else
      var prefix := fib[|fib| - 1].prefix;
      ProbeTargets(fib[..|fib| - 1], myAddress) + (if IsProbeTarget(prefix, myAddress) then [prefix] else [])
  }

  /** The name of a probe: the peer's prefix, this device's address, then `probe?` and the time. */
  function ProbeName(prefix: string, myAddress: Option<string>, timestamp: nat): string
  {
    prefix + "/" + Show(myAddress) + "/probe?" + Decimal(timestamp)
  }

  /** One fresh interest per target; the k-th is stamped with `clock(k)`. */
  function ProbeInterests(targets: seq<string>, myAddress: Option<string>, clock: nat -> nat): (r: seq<Effect>)
    ensures |r| == |targets|
  {
    seq(|targets|, k requires 0 <= k < |targets| => ExpressInterest(ProbeName(targets[k], myAddress, clock(k)), true))
  }

  /**
   * The interests one probe round sends. `fib` is None when listing the
   * forwarding table fails, and `failingSend` is the index of the probe
   * whose sending fails, if any; both failures are caught and end the round.
   */
  function ProbesSent(fib: Option<seq<FibEntry>>, myAddress: Option<string>, clock: nat -> nat,
                      failingSend: Option<nat>): seq<Effect>
  {
    if fib.None? then []
    else
      var probes := ProbeInterests(ProbeTargets(fib.value, myAddress), myAddress, clock);
      if failingSend.Some? && failingSend.value < |probes| then probes[..failingSend.value] else probes
  }

  lemma ProbeTargetsSnoc(fib: seq<FibEntry>, e: FibEntry, myAddress: Option<string>)
    ensures ProbeTargets(fib + [e], myAddress) ==
      ProbeTargets(fib, myAddress) + (if IsProbeTarget(e.prefix, myAddress) then [e.prefix] else [])
  {
    assert (fib + [e])[..|fib|] == fib;
  }

  /** Every probe target is a probe prefix announcing a peer other than this device. */
  lemma {:induction false} ProbeTargetsAreProbePrefixes(fib: seq<FibEntry>, myAddress: Option<string>, k: nat)
    requires k < |ProbeTargets(fib, myAddress)|
    ensures StartsWith(ProbeTargets(fib, myAddress)[k], PROBE_PREFIX)
    ensures Some(LastComponent(ProbeTargets(fib, myAddress)[k])) != myAddress
  {
    var init := fib[..|fib| - 1];
    if k < |ProbeTargets(init, myAddress)| {
      ProbeTargetsAreProbePrefixes(init, myAddress, k);
    }
  }

  /** A table entry that announces another peer is probed. */
  lemma {:induction false} ProbeTargetsComplete(fib: seq<FibEntry>, myAddress: Option<string>, i: nat)
    requires i < |fib| && IsProbeTarget(fib[i].prefix, myAddress)
    ensures fib[i].prefix in ProbeTargets(fib, myAddress)
  {
    var init := fib[..|fib| - 1];
    if i < |init| {
      ProbeTargetsComplete(init, myAddress, i);
      assert init[i] == fib[i];
    }
  }

  /** The part of a probe name after this device's address has no `/`. */
  lemma ProbeSuffixHasNoSlash(timestamp: nat)
    ensures '/' !in "probe?" + Decimal(timestamp)
  {
    var d := Decimal(timestamp);
    var t := "probe?" + d;
    forall k | 0 <= k < |t| ensures t[k] != '/' {
      if k >= 6 {
        assert t[k] == d[k - 6] && IsDigit(d[k - 6]);
      }
    }
  }

  /**
   * Two more `/` components after a prefix that does not end with `/` make
   * the prefix's last component the third from last.
   */
  lemma ThirdFromLast(prefix: string, m: string, t: string)
    requires prefix != [] && prefix[|prefix| - 1] != '/'
    requires '/' !in m && '/' !in t && t != []
    ensures |Split(prefix, '/')| > 0
    ensures PeerIpOf(prefix + "/" + m + "/" + t) == Ok(Split(prefix, '/')[|Split(prefix, '/')| - 1])
  {
    SplitNonEmpty(prefix, '/', |prefix| - 1);
    var name := prefix + "/" + m + "/" + t;
    assert Split(name, '/') == Split(prefix, '/') + [m, t] by {
      assert name == prefix + ['/'] + (m + ['/'] + t);
      PiecesOfJoin(prefix, m + ['/'] + t, '/');
      PiecesOfJoin(m, t, '/');
      PiecesWithoutSeparator(m, '/');
      PiecesWithoutSeparator(t, '/');
      assert Pieces(name, '/') == Pieces(prefix, '/') + [m, t];
      assert name[|name| - 1] == t[|t| - 1];
      SplitKeepsAllPieces(name, '/');
      SplitKeepsAllPieces(prefix, '/');
    }
  }

  /**
   * The peer address the response handler reads back out of a probe name
   * is the address the probed prefix announces, provided the prefix does not
   * end with `/` and this device's address has no `/` in it.
   */
  lemma ProbeNameCarriesPeer(prefix: string, myAddress: Option<string>, timestamp: nat)
    requires StartsWith(prefix, PROBE_PREFIX) && prefix[|prefix| - 1] != '/'
    requires '/' !in Show(myAddress)
    ensures PeerIpOf(ProbeName(prefix, myAddress, timestamp)) == Ok(LastComponent(prefix))
  {
    ProbeSuffixHasNoSlash(timestamp);
    var t := "probe?" + Decimal(timestamp);
    assert ProbeName(prefix, myAddress, timestamp) == prefix + "/" + Show(myAddress) + "/" + t;
    ThirdFromLast(prefix, Show(myAddress), t);
  }

  // ---------------------------------------------------------------------
  // The timeout counter
  // ---------------------------------------------------------------------

  /** Every tracked peer has had fewer consecutive timeouts than the eviction bound. */
  ghost predicate CountersBounded(peers: map<string, Peer>)
  {
    forall ip | ip in peers :: 0 <= peers[ip].numProbeTimeouts < MAX_TIMEOUTS_ALLOWED
  }

  /**
   * The peer map after a probe to `ip` timed out: an untracked address
   * changes nothing, the fifth consecutive timeout removes the peer, and
   * any earlier one raises its counter by one.
   */
  function AfterTimeout(peers: map<string, Peer>, ip: string): (r: map<string, Peer>)
    ensures forall other | other in peers && other != ip :: other in r && r[other] == peers[other]
    ensures forall other | other in r :: other in peers
  {
    if ip !in peers then peers
    else if peers[ip].numProbeTimeouts + 1 >= MAX_TIMEOUTS_ALLOWED then peers - {ip}
    else peers[ip := peers[ip].(numProbeTimeouts := peers[ip].numProbeTimeouts + 1)]
  }

  /** Whether a timeout for `ip` evicts its peer. */
  predicate TimeoutEvicts(peers: map<string, Peer>, ip: string)
  {
    ip in peers && peers[ip].numProbeTimeouts + 1 >= MAX_TIMEOUTS_ALLOWED
  }

  /** The peer map after a response from `ip`; the peer must be tracked. */
  function AfterData(peers: map<string, Peer>, ip: string): (r: Result<map<string, Peer>>)
    ensures r.Err? <==> ip !in peers
    ensures r.Err? ==> r.error == NullPointer
    ensures r.Ok? ==> r.value.Keys == peers.Keys && r.value[ip].numProbeTimeouts == 0
    ensures r.Ok? ==> forall other | other in peers && other != ip :: r.value[other] == peers[other]
  {
    if ip !in peers then Err(NullPointer)
    else Ok(peers[ip := peers[ip].(numProbeTimeouts := 0)])
  }

  /** `k` consecutive timeouts for `ip`. */
  function Timeouts(peers: map<string, Peer>, ip: string, k: nat): map<string, Peer>
  {
    if k == 0 then peers else AfterTimeout(Timeouts(peers, ip, k - 1), ip)
  }

  /** A timeout keeps every stored counter within 0..4. */
  lemma TimeoutKeepsCountersBounded(peers: map<string, Peer>, ip: string)
    requires CountersBounded(peers)
    ensures CountersBounded(AfterTimeout(peers, ip))
  {
  }

  /** A response keeps every stored counter within 0..4. */
  lemma DataKeepsCountersBounded(peers: map<string, Peer>, ip: string)
    requires CountersBounded(peers) && ip in peers
    ensures CountersBounded(AfterData(peers, ip).value)
  {
  }

  /**
   * Timeouts that stay below the bound count up one by one and leave the
   * peer tracked.
   */
  lemma {:induction false} TimeoutsCount(peers: map<string, Peer>, ip: string, k: nat)
    requires ip in peers && 0 <= peers[ip].numProbeTimeouts
    requires peers[ip].numProbeTimeouts + k < MAX_TIMEOUTS_ALLOWED
    ensures ip in Timeouts(peers, ip, k)
    ensures Timeouts(peers, ip, k)[ip] == peers[ip].(numProbeTimeouts := peers[ip].numProbeTimeouts + k)
  {
    if k > 0 {
      TimeoutsCount(peers, ip, k - 1);
    }
  }

  /** Timeouts for one peer leave every other peer as it was. */
  lemma {:induction false} TimeoutsLeaveOthers(peers: map<string, Peer>, ip: string, k: nat, other: string)
    requires other in peers && other != ip
    ensures other in Timeouts(peers, ip, k) && Timeouts(peers, ip, k)[other] == peers[other]
  {
    if k > 0 {
      TimeoutsLeaveOthers(peers, ip, k - 1, other);
    }
  }

  /**
   * From a counter `c` in 0..4, the timeout numbered `5 - c` evicts the
   * peer and none before it does; from a fresh peer that is the fifth.
   */
  lemma FifthTimeoutEvicts(peers: map<string, Peer>, ip: string)
    requires ip in peers && 0 <= peers[ip].numProbeTimeouts < MAX_TIMEOUTS_ALLOWED
    ensures var c := peers[ip].numProbeTimeouts;
      && ip in Timeouts(peers, ip, 4 - c)
      && ip !in Timeouts(peers, ip, 5 - c)
  {
    var c := peers[ip].numProbeTimeouts;
    TimeoutsCount(peers, ip, 4 - c);
  }

  /** A response between timeouts starts the count afresh: four more timeouts do not evict. */
  lemma ResponseRestartsCount(peers: map<string, Peer>, ip: string)
    requires ip in peers && 0 <= peers[ip].numProbeTimeouts < MAX_TIMEOUTS_ALLOWED
    ensures var c := peers[ip].numProbeTimeouts;
      var revived := AfterData(Timeouts(peers, ip, 4 - c), ip);
      && revived.Ok?
      && ip in Timeouts(revived.value, ip, 4)
      && ip !in Timeouts(revived.value, ip, 5)
  {
    var c := peers[ip].numProbeTimeouts;
    TimeoutsCount(peers, ip, 4 - c);
    var revived := AfterData(Timeouts(peers, ip, 4 - c), ip);
    FifthTimeoutEvicts(revived.value, ip);
  }

  // ---------------------------------------------------------------------
  // The handlers
  // ---------------------------------------------------------------------

  /**
   * `run`: one probe round. `localIp` is the current Wi-Fi Direct address
   * (null when there is none), `fib` the forwarding table (None when listing
   * it fails), `clock` the time of each probe, `failingSend` the probe whose
   * sending fails, if any.
   */
  method Run(ctl: NdnController, rcv: Receiver, localIp: Option<string>, fib: Option<seq<FibEntry>>,
             clock: nat -> nat, failingSend: Option<nat>)
    modifies ctl, rcv`myAddress
    ensures ctl.peersByIp == old(ctl.peersByIp) && ctl.faceIdOf == old(ctl.faceIdOf)
    ensures ctl.isGroupOwner == old(ctl.isGroupOwner)
    ensures localIp.None? && old(rcv.myAddress).Some? ==>
      && rcv.myAddress.None?
      && ctl.effects == old(ctl.effects) + [UnregisterOwnLocalhop, StartDiscoveringPeers]
      && ctl.connectedPeers == {} && ctl.ipsOfLoggedPeers == {}
      && !ctl.hasRegisteredOwnLocalhop
    ensures localIp.None? && old(rcv.myAddress).None? ==>
      && rcv.myAddress.None?
      && ctl.effects == old(ctl.effects)
      && ctl.connectedPeers == old(ctl.connectedPeers) && ctl.ipsOfLoggedPeers == old(ctl.ipsOfLoggedPeers)
      && ctl.hasRegisteredOwnLocalhop == old(ctl.hasRegisteredOwnLocalhop)
    ensures localIp.Some? ==>
      && rcv.myAddress == old(rcv.myAddress)
      && ctl.effects == old(ctl.effects) + ProbesSent(fib, rcv.myAddress, clock, failingSend)
      && ctl.connectedPeers == old(ctl.connectedPeers) && ctl.ipsOfLoggedPeers == old(ctl.ipsOfLoggedPeers)
      && ctl.hasRegisteredOwnLocalhop == old(ctl.hasRegisteredOwnLocalhop)
  {
    if localIp.None? {
      if rcv.myAddress.Some? {
        rcv.myAddress := None;
        ctl.Emit(UnregisterOwnLocalhop);
        ctl.connectedPeers := {};
        ctl.ipsOfLoggedPeers := {};
        ctl.hasRegisteredOwnLocalhop := false;
        ctl.Emit(StartDiscoveringPeers);
      }
      return;
    }
    if fib.None? {
      return;
    }
    SendProbes(ctl, fib.value, rcv.myAddress, clock, failingSend);
  }

  /** The loop of `run` over the forwarding table; a failed send ends it. */
  method SendProbes(ctl: NdnController, fibEntries: seq<FibEntry>, myAddress: Option<string>,
                    clock: nat -> nat, failingSend: Option<nat>)
    modifies ctl`effects
    ensures ctl.effects == old(ctl.effects) + ProbesSent(Some(fibEntries), myAddress, clock, failingSend)
  {
    ghost var start := ctl.effects;
    ghost var targets: seq<string> := [];
    var sent := 0;
    for i := 0 to |fibEntries|
      invariant targets == ProbeTargets(fibEntries[..i], myAddress) && sent == |targets|
      invariant ctl.effects == start + ProbeInterests(targets, myAddress, clock)
      invariant failingSend.Some? ==> sent <= failingSend.value
    {
      var prefix := fibEntries[i].prefix;
      ProbeTargetsSnoc(fibEntries[..i], fibEntries[i], myAddress);
      assert fibEntries[..i + 1] == fibEntries[..i] + [fibEntries[i]];
      if IsProbeTarget(prefix, myAddress) {
        var name := ProbeName(prefix, myAddress, clock(sent));
        if failingSend.Some? && failingSend.value == sent {
          ProbesSentStop(fibEntries, myAddress, clock, i);
          return;
        }
        ctl.Emit(ExpressInterest(name, true));
        ProbeInterestsSnoc(targets, prefix, myAddress, clock);
        EffectsGrow(start, ProbeInterests(targets, myAddress, clock), ExpressInterest(name, true));
        targets := targets + [prefix];
        sent := sent + 1;
      }
    }
    assert fibEntries[..|fibEntries|] == fibEntries;
  }

  lemma ProbeInterestsSnoc(targets: seq<string>, prefix: string, myAddress: Option<string>, clock: nat -> nat)
    ensures ProbeInterests(targets + [prefix], myAddress, clock) ==
      ProbeInterests(targets, myAddress, clock) + [ExpressInterest(ProbeName(prefix, myAddress, clock(|targets|)), true)]
  {
  }

  /** Probing a leading part of the targets sends a leading part of the probes. */
  lemma ProbeInterestsPrefix(all: seq<string>, before: seq<string>, myAddress: Option<string>, clock: nat -> nat)
    requires |before| <= |all| && all[..|before|] == before
    ensures ProbeInterests(all, myAddress, clock)[..|before|] == ProbeInterests(before, myAddress, clock)
  {
  }

  /** The targets before a probed entry are fewer than, and lead, the targets of the whole table. */
  lemma ProbeTargetsBefore(fibEntries: seq<FibEntry>, myAddress: Option<string>, i: nat)
    requires i < |fibEntries| && IsProbeTarget(fibEntries[i].prefix, myAddress)
    ensures var before := ProbeTargets(fibEntries[..i], myAddress);
      var all := ProbeTargets(fibEntries, myAddress);
      |before| < |all| && all[..|before|] == before
  {
    var all := ProbeTargets(fibEntries, myAddress);
    var before := ProbeTargets(fibEntries[..i], myAddress);
    var upto := ProbeTargets(fibEntries[..i + 1], myAddress);
    assert upto == before + [fibEntries[i].prefix] by {
      ProbeTargetsSnoc(fibEntries[..i], fibEntries[i], myAddress);
      assert fibEntries[..i + 1] == fibEntries[..i] + [fibEntries[i]];
    }
    assert |upto| <= |all| && all[..|upto|] == upto by {
      ProbeTargetsPrefix(fibEntries, myAddress, i + 1);
    }
    assert all[..|before|] == upto[..|before|];
    assert upto[..|before|] == before;
  }

  /**
   * When the send for table entry `i` fails, what went out are the probes
   * of the entries before it: a leading part of the whole round.
   */
  lemma ProbesSentStop(fibEntries: seq<FibEntry>, myAddress: Option<string>, clock: nat -> nat, i: nat)
    requires i < |fibEntries| && IsProbeTarget(fibEntries[i].prefix, myAddress)
    ensures var before := ProbeTargets(fibEntries[..i], myAddress);
      ProbesSent(Some(fibEntries), myAddress, clock, Some(|before|)) == ProbeInterests(before, myAddress, clock)
  {
    var all := ProbeTargets(fibEntries, myAddress);
    var before := ProbeTargets(fibEntries[..i], myAddress);
    ProbeTargetsBefore(fibEntries, myAddress, i);
    ProbeInterestsPrefix(all, before, myAddress, clock);
  }

  /** The targets of a leading part of the table lead the targets of the whole table. */
  lemma {:induction false} ProbeTargetsPrefix(fib: seq<FibEntry>, myAddress: Option<string>, n: nat)
    requires n <= |fib|
    ensures var part := ProbeTargets(fib[..n], myAddress);
      |part| <= |ProbeTargets(fib, myAddress)| && ProbeTargets(fib, myAddress)[..|part|] == part
  {
    if n < |fib| {
      var init := fib[..|fib| - 1];
      assert fib[..n] == init[..n];
      ProbeTargetsPrefix(init, myAddress, n);
    } else {
      assert fib[..n] == fib;
    }
  }

  /**
   * The response handler of a probe to `peerIp`: the reconciliation runs
   * first and an exception it lets escape ends the handler; then the peer's
   * counter is cleared, which throws when the peer is not tracked.
   */
  method OnData(ctl: NdnController, peerIp: string, interestName: string, content: string,
                fib: Option<seq<FibEntry>>) returns (outcome: Outcome)
    modifies ctl`effects, ctl`peersByIp
    ensures var plan := PlanFor(ctl.faceIdOf, interestName, content, fib);
      && |old(ctl.effects)| <= |ctl.effects|
      && ctl.effects[..|old(ctl.effects)|] == old(ctl.effects)
      && EmitsPlan(plan, ctl.effects[|old(ctl.effects)|..])
      && (plan.Err? ==> outcome == Thrown(plan.error) && ctl.peersByIp == old(ctl.peersByIp))
      && (plan.Ok? ==> match AfterData(old(ctl.peersByIp), peerIp)
                       case Err(e) => outcome == Thrown(e) && ctl.peersByIp == old(ctl.peersByIp)
                       case Ok(peers) => outcome == Normal && ctl.peersByIp == peers)
  {
    outcome := DoJob(ctl, interestName, content, fib);
    if outcome.Thrown? {
      return;
    }
    if peerIp !in ctl.peersByIp {
      return Thrown(NullPointer);
    }
    var peer := ctl.peersByIp[peerIp];
    ctl.peersByIp := ctl.peersByIp[peerIp := peer.(numProbeTimeouts := 0)];
  }

  /** The timeout handler of a probe to `peerIp`. */
  method OnTimeout(ctl: NdnController, peerIp: string)
    modifies ctl`effects, ctl`peersByIp
    ensures ctl.peersByIp == AfterTimeout(old(ctl.peersByIp), peerIp)
    ensures ctl.effects == old(ctl.effects) +
      (if TimeoutEvicts(old(ctl.peersByIp), peerIp) then [RemovePeer(peerIp)] else [])
  {
    if peerIp !in ctl.peersByIp {
      return;
    }
    var peer := ctl.peersByIp[peerIp];
    if peer.numProbeTimeouts + 1 >= MAX_TIMEOUTS_ALLOWED {
      ctl.RemovePeerByIp(peerIp);
    } else {
      ctl.peersByIp := ctl.peersByIp[peerIp := peer.(numProbeTimeouts := peer.numProbeTimeouts + 1)];
    }
  }
}
