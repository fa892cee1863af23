/**
 * The handler for a probe response (ProbeOnData.doJob): it reads the peer's
 * address out of the probe name, parses the advertised prefixes, collects the
 * prefixes the forwarding table currently routes to that peer's face, and
 * registers what is newly advertised and unregisters what no longer is.
 */
module ProbeOnData {
  import opened JavaLang
  import opened Controller

  /** Prefixes left out of the reconciliation: link-local and host-local scope. */
  predicate IsLocalScope(prefix: string)
  {
    StartsWith(prefix, "/localhop") || StartsWith(prefix, "/localhost")
  }

  /** The peer address a probe name carries: its third-from-last `/` component. */
  function PeerIpOf(interestName: string): Result<string>
  {
    var nameArr := Split(interestName, '/');
    if |nameArr| < 3 then Err(ArrayIndexOutOfBounds) else Ok(nameArr[|nameArr| - 3])
  }

  /**
   * The prefixes a probe response advertises: line 0 holds a count N, lines
   * 1..N one prefix each. A malformed response yields the exception that
   * escapes the handler.
   */
  function ParsePayload(content: string): Result<set<string>>
  {
    ParseLines(Split(content, '\n'))
  }

  /** `ParsePayload` once the response is split into lines. */
  function ParseLines(lines: seq<string>): Result<set<string>>
  {
    if |lines| == 0 then Err(ArrayIndexOutOfBounds)
    else match ParseInt(lines[0])
      case None => Err(NumberFormat)
      case Some(n) =>
        if n < 0 then Err(IllegalArgument)
        else if n >= |lines| then Err(ArrayIndexOutOfBounds)
        else Ok(set i | 1 <= i <= n :: lines[i])
  }

  /** The prefixes the forwarding table routes to `peerFaceId`, local scope excluded. */
  function RegisteredFor(fib: seq<FibEntry>, peerFaceId: int): set<string>
  {
    if fib == [] then {}
    else
      var e := fib[|fib| - 1];
      RegisteredFor(fib[..|fib| - 1], peerFaceId) +
        (if !IsLocalScope(e.prefix) && peerFaceId in e.nextHops then {e.prefix} else {})
  }

  /** What one probe response leads to when no exception escapes. */
  datatype Plan =
    | UndocumentedPeer
    | FibUnavailable
    | Reconcile(peerFaceId: int, toRegister: set<string>, toUnregister: set<string>)

  /**
   * The decision `doJob` takes: a face id of -1 ends it before the payload is
   * parsed, a failure to list the forwarding table is caught, and otherwise
   * the deltas are advertised-minus-registered and registered-minus-advertised.
   */
  function PlanFor(faceIdOf: map<string, int>, interestName: string, content: string,
                   fib: Option<seq<FibEntry>>): Result<Plan>
  {
    match PeerIpOf(interestName)
    case Err(e) => Err(e)
    case Ok(peerIp) =>
      var peerFaceId := FaceIdForPeer(faceIdOf, Some(peerIp));
      if peerFaceId == -1 then Ok(UndocumentedPeer)
      else match ParsePayload(content)
        case Err(e) => Err(e)
        case Ok(advertised) =>
          if fib.None? then Ok(FibUnavailable)
          else
            var registered := RegisteredFor(fib.value, peerFaceId);
            Ok(Reconcile(peerFaceId, advertised - registered, registered - advertised))
  }

  /** `us` unregisters every prefix of `prefixes` from `faceId`, each exactly once. */
  predicate IsUnregisterBatch(us: seq<Effect>, faceId: int, prefixes: set<string>)
  {
    && |us| == |prefixes|
    && (forall i | 0 <= i < |us| :: us[i].Unregister? && us[i].faceId == faceId)
    && (forall i, j | 0 <= i < j < |us| && us[i].Unregister? && us[j].Unregister? ::
          us[i].prefix != us[j].prefix)
    && (set i | 0 <= i < |us| && us[i].Unregister? :: us[i].prefix) == prefixes
  }

  /**
   * The calls a plan makes: one registration carrying every new prefix (only
   * if there is one), then one unregistration per withdrawn prefix.
   */
  predicate EmitsPlan(plan: Result<Plan>, es: seq<Effect>)
  {
    match plan
    case Err(_) => es == []
    case Ok(UndocumentedPeer) => es == []
    case Ok(FibUnavailable) => es == []
    case Ok(Reconcile(f, toRegister, toUnregister)) =>
      var head := if toRegister == {} then [] else [RibRegister(f, toRegister)];
      |head| <= |es| && es[..|head|] == head && IsUnregisterBatch(es[|head|..], f, toUnregister)
  }

  /** Parsing loop of `doJob`: the same set, or the same exception, as `ParsePayload`. */
  method ParseResponse(content: string) returns (r: Result<set<string>>)
    ensures r == ParsePayload(content)
  {
    var responseArr := Split(content, '\n');
    if |responseArr| == 0 {
      return Err(ArrayIndexOutOfBounds);
    }
    var parsed := ParseInt(responseArr[0]);
    if parsed.None? {
      return Err(NumberFormat);
    }
    var numPrefixes := parsed.value;
    if numPrefixes < 0 {
      // new HashSet<>(numPrefixes) refuses a negative capacity
      return Err(IllegalArgument);
    }
    var prefixesInResp: set<string> := {};
    var i := 1;
    while i <= numPrefixes
      invariant 1 <= i <= numPrefixes + 1 && i <= |responseArr|
      invariant prefixesInResp == set k | 1 <= k < i :: responseArr[k]
    {
      if i >= |responseArr| {
        return Err(ArrayIndexOutOfBounds);
      }
      prefixesInResp := prefixesInResp + {responseArr[i]};
      i := i + 1;
    }
    assert prefixesInResp == set k | 1 <= k <= numPrefixes :: responseArr[k];
    return Ok(prefixesInResp);
  }

  /** Forwarding-table scan of `doJob`. */
  method CollectRegistered(fibEntries: seq<FibEntry>, peerFaceId: int) returns (registered: set<string>)
    ensures registered == RegisteredFor(fibEntries, peerFaceId)
  {
    registered := {};
    for i := 0 to |fibEntries|
      invariant registered == RegisteredFor(fibEntries[..i], peerFaceId)
    {
      var fibEntryPrefix := fibEntries[i].prefix;
      if !StartsWith(fibEntryPrefix, "/localhop") && !StartsWith(fibEntryPrefix, "/localhost") {
        var nextHopRecords := fibEntries[i].nextHops;
        for j := 0 to |nextHopRecords|
          invariant registered == RegisteredFor(fibEntries[..i], peerFaceId) +
                                  (if peerFaceId in nextHopRecords[..j] then {fibEntryPrefix} else {})
        {
          if nextHopRecords[j] == peerFaceId {
            registered := registered + {fibEntryPrefix};
          }
          assert nextHopRecords[..j + 1] == nextHopRecords[..j] + [nextHopRecords[j]];
        }
        assert nextHopRecords[..|nextHopRecords|] == nextHopRecords;
      }
      assert fibEntries[..i + 1][..i] == fibEntries[..i];
    }
    assert fibEntries[..|fibEntries|] == fibEntries;
  }

  /**
   * The in-place diff of `doJob`: walking the advertised set and dropping
   * every prefix found in both sets from both leaves the two deltas.
   */
  method Diff(advertised: set<string>, registered: set<string>)
    returns (toRegister: set<string>, toUnregister: set<string>)
    ensures toRegister == advertised - registered
    ensures toUnregister == registered - advertised
  {
    toRegister, toUnregister := advertised, registered;
    var pending := advertised;
    while pending != {}
      invariant pending <= advertised
      invariant toRegister == advertised - (registered * (advertised - pending))
      invariant toUnregister == registered - (advertised - pending)
      decreases pending
    {
      var prefix :| prefix in pending;
      if prefix in toUnregister {
        toRegister := toRegister - {prefix};
        toUnregister := toUnregister - {prefix};
      }
      pending := pending - {prefix};
    }
  }

  lemma UnregisterBatchGrows(us: seq<Effect>, faceId: int, prefixes: set<string>, p: string)
    requires IsUnregisterBatch(us, faceId, prefixes) && p !in prefixes
    ensures IsUnregisterBatch(us + [Unregister(p, faceId)], faceId, prefixes + {p})
  {
    var vs := us + [Unregister(p, faceId)];
    var before := set i | 0 <= i < |us| && us[i].Unregister? :: us[i].prefix;
    var after := set i | 0 <= i < |vs| && vs[i].Unregister? :: vs[i].prefix;
    forall q | q in after ensures q in before + {p} {
      var i :| 0 <= i < |vs| && vs[i].Unregister? && vs[i].prefix == q;
      if i < |us| { assert us[i] == vs[i]; }
    }
    forall q | q in before + {p} ensures q in after {
      if q != p {
        var i :| 0 <= i < |us| && us[i].Unregister? && us[i].prefix == q;
        assert vs[i] == us[i];
      } else {
        assert vs[|us|].prefix == p;
      }
    }
  }

  /** Unregistration loop of `doJob`: one call per prefix, in set order. */
  method UnregisterAll(ctl: NdnController, prefixesRegisteredForPeer: set<string>, peerFaceId: int)
    modifies ctl`effects
    ensures |old(ctl.effects)| <= |ctl.effects|
    ensures ctl.effects[..|old(ctl.effects)|] == old(ctl.effects)
    ensures IsUnregisterBatch(ctl.effects[|old(ctl.effects)|..], peerFaceId, prefixesRegisteredForPeer)
  {
    ghost var start := ctl.effects;
    ghost var sent: seq<Effect> := [];
    ghost var done: set<string> := {};
    var rest := prefixesRegisteredForPeer;
    while rest != {}
      invariant done + rest == prefixesRegisteredForPeer && done !! rest
      invariant ctl.effects == start + sent
      invariant IsUnregisterBatch(sent, peerFaceId, done)
      decreases rest
    {
      var toRemovePrefix :| toRemovePrefix in rest;
      ctl.Emit(Unregister(toRemovePrefix, peerFaceId));
      UnregisterBatchGrows(sent, peerFaceId, done, toRemovePrefix);
      EffectsGrow(start, sent, Unregister(toRemovePrefix, peerFaceId));
      sent := sent + [Unregister(toRemovePrefix, peerFaceId)];
      done := done + {toRemovePrefix};
      rest := rest - {toRemovePrefix};
    }
    assert ctl.effects[|start|..] == sent;
  }

  /**
   * The part of `doJob` inside its `try`: scans the forwarding table, diffs,
   * registers the new prefixes in one call and unregisters the withdrawn ones.
   */
  method SyncPrefixes(ctl: NdnController, peerFaceId: int, prefixesInResp: set<string>, fibEntries: seq<FibEntry>)
    modifies ctl`effects
    ensures var registered := RegisteredFor(fibEntries, peerFaceId);
      && |old(ctl.effects)| <= |ctl.effects|
      && ctl.effects[..|old(ctl.effects)|] == old(ctl.effects)
      && EmitsPlan(Ok(Reconcile(peerFaceId, prefixesInResp - registered, registered - prefixesInResp)),
                   ctl.effects[|old(ctl.effects)|..])
  {
    ghost var start := ctl.effects;
    var registered := CollectRegistered(fibEntries, peerFaceId);
    var toRegister, toUnregister := Diff(prefixesInResp, registered);
    if |toRegister| > 0 {
      ctl.Emit(RibRegister(peerFaceId, toRegister));
    }
    ghost var head := ctl.effects[|start|..];
    assert head == if toRegister == {} then [] else [RibRegister(peerFaceId, toRegister)];
    UnregisterAll(ctl, toUnregister, peerFaceId);
    ghost var tail := ctl.effects[|start|..];
    assert tail[..|head|] == head;
    assert tail[|head|..] == ctl.effects[|start| + |head|..];
  }

  /**
   * `doJob`: handles the response to a probe. What it does, and which
   * exception escapes it, is `PlanFor`; the calls it makes are those of
   * `EmitsPlan`. `fib` is None when listing the forwarding table fails.
   */
  method DoJob(ctl: NdnController, interestName: string, content: string, fib: Option<seq<FibEntry>>)
    returns (outcome: Outcome)
    modifies ctl`effects
    ensures var plan := PlanFor(ctl.faceIdOf, interestName, content, fib);
      && outcome == (if plan.Err? then Thrown(plan.error) else Normal)
      && |old(ctl.effects)| <= |ctl.effects|
      && ctl.effects[..|old(ctl.effects)|] == old(ctl.effects)
      && EmitsPlan(plan, ctl.effects[|old(ctl.effects)|..])
  {
    ghost var plan := PlanFor(ctl.faceIdOf, interestName, content, fib);
    ghost var start := ctl.effects;
    assert start[..|start|] == start && start[|start|..] == [];
    var nameArr := Split(interestName, '/');
    if |nameArr| < 3 {
      assert plan == Err(ArrayIndexOutOfBounds);
      return Thrown(ArrayIndexOutOfBounds);
    }
    var peerIp := nameArr[|nameArr| - 3];
    assert PeerIpOf(interestName) == Ok(peerIp);
    var peerFaceId := FaceIdForPeer(ctl.faceIdOf, Some(peerIp));
    if peerFaceId == -1 {
      assert plan == Ok(UndocumentedPeer);
      return Normal;
    }
    var parsed := ParseResponse(content);
    if parsed.Err? {
      assert plan == Err(parsed.error);
      return Thrown(parsed.error);
    }
    if fib.None? {
      assert plan == Ok(FibUnavailable);
      return Normal;
    }
    assert plan == Ok(Reconcile(peerFaceId, parsed.value - RegisteredFor(fib.value, peerFaceId),
                                RegisteredFor(fib.value, peerFaceId) - parsed.value));
    SyncPrefixes(ctl, peerFaceId, parsed.value, fib.value);
    return Normal;
  }

  // ---------------------------------------------------------------------
  // Properties of the reconciliation
  // ---------------------------------------------------------------------

  /** A prefix counts as routed to the peer iff some non-local entry for it lists the peer's face. */
  lemma {:induction false} RegisteredForMembership(fib: seq<FibEntry>, peerFaceId: int, p: string)
    ensures p in RegisteredFor(fib, peerFaceId) <==>
      exists i :: 0 <= i < |fib| && fib[i].prefix == p && !IsLocalScope(p) && peerFaceId in fib[i].nextHops
  {
    if fib != [] {
      var init := fib[..|fib| - 1];
      RegisteredForMembership(init, peerFaceId, p);
      if p in RegisteredFor(init, peerFaceId) {
        var i :| 0 <= i < |init| && init[i].prefix == p && !IsLocalScope(p) && peerFaceId in init[i].nextHops;
        assert fib[i] == init[i];
      }
      if exists i :: 0 <= i < |fib| && fib[i].prefix == p && !IsLocalScope(p) && peerFaceId in fib[i].nextHops {
        var i :| 0 <= i < |fib| && fib[i].prefix == p && !IsLocalScope(p) && peerFaceId in fib[i].nextHops;
        if i < |init| {
          assert init[i] == fib[i];
        }
      }
    }
  }

  /** Link-local and host-local prefixes are never withdrawn from a peer. */
  lemma LocalScopeNeverUnregistered(faceIdOf: map<string, int>, interestName: string, content: string,
                                    fib: Option<seq<FibEntry>>, p: string)
    requires PlanFor(faceIdOf, interestName, content, fib).Ok?
    requires PlanFor(faceIdOf, interestName, content, fib).value.Reconcile?
    requires IsLocalScope(p)
    ensures p !in PlanFor(faceIdOf, interestName, content, fib).value.toUnregister
  {
    var peerIp := PeerIpOf(interestName).value;
    RegisteredForMembership(fib.value, FaceIdForPeer(faceIdOf, Some(peerIp)), p);
  }

  /**
   * An advertised link-local or host-local prefix is never found among the
   * routed ones, so every probe response that carries it registers it again.
   */
  lemma AdvertisedLocalScopeAlwaysRegistered(faceIdOf: map<string, int>, interestName: string, content: string,
                                             fib: Option<seq<FibEntry>>, p: string)
    requires PlanFor(faceIdOf, interestName, content, fib).Ok?
    requires PlanFor(faceIdOf, interestName, content, fib).value.Reconcile?
    requires IsLocalScope(p) && p in ParsePayload(content).value
    ensures p in PlanFor(faceIdOf, interestName, content, fib).value.toRegister
  {
    var peerIp := PeerIpOf(interestName).value;
    RegisteredForMembership(fib.value, FaceIdForPeer(faceIdOf, Some(peerIp)), p);
  }

  /**
   * Applying a plan makes the routes towards the peer equal to what it
   * advertised: the two deltas are disjoint, and adding the first and then
   * withdrawing the second turns the routed set into the advertised one.
   */
  lemma ReconcileConverges(faceIdOf: map<string, int>, interestName: string, content: string,
                           fib: Option<seq<FibEntry>>)
    requires PlanFor(faceIdOf, interestName, content, fib).Ok?
    requires PlanFor(faceIdOf, interestName, content, fib).value.Reconcile?
    ensures var plan := PlanFor(faceIdOf, interestName, content, fib).value;
      var registered := RegisteredFor(fib.value, plan.peerFaceId);
      && plan.toRegister !! plan.toUnregister
      && plan.toRegister !! registered
      && plan.toUnregister <= registered
      && (registered + plan.toRegister) - plan.toUnregister == ParsePayload(content).value
  {
  }

  /**
   * Once the forwarding table routes exactly the advertised prefixes to the
   * peer, the same response changes nothing: both deltas are empty, so no
   * call is made.
   */
  lemma ReconcileIdempotent(faceIdOf: map<string, int>, interestName: string, content: string,
                            fib: seq<FibEntry>, es: seq<Effect>)
    requires PeerIpOf(interestName).Ok?
    requires ParsePayload(content).Ok?
    requires FaceIdForPeer(faceIdOf, Some(PeerIpOf(interestName).value)) != -1
    requires RegisteredFor(fib, FaceIdForPeer(faceIdOf, Some(PeerIpOf(interestName).value))) == ParsePayload(content).value
    ensures PlanFor(faceIdOf, interestName, content, Some(fib)).Ok?
    ensures PlanFor(faceIdOf, interestName, content, Some(fib)).value.Reconcile?
    ensures EmitsPlan(PlanFor(faceIdOf, interestName, content, Some(fib)), es) <==> es == []
  {
    var plan := PlanFor(faceIdOf, interestName, content, Some(fib));
    assert plan.value.toRegister == {} && plan.value.toUnregister == {};
    assert es[..0] == [] && es[0..] == es;
    assert plan == Ok(Reconcile(plan.value.peerFaceId, {}, {}));
    if EmitsPlan(plan, es) {
      assert IsUnregisterBatch(es, plan.value.peerFaceId, {});
    }
  }

  /**
   * A peer without a face ends the handler before its payload is read: the
   * response is ignored however malformed it is.
   */
  lemma UndocumentedPeerIgnoresPayload(faceIdOf: map<string, int>, interestName: string, content: string,
                                       fib: Option<seq<FibEntry>>)
    requires PeerIpOf(interestName).Ok?
    requires FaceIdForPeer(faceIdOf, Some(PeerIpOf(interestName).value)) == -1
    ensures PlanFor(faceIdOf, interestName, content, fib) == Ok(UndocumentedPeer)
  {
  }

  /**
   * Only the name and the payload can make the handler throw; a failure
   * to list the forwarding table never escapes it.
   */
  lemma ThrowsOnlyOnMalformedInput(faceIdOf: map<string, int>, interestName: string, content: string,
                                   fib: Option<seq<FibEntry>>)
    ensures PlanFor(faceIdOf, interestName, content, fib).Err? <==>
      || PeerIpOf(interestName).Err?
      || (FaceIdForPeer(faceIdOf, Some(PeerIpOf(interestName).value)) != -1 && ParsePayload(content).Err?)
    ensures PlanFor(faceIdOf, interestName, content, fib).Err? ==>
      PlanFor(faceIdOf, interestName, content, fib).error ==
        if PeerIpOf(interestName).Err? then PeerIpOf(interestName).error else ParsePayload(content).error
  {
  }

  // ---------------------------------------------------------------------
  // The payload format
  // ---------------------------------------------------------------------

  /** The prefixes one per line, each line ended by a newline. */
  function Lines(ps: seq<string>): string
  {
    if ps == [] then "" else ps[0] + "\n" + Lines(ps[1..])
  }

  /** A probe response as the format comment describes it: the count, then the prefixes. */
  function FormatPayload(ps: seq<string>): string
    requires |ps| <= MAX_INT
  {
    Decimal(|ps|) + "\n" + Lines(ps)
  }

  lemma {:induction false} PiecesOfLines(ps: seq<string>)
    requires forall i | 0 <= i < |ps| :: '\n' !in ps[i]
    ensures Pieces(Lines(ps), '\n') == ps + [""]
  {
    if ps != [] {
      PiecesOfLines(ps[1..]);
      PiecesOfJoin(ps[0], Lines(ps[1..]), '\n');
      PiecesWithoutSeparator(ps[0], '\n');
      assert ps[0] + "\n" + Lines(ps[1..]) == ps[0] + ['\n'] + Lines(ps[1..]);
      assert [ps[0]] + (ps[1..] + [""]) == ps + [""];
    }
  }

  /** A response with count `n` over well-formed lines splits into the count and the lines. */
  lemma SplitFormatted(n: nat, ps: seq<string>)
    requires forall i | 0 <= i < |ps| :: ps[i] != "" && '\n' !in ps[i]
    ensures Split(Decimal(n) + "\n" + Lines(ps), '\n') == [Decimal(n)] + ps
  {
    var d := Decimal(n);
    var s := d + "\n" + Lines(ps);
    assert s == d + ['\n'] + Lines(ps);
    assert '\n' !in d by {
      forall k | 0 <= k < |d| ensures d[k] != '\n' { assert IsDigit(d[k]); }
    }
    PiecesOfJoin(d, Lines(ps), '\n');
    PiecesWithoutSeparator(d, '\n');
    PiecesOfLines(ps);
    var lines := [d] + ps;
    assert Pieces(s, '\n') == lines + [""];
    assert '\n' in s by { assert s[|d|] == '\n'; }
    assert StripTrailingEmpty(lines + [""]) == lines by {
      assert (lines + [""])[..|lines|] == lines;
    }
  }

  /**
   * Parsing a well-formed response gives back exactly the prefixes it
   * carries: every prefix is a non-empty line without a newline.
   */
  lemma PayloadRoundTrip(ps: seq<string>)
    requires |ps| <= MAX_INT
    requires forall i | 0 <= i < |ps| :: ps[i] != "" && '\n' !in ps[i]
    ensures ParsePayload(FormatPayload(ps)) == Ok(set i | 0 <= i < |ps| :: ps[i])
  {
    SplitFormatted(|ps|, ps);
    DecimalRoundTrip(|ps|);
    var lines := [Decimal(|ps|)] + ps;
    assert Split(FormatPayload(ps), '\n') == lines;
    assert ParseInt(lines[0]) == Some(|ps|);
    var got := set i | 1 <= i <= |ps| :: lines[i];
    var want := set i | 0 <= i < |ps| :: ps[i];
    forall p | p in got ensures p in want {
      var i :| 1 <= i <= |ps| && lines[i] == p;
      assert ps[i - 1] == p;
    }
    forall p | p in want ensures p in got {
      var i :| 0 <= i < |ps| && ps[i] == p;
      assert lines[i + 1] == p;
    }
    assert got == want;
  }

  /** A count larger than the number of prefix lines that follow escapes as an index error. */
  lemma CountBeyondLinesThrows(n: nat, ps: seq<string>)
    requires |ps| < n <= MAX_INT
    requires forall i | 0 <= i < |ps| :: ps[i] != "" && '\n' !in ps[i]
    ensures ParsePayload(Decimal(n) + "\n" + Lines(ps)) == Err(ArrayIndexOutOfBounds)
  {
    SplitFormatted(n, ps);
    DecimalRoundTrip(n);
  }

  /** Lines beyond the count are ignored. */
  lemma LinesBeyondCountIgnored(n: nat, ps: seq<string>)
    requires n <= |ps| && n <= MAX_INT
    requires forall i | 0 <= i < |ps| :: ps[i] != "" && '\n' !in ps[i]
    ensures ParsePayload(Decimal(n) + "\n" + Lines(ps)) == Ok(set i | 0 <= i < n :: ps[i])
  {
    SplitFormatted(n, ps);
    DecimalRoundTrip(n);
    var lines := [Decimal(n)] + ps;
    assert ParseInt(lines[0]) == Some(n);
    var got := set i | 1 <= i <= n :: lines[i];
    var want := set i | 0 <= i < n :: ps[i];
    forall p | p in got ensures p in want {
      var i :| 1 <= i <= n && lines[i] == p;
      assert ps[i - 1] == p;
    }
    forall p | p in want ensures p in got {
      var i :| 0 <= i < n && ps[i] == p;
      assert lines[i + 1] == p;
    }
    assert got == want;
  }
}
