/** What holds over every run of a replica. */
module BridgeRuns {
  import opened BridgeTypes
  import opened WireFormat
  import opened ProposalParser
  import opened Quorum
  import opened ForcedViews
  import opened ViewBuilders
  import opened PreVerify

  /** Everything that can happen to a replica.  A view change by PBFT itself may set the
      primary and the view number to anything. */
  datatype Event =
    | Guarded(req: Request, env: Env)
    | Open(req: Request)
    | Execute(payload: bytes)
    | Trigger(triggered: bytes, hash: string)
    | Lookup(seqNo: uint64, lookupHash: string)
    | SetFaults(f: int)
    | SetMode(perEpoch: bool)
    | Promote(omnetId: int32)
    | ViewChange(newPrimary: uint32, newView: uint64)

  ghost function Step(expected: int, s: BridgeState, e: Event): BridgeState {
    match e
    case Guarded(req, env) => GuardedStep(expected, s, req, env).0
    case Open(req) => OpenStep(expected, s, req).0
    case Execute(payload) => ExecuteStep(s, payload)
    case Trigger(payload, hash) => TriggerStep(expected, s, payload, hash)
    case Lookup(seqNo, hash) => s.(registry := AfterLookup(s.registry, seqNo, hash))
    case SetFaults(f) => ToleratedFaultsSet(expected, s, f)
    case SetMode(perEpoch) => s.(faults := s.faults.(rollbackPerEpoch := perEpoch))
    case Promote(id) => PrimaryPromoted(expected, s, id)
    case ViewChange(p, v) => s.(primary := p, currentView := v)
  }

  ghost function Run(expected: int, s: BridgeState, events: seq<Event>): BridgeState {
    if events == [] then s
    else Step(expected, Run(expected, s, events[..|events| - 1]), events[|events| - 1])
  }

  ghost predicate Fresh(s: BridgeState) {
    s.registry == Registry(map[], map[], None) && s.crashEpochs == {}
  }

  // ----- every view a replica ever holds is well-formed

  ghost predicate RegistryWellFormed(r: Registry, expected: int) {
    match r
    case Registry(views, pending, latest) =>
      && (forall k :: k in views ==>
            WellFormed(views[k], expected) && k == ViewKey(views[k].epoch, views[k].seqNo, views[k].requestHash))
      && (forall h :: h in pending ==> WellFormed(pending[h], expected) && pending[h].requestHash == h)
      && (latest.Some? ==> WellFormed(latest.value, expected))
  }

  /** The view the matching builder makes of a request's proposal. */
  ghost function ViewFor(expected: int, s: BridgeState, req: Request): Option<ForcedView> {
    if req.kind.OtherRequest? || req.payload.None? then None
    else
      match Classify(req.payload.value)
      case None => None
      case Some(CancelProposal(c, leaderId, electors)) =>
        CancelView(c, leaderId, electors, expected, s.faults, Some(req.meta))
      case Some(NormalProposal(data)) =>
        ParsedPayload(req.payload.value);
        var hdr := DecodeHdr(data);
        EpochOrderView(hdr, DecodeEntries(data, PROPOSE_HDR_SIZE, hdr.nVehicles), expected, s.faults, Some(req.meta))
      case Some(RollbackProposal(_, data)) =>
        ParsedPayload(req.payload.value);
        var hdr := DecodeHdr(data);
        RollbackView(hdr, DecodeEntries(data, PROPOSE_HDR_SIZE, hdr.nVehicles), expected, s.faults, Some(req.meta))
  }

  lemma ViewForIsCandidate(expected: int, s: BridgeState, req: Request)
    ensures var v := ViewFor(expected, s, req); v.Some? ==> Candidate(v.value, expected)
  {
    if !req.kind.OtherRequest? && req.payload.Some? && Classify(req.payload.value).Some? {
      ParsedPayload(req.payload.value);
      match Classify(req.payload.value).value
      case CancelProposal(c, leaderId, electors) =>
        CancelBuilderGivesCandidates(c, leaderId, electors, expected, s.faults, Some(req.meta));
      case NormalProposal(data) =>
        var hdr := DecodeHdr(data);
        OrderBuildersGiveCandidates(hdr, DecodeEntries(data, PROPOSE_HDR_SIZE, hdr.nVehicles),
          expected, s.faults, Some(req.meta));
      case RollbackProposal(_, data) =>
        var hdr := DecodeHdr(data);
        OrderBuildersGiveCandidates(hdr, DecodeEntries(data, PROPOSE_HDR_SIZE, hdr.nVehicles),
          expected, s.faults, Some(req.meta));
    }
  }

  /** The registry is untouched, or has taken in exactly the view built from the request. */
  ghost predicate InstallsAtMost(expected: int, s: BridgeState, req: Request, after: Registry) {
    after == s.registry ||
    (ViewFor(expected, s, req).Some? && after == InstallStep(s, req, ViewFor(expected, s, req).value).0.registry)
  }

  lemma GuardedInstalls(expected: int, s: BridgeState, req: Request, env: Env)
    ensures InstallsAtMost(expected, s, req, GuardedStep(expected, s, req, env).0.registry)
    ensures GuardedStep(expected, s, req, env).0.crashEpochs == s.crashEpochs
  {
    if !req.kind.OtherRequest? && req.payload.Some? && Classify(req.payload.value).Some? {
      var raw := req.payload.value;
      ParsedPayload(raw);
      match Classify(raw).value
      case NormalProposal(data) => OrderInstalls(expected, s, req, data, env);
      case CancelProposal(c, leaderId, electors) =>
      case RollbackProposal(r, data) => RollbackInstalls(expected, s, req, raw, r, data, env);
    }
  }

  /** `after` differs from `s` by at most the installation of `v`, and not in the gate. */
  ghost predicate Installs(s: BridgeState, req: Request, v: Option<ForcedView>, after: BridgeState) {
    && after.crashEpochs == s.crashEpochs
    && (after.registry == s.registry || (v.Some? && after.registry == InstallStep(s, req, v.value).0.registry))
  }

  lemma OrderInstalls(expected: int, s: BridgeState, req: Request, data: bytes, env: Env)
    requires ParseNormalProposal(data).Some?
    ensures var entries := DecodeEntries(data, PROPOSE_HDR_SIZE, DecodeHdr(data).nVehicles);
      Installs(s, req, EpochOrderView(DecodeHdr(data), entries, expected, s.faults, Some(req.meta)),
               OrderStep(expected, s, req, data, env).0)
  {
  }

  lemma RollbackInstalls(expected: int, s: BridgeState, req: Request, raw: bytes, r: RollbackHdr, data: bytes, env: Env)
    requires ParseNormalProposal(data).Some?
    ensures var entries := DecodeEntries(data, PROPOSE_HDR_SIZE, DecodeHdr(data).nVehicles);
      Installs(s, req, RollbackView(DecodeHdr(data), entries, expected, s.faults, Some(req.meta)),
               RollbackStep(expected, s, req, raw, r, data, env).0)
  {
  }

  lemma OpenInstalls(expected: int, s: BridgeState, req: Request)
    ensures InstallsAtMost(expected, s, req, OpenStep(expected, s, req).0.registry)
    ensures OpenStep(expected, s, req).0.crashEpochs == s.crashEpochs
  {
  }

  lemma RegistryTakes(r: Registry, v: ForcedView, expected: int)
    requires RegistryWellFormed(r, expected) && WellFormed(v, expected)
    ensures RegistryWellFormed(PendingInstalled(r, v), expected)
    ensures RegistryWellFormed(RequestInstalled(r, v), expected)
  {
  }

  lemma InstalledViewKeepsRegistry(s: BridgeState, req: Request, v: ForcedView, expected: int)
    requires RegistryWellFormed(s.registry, expected) && Candidate(v, expected)
    ensures RegistryWellFormed(InstallStep(s, req, v).0.registry, expected)
  {
    CandidateNormalizes(v, expected);
    var n := Normalize(v).value;
    RegistryTakes(s.registry, n, expected);
    RegistryTakes(s.registry, Bound(n, req.meta.seqNo, req.meta.hash), expected);
  }

  lemma InstallKeepsRegistry(expected: int, s: BridgeState, req: Request, after: Registry)
    requires RegistryWellFormed(s.registry, expected) && InstallsAtMost(expected, s, req, after)
    ensures RegistryWellFormed(after, expected)
  {
    ViewForIsCandidate(expected, s, req);
    var v := ViewFor(expected, s, req);
    if v.Some? { InstalledViewKeepsRegistry(s, req, v.value, expected); }
  }

  lemma TriggerKeepsRegistry(expected: int, s: BridgeState, payload: bytes, hash: string)
    requires RegistryWellFormed(s.registry, expected)
    ensures RegistryWellFormed(TriggerStep(expected, s, payload, hash).registry, expected)
  {
    match Classify(payload)
    case Some(CancelProposal(c, leaderId, electors)) =>
      CancelBuilderGivesCandidates(c, leaderId, electors, expected, s.faults, None);
      var v := CancelView(c, leaderId, electors, expected, s.faults, None);
      if v.Some? { CandidateNormalizes(v.value.(requestHash := hash), expected); }
    case _ =>
  }

  lemma StepKeepsRegistry(expected: int, s: BridgeState, e: Event)
    requires RegistryWellFormed(s.registry, expected)
    ensures RegistryWellFormed(Step(expected, s, e).registry, expected)
  {
    match e
    case Guarded(req, env) =>
      GuardedInstalls(expected, s, req, env);
      InstallKeepsRegistry(expected, s, req, GuardedStep(expected, s, req, env).0.registry);
    case Open(req) =>
      OpenInstalls(expected, s, req);
      InstallKeepsRegistry(expected, s, req, OpenStep(expected, s, req).0.registry);
    case Execute(payload) =>
    case Trigger(payload, hash) => TriggerKeepsRegistry(expected, s, payload, hash);
    case Lookup(seqNo, hash) =>
    case SetFaults(f) =>
    case SetMode(perEpoch) =>
    case Promote(id) =>
    case ViewChange(p, v) =>
  }

  /** In every run, with the firewall on, off or switching, every view the registry holds
      has strictly sorted in-range members among them its primary, a fault bound its
      membership supports, and the matching quorum. */
  lemma {:induction false} ViewsAlwaysWellFormed(expected: int, s: BridgeState, events: seq<Event>)
    requires Fresh(s)
    ensures RegistryWellFormed(Run(expected, s, events).registry, expected)
  {
    if events != [] {
      var n := |events| - 1;
      ViewsAlwaysWellFormed(expected, s, events[..n]);
      StepKeepsRegistry(expected, Run(expected, s, events[..n]), events[n]);
    }
  }

  /** In other words: a view that a replica holds at any moment of a run lists its members once, in
      increasing order and in range, its primary among them, with a fault bound they support and the
      least quorum of which any two share more members than that. */
  lemma HeldViewsAreSound(expected: int, s: BridgeState, events: seq<Event>, v: ForcedView)
    requires Fresh(s)
    requires var r := Run(expected, s, events).registry;
      v in r.views.Values || v in r.pending.Values || r.latest == Some(v)
    ensures forall i, j :: 0 <= i < j < |v.members| ==> v.members[i] < v.members[j]
    ensures (forall m :: m in v.members ==> 0 <= m < expected) && v.primary in v.members
    ensures v.f >= 0 && |v.members| >= 3 * v.f + 1
    ensures 2 * v.quorum - |v.members| > v.f && 2 * (v.quorum - 1) - |v.members| <= v.f
  {
    ViewsAlwaysWellFormed(expected, s, events);
    HeldIsWellFormed(Run(expected, s, events).registry, expected, v);
    QuorumExists(|v.members|, v.f);
  }

  lemma HeldIsWellFormed(r: Registry, expected: int, v: ForcedView)
    requires RegistryWellFormed(r, expected)
    requires v in r.views.Values || v in r.pending.Values || r.latest == Some(v)
    ensures WellFormed(v, expected) && v.members != []
  {
  }

  // ----- a rejected proposal has no effect

  /** Guarded verification that rejects leaves registry, pending views, primary, view number
      and gate as they were. */
  lemma RejectedHasNoEffect(expected: int, s: BridgeState, req: Request, env: Env)
    requires !GuardedStep(expected, s, req, env).1
    ensures GuardedStep(expected, s, req, env).0 == s
  {
  }

  // ----- members are bound to a request for good

  lemma InstallKeepsBindings(s: BridgeState, req: Request, v: ForcedView, k: ViewKey)
    requires k in s.registry.views
    ensures var after := InstallStep(s, req, v).0.registry;
      k in after.views && after.views[k].members == s.registry.views[k].members
  {
  }

  lemma StepKeepsBindings(expected: int, s: BridgeState, e: Event, k: ViewKey)
    requires RegistryWellFormed(s.registry, expected) && k in s.registry.views
    ensures var after := Step(expected, s, e).registry;
      k in after.views && after.views[k].members == s.registry.views[k].members
  {
    match e
    case Guarded(req, env) =>
      GuardedInstalls(expected, s, req, env);
      var v := ViewFor(expected, s, req);
      if v.Some? { InstallKeepsBindings(s, req, v.value, k); }
    case Open(req) =>
      OpenInstalls(expected, s, req);
      var v := ViewFor(expected, s, req);
      if v.Some? { InstallKeepsBindings(s, req, v.value, k); }
    case Execute(payload) =>
    case Trigger(payload, hash) =>
    case Lookup(seqNo, hash) =>
      LookupKeepsBindings(s.registry, expected, seqNo, hash, k);
    case SetFaults(f) =>
    case SetMode(perEpoch) =>
    case Promote(id) =>
    case ViewChange(p, v) =>
  }

  lemma LookupKeepsBindings(r: Registry, expected: int, seqNo: uint64, hash: string, k: ViewKey)
    requires RegistryWellFormed(r, expected) && k in r.views
    ensures k in AfterLookup(r, seqNo, hash).views && AfterLookup(r, seqNo, hash).views[k] == r.views[k]
  {
    if hash in r.pending {
      assert r.pending[hash].requestHash == hash;
      assert k == ViewKey(r.pending[hash].epoch, seqNo, hash) ==> Matches(k, seqNo, hash);
    }
  }

  /** Once a request (epoch, sequence number, hash) has a membership, no later event changes it. */
  lemma {:induction false} MembershipIsImmutable(expected: int, s: BridgeState, events: seq<Event>, i: nat, k: ViewKey)
    requires Fresh(s) && i <= |events|
    requires k in Run(expected, s, events[..i]).registry.views
    ensures k in Run(expected, s, events).registry.views
    ensures Run(expected, s, events).registry.views[k].members
      == Run(expected, s, events[..i]).registry.views[k].members
  {
    if i == |events| {
      assert events[..i] == events;
    } else {
      var n := |events| - 1;
      assert events[..n][..i] == events[..i];
      MembershipIsImmutable(expected, s, events[..n], i, k);
      ViewsAlwaysWellFormed(expected, s, events[..n]);
      StepKeepsBindings(expected, Run(expected, s, events[..n]), events[n], k);
    }
  }

  lemma ViewQuorumsOverlap(v1: ForcedView, v2: ForcedView, expected: int, votesA: set<int>, votesB: set<int>)
    requires WellFormed(v1, expected) && WellFormed(v2, expected) && v1.members == v2.members
    requires |votesA| >= v1.quorum && forall m :: m in votesA ==> m in v1.members
    requires |votesB| >= v2.quorum && forall m :: m in votesB ==> m in v2.members
    ensures |votesA * votesB| >= (if v1.f < v2.f then v1.f else v2.f) + 1
  {
    SizeOfSorted(v1.members);
    var m := set x | x in v1.members;
    assert v1.primary in m;
    forall x | x in votesA ensures x in m {}
    forall x | x in votesB ensures x in m {}
    QuorumsIntersect(m, v1.f, v2.f, votesA, votesB);
  }

  // ----- the view in force for a request

  /** The event binds view `v` to the sequence number and hash of the PRE_PREPARE it verifies. */
  ghost predicate Binds(expected: int, s: BridgeState, e: Event, v: ForcedView) {
    && (e.Guarded? || e.Open?)
    && e.req.kind.PrePrepare? && v.seqNo == e.req.meta.seqNo && v.requestHash == e.req.meta.hash
    && MayBind(s.registry, v, v.requestHash)
    && Step(expected, s, e).registry == RequestInstalled(s.registry, v)
  }

  /** The event shows the voters of (`seqNo`, `hash`) a view of an epoch below `epoch`. */
  ghost predicate Undercuts(expected: int, s: BridgeState, e: Event, seqNo: uint64, hash: string, epoch: uint32) {
    exists v :: Binds(expected, s, e, v) && v.seqNo == seqNo && v.requestHash == hash && v.epoch < epoch
  }

  /** Both registries bind the same views to the request. */
  ghost predicate SameBound(r: Registry, after: Registry, seqNo: uint64, hash: string) {
    forall k :: Matches(k, seqNo, hash) ==>
      (k in r.views <==> k in after.views) && (k in r.views ==> r.views[k] == after.views[k])
  }

  lemma SameBoundKeepsForce(r: Registry, after: Registry, seqNo: uint64, hash: string)
    requires Settled(r, seqNo, hash) && SameBound(r, after, seqNo, hash)
    ensures Settled(after, seqNo, hash) && InForce(after, seqNo, hash) == InForce(r, seqNo, hash)
  {
    var k := LeastKey(r, seqNo, hash);
    assert k in after.views;
    var k' := LeastKey(after, seqNo, hash);
    assert k' in r.views && k.epoch == k'.epoch;
    assert k == k';
  }

  /** Binding a view replaces the one in force exactly if it is of a lower or equal epoch. */
  lemma BindingInForce(r: Registry, expected: int, v: ForcedView)
    requires RegistryWellFormed(r, expected) && Settled(r, v.seqNo, v.requestHash)
    ensures var cur := InForce(r, v.seqNo, v.requestHash).value;
      Settled(RequestInstalled(r, v), v.seqNo, v.requestHash)
      && InForce(RequestInstalled(r, v), v.seqNo, v.requestHash) == Some(if v.epoch <= cur.epoch then v else cur)
  {
    var after := RequestInstalled(r, v);
    var kv := ViewKey(v.epoch, v.seqNo, v.requestHash);
    assert kv in after.views && Matches(kv, v.seqNo, v.requestHash);
    var k := LeastKey(r, v.seqNo, v.requestHash);
    assert k in after.views;
    var k' := LeastKey(after, v.seqNo, v.requestHash);
    assert k' == kv || k' in r.views;
    assert k' == if v.epoch <= k.epoch then kv else k;
  }

  /** An event either binds a view, or leaves the views bound to a settled request alone. */
  lemma StepBinds(expected: int, s: BridgeState, e: Event, seqNo: uint64, hash: string)
    requires RegistryWellFormed(s.registry, expected) && Settled(s.registry, seqNo, hash)
    ensures SameBound(s.registry, Step(expected, s, e).registry, seqNo, hash)
      || exists v :: Binds(expected, s, e, v) && v.seqNo == seqNo && v.requestHash == hash
  {
    match e
    case Guarded(req, env) =>
      GuardedInstalls(expected, s, req, env);
      RequestBinds(expected, s, e, req, seqNo, hash);
    case Open(req) =>
      OpenInstalls(expected, s, req);
      RequestBinds(expected, s, e, req, seqNo, hash);
    case Execute(payload) =>
    case Trigger(payload, h) =>
    case Lookup(seqNo', hash') =>
      LookupLeavesSettled(s.registry, expected, seqNo', hash', seqNo, hash);
    case SetFaults(f) =>
    case SetMode(perEpoch) =>
    case Promote(id) =>
    case ViewChange(p, v) =>
  }

  /** Installing a view binds it, or leaves every bound view alone. */
  lemma InstallBinds(s: BridgeState, req: Request, v: ForcedView)
    ensures var after := InstallStep(s, req, v).0.registry;
      after.views == s.registry.views
      || (req.kind.PrePrepare? && Normalize(v).Some?
          && MayBind(s.registry, Bound(Normalize(v).value, req.meta.seqNo, req.meta.hash), req.meta.hash)
          && after == RequestInstalled(s.registry, Bound(Normalize(v).value, req.meta.seqNo, req.meta.hash)))
  {
  }

  lemma OtherRequestsKept(r: Registry, v: ForcedView, seqNo: uint64, hash: string)
    requires v.seqNo != seqNo || v.requestHash != hash
    ensures SameBound(r, RequestInstalled(r, v), seqNo, hash)
  {
  }

  lemma RequestBinds(expected: int, s: BridgeState, e: Event, req: Request, seqNo: uint64, hash: string)
    requires (e.Guarded? || e.Open?) && e.req == req
    requires InstallsAtMost(expected, s, req, Step(expected, s, e).registry)
    ensures SameBound(s.registry, Step(expected, s, e).registry, seqNo, hash)
      || exists v :: Binds(expected, s, e, v) && v.seqNo == seqNo && v.requestHash == hash
  {
    var after := Step(expected, s, e).registry;
    if after.views != s.registry.views {
      var candidate := ViewFor(expected, s, req).value;
      InstallBinds(s, req, candidate);
      var v := Bound(Normalize(candidate).value, req.meta.seqNo, req.meta.hash);
      assert Binds(expected, s, e, v);
      if v.seqNo != seqNo || v.requestHash != hash { OtherRequestsKept(s.registry, v, seqNo, hash); }
    }
  }

  lemma LookupLeavesSettled(r: Registry, expected: int, seqNo': uint64, hash': string, seqNo: uint64, hash: string)
    requires RegistryWellFormed(r, expected) && Settled(r, seqNo, hash)
    ensures SameBound(r, AfterLookup(r, seqNo', hash'), seqNo, hash)
  {
    if hash' in r.pending {
      assert r.pending[hash'].requestHash == hash';
    }
  }

  /** The lookup finds a pending view and a sequence number to bind it to. */
  ghost predicate Promotes(r: Registry, seqNo: uint64, hash: string) {
    hash != "" && !Settled(r, seqNo, hash) && hash in r.pending && seqNo != 0
  }

  /** Looking a request up changes the view in force of no request; it binds the pending view of
      the hash to the sequence number asked for, and touches nothing else. */
  lemma LookupKeepsForce(r: Registry, expected: int, seqNo: uint64, hash: string, seqNo': uint64, hash': string)
    requires RegistryWellFormed(r, expected)
    ensures InForce(AfterLookup(r, seqNo, hash), seqNo', hash') == InForce(r, seqNo', hash')
    ensures seqNo != 0 && InForce(r, seqNo, hash).Some? ==> Settled(AfterLookup(r, seqNo, hash), seqNo, hash)
    ensures AfterLookup(r, seqNo, hash).pending == r.pending
  {
    var after := AfterLookup(r, seqNo, hash);
    if Promotes(r, seqNo, hash) { PromotedInForce(r, expected, seqNo, hash); }
    if Settled(r, seqNo', hash') {
      LookupLeavesSettled(r, expected, seqNo, hash, seqNo', hash');
      SameBoundKeepsForce(r, after, seqNo', hash');
    } else if Promotes(r, seqNo, hash) && (seqNo' != seqNo || hash' != hash) {
      PromotedElsewhere(r, expected, seqNo, hash, seqNo', hash');
    }
  }

  lemma PromotedInForce(r: Registry, expected: int, seqNo: uint64, hash: string)
    requires RegistryWellFormed(r, expected) && Promotes(r, seqNo, hash)
    ensures Settled(AfterLookup(r, seqNo, hash), seqNo, hash)
    ensures InForce(AfterLookup(r, seqNo, hash), seqNo, hash) == InForce(r, seqNo, hash)
  {
    var after, v := AfterLookup(r, seqNo, hash), r.pending[hash].(seqNo := seqNo);
    var key := ViewKey(v.epoch, seqNo, hash);
    assert v.requestHash == hash && key in after.views && Matches(key, seqNo, hash);
    assert LeastKey(after, seqNo, hash) == key;
  }

  lemma PromotedElsewhere(r: Registry, expected: int, seqNo: uint64, hash: string, seqNo': uint64, hash': string)
    requires RegistryWellFormed(r, expected) && Promotes(r, seqNo, hash)
    requires !Settled(r, seqNo', hash') && (seqNo' != seqNo || hash' != hash)
    ensures InForce(AfterLookup(r, seqNo, hash), seqNo', hash') == InForce(r, seqNo', hash')
  {
    assert r.pending[hash].requestHash == hash;
    assert !Settled(AfterLookup(r, seqNo, hash), seqNo', hash');
  }

  /** The view in force after `v` was bound over `cur`. */
  ghost predicate BoundForce(cur: Option<ForcedView>, v: ForcedView, next: Option<ForcedView>) {
    && cur.Some?
    && next == Some(if v.epoch <= cur.value.epoch then v else cur.value)
    && (v.epoch == cur.value.epoch ==> v.members == cur.value.members)
  }

  lemma ForceOfBound(r: Registry, expected: int, v: ForcedView, after: Registry)
    requires RegistryWellFormed(r, expected) && Settled(r, v.seqNo, v.requestHash)
    requires MayBind(r, v, v.requestHash) && after == RequestInstalled(r, v)
    ensures Settled(after, v.seqNo, v.requestHash)
    ensures BoundForce(InForce(r, v.seqNo, v.requestHash), v, InForce(after, v.seqNo, v.requestHash))
  {
    BindingInForce(r, expected, v);
    var k := LeastKey(r, v.seqNo, v.requestHash);
    assert k == ViewKey(r.views[k].epoch, v.seqNo, v.requestHash);
  }

  /** From `v1` in force to `v2`: the epoch does not grow, it falls exactly if undercut, and
      within an epoch the members stay. */
  ghost predicate Descends(v1: ForcedView, v2: ForcedView, undercut: bool) {
    && v2.epoch <= v1.epoch
    && (v2.epoch == v1.epoch ==> v2.members == v1.members)
    && (v2.epoch < v1.epoch <==> undercut)
  }

  /** One event, seen by the voters of a settled request: the epoch in force never grows, it
      falls exactly when a view of a lower epoch is bound, and within an epoch the members stay. */
  lemma ForceStep(expected: int, s: BridgeState, e: Event, seqNo: uint64, hash: string)
    requires RegistryWellFormed(s.registry, expected) && Settled(s.registry, seqNo, hash)
    ensures Settled(Step(expected, s, e).registry, seqNo, hash)
    ensures var cur := InForce(s.registry, seqNo, hash).value;
      var next := InForce(Step(expected, s, e).registry, seqNo, hash).value;
      Descends(cur, next, Undercuts(expected, s, e, seqNo, hash, cur.epoch))
  {
    StepBinds(expected, s, e, seqNo, hash);
    forall v | Binds(expected, s, e, v) && v.seqNo == seqNo && v.requestHash == hash
      ensures BoundForce(InForce(s.registry, seqNo, hash), v, InForce(Step(expected, s, e).registry, seqNo, hash))
    {
      ForceOfBound(s.registry, expected, v, Step(expected, s, e).registry);
    }
    if !(exists v :: Binds(expected, s, e, v) && v.seqNo == seqNo && v.requestHash == hash) {
      SameBoundKeepsForce(s.registry, Step(expected, s, e).registry, seqNo, hash);
    }
  }

  /** Event `j` undercuts `epoch` for the request. */
  ghost predicate UndercutAt(expected: int, s: BridgeState, events: seq<Event>, j: nat, seqNo: uint64, hash: string,
                             epoch: uint32)
  {
    j < |events| && Undercuts(expected, Run(expected, s, events[..j]), events[j], seqNo, hash, epoch)
  }

  /** Some event in `events[i..]` undercuts `epoch` for the request. */
  ghost predicate UndercutSince(expected: int, s: BridgeState, events: seq<Event>, i: nat, seqNo: uint64, hash: string,
                                epoch: uint32)
  {
    exists j: nat :: i <= j && UndercutAt(expected, s, events, j, seqNo, hash, epoch)
  }

  /** The view in force for a request after a run. */
  ghost function ForceAfter(expected: int, s: BridgeState, events: seq<Event>, seqNo: uint64, hash: string)
    : Option<ForcedView>
  {
    InForce(Run(expected, s, events).registry, seqNo, hash)
  }

  ghost predicate SettledAfter(expected: int, s: BridgeState, events: seq<Event>, seqNo: uint64, hash: string) {
    Settled(Run(expected, s, events).registry, seqNo, hash)
  }

  /** Over a run, once a view is bound for a request: the epoch in force never grows, it has
      fallen exactly if some PRE_PREPARE of a lower epoch was let through in between, and
      otherwise the members in force are the same. */
  lemma {:induction false} ForceOverRun(expected: int, s: BridgeState, events: seq<Event>, i: nat,
                                        seqNo: uint64, hash: string)
    requires Fresh(s) && i <= |events| && SettledAfter(expected, s, events[..i], seqNo, hash)
    ensures SettledAfter(expected, s, events, seqNo, hash)
    ensures var v1 := ForceAfter(expected, s, events[..i], seqNo, hash).value;
      var v2 := ForceAfter(expected, s, events, seqNo, hash).value;
      Descends(v1, v2, UndercutSince(expected, s, events, i, seqNo, hash, v1.epoch))
  {
    if i == |events| {
      assert events[..i] == events;
    } else {
      var n := |events| - 1;
      var before := events[..n];
      assert before[..i] == events[..i];
      ForceOverRun(expected, s, before, i, seqNo, hash);
      LastStepForce(expected, s, events, seqNo, hash);
      var v1 := ForceAfter(expected, s, events[..i], seqNo, hash).value;
      UndercutSnoc(expected, s, events, i, seqNo, hash, v1.epoch);
    }
  }

  lemma LastStepForce(expected: int, s: BridgeState, events: seq<Event>, seqNo: uint64, hash: string)
    requires Fresh(s) && events != [] && SettledAfter(expected, s, events[..|events| - 1], seqNo, hash)
    ensures SettledAfter(expected, s, events, seqNo, hash)
    ensures var v := ForceAfter(expected, s, events[..|events| - 1], seqNo, hash).value;
      Descends(v, ForceAfter(expected, s, events, seqNo, hash).value,
               UndercutAt(expected, s, events, |events| - 1, seqNo, hash, v.epoch))
  {
    var n := |events| - 1;
    ViewsAlwaysWellFormed(expected, s, events[..n]);
    ForceStep(expected, Run(expected, s, events[..n]), events[n], seqNo, hash);
  }

  lemma UndercutAtPrefix(expected: int, s: BridgeState, events: seq<Event>, j: nat, seqNo: uint64, hash: string,
                         epoch: uint32)
    requires j < |events| - 1
    ensures UndercutAt(expected, s, events, j, seqNo, hash, epoch)
      == UndercutAt(expected, s, events[..|events| - 1], j, seqNo, hash, epoch)
  {
    var before := events[..|events| - 1];
    assert before[..j] == events[..j] && before[j] == events[j];
  }

  lemma UndercutSnoc(expected: int, s: BridgeState, events: seq<Event>, i: nat, seqNo: uint64, hash: string,
                     epoch: uint32)
    requires i < |events|
    ensures UndercutSince(expected, s, events, i, seqNo, hash, epoch) <==>
      UndercutSince(expected, s, events[..|events| - 1], i, seqNo, hash, epoch)
      || UndercutAt(expected, s, events, |events| - 1, seqNo, hash, epoch)
  {
    var before := events[..|events| - 1];
    forall j: nat | j < |events| - 1
      ensures UndercutAt(expected, s, events, j, seqNo, hash, epoch)
        == UndercutAt(expected, s, before, j, seqNo, hash, epoch)
    {
      UndercutAtPrefix(expected, s, events, j, seqNo, hash, epoch);
    }
  }

  lemma InForceWellFormed(r: Registry, expected: int, seqNo: uint64, hash: string)
    requires RegistryWellFormed(r, expected) && InForce(r, seqNo, hash).Some?
    ensures WellFormed(InForce(r, seqNo, hash).value, expected)
  {
  }

  /** Vote sets that reach the quorums in force for one request at two moments of a run share
      more members than the smaller of the two fault bounds, unless a PRE_PREPARE of a lower
      epoch for the same sequence number and hash was let through in between. */
  lemma VotesForOneRequestOverlap(expected: int, s: BridgeState, events: seq<Event>, i: nat, seqNo: uint64,
                                  hash: string, v1: ForcedView, v2: ForcedView, votesA: set<int>, votesB: set<int>)
    requires Fresh(s) && i <= |events| && SettledAfter(expected, s, events[..i], seqNo, hash)
    requires ForceAfter(expected, s, events[..i], seqNo, hash) == Some(v1)
    requires ForceAfter(expected, s, events, seqNo, hash) == Some(v2)
    requires !UndercutSince(expected, s, events, i, seqNo, hash, v1.epoch)
    requires |votesA| >= v1.quorum && forall m :: m in votesA ==> m in v1.members
    requires |votesB| >= v2.quorum && forall m :: m in votesB ==> m in v2.members
    ensures |votesA * votesB| >= (if v1.f < v2.f then v1.f else v2.f) + 1
  {
    ForceOverRun(expected, s, events, i, seqNo, hash);
    ViewsAlwaysWellFormed(expected, s, events[..i]);
    ViewsAlwaysWellFormed(expected, s, events);
    InForceWellFormed(Run(expected, s, events[..i]).registry, expected, seqNo, hash);
    InForceWellFormed(Run(expected, s, events).registry, expected, seqNo, hash);
    ViewQuorumsOverlap(v1, v2, expected, votesA, votesB);
  }

  /** The members whose vote for the request `hash` has been recorded. */
  ghost function VotersFor(votes: set<(int, string)>, hash: string, members: seq<int>): set<int> {
    set m | m in members && (m, hash) in votes
  }

  /** The members recorded as voting for two different requests. */
  ghost function TwiceVoters(votes: set<(int, string)>, members: seq<int>, hash1: string, hash2: string): set<int> {
    set m | m in members && (m, hash1) in votes && (m, hash2) in votes
  }

  /** Two replicas, at any moments of their runs, have views of the same members in force for
      two requests: if at most as many members vote for both as the smaller fault bound
      allows, at most one of the requests reaches its quorum. */
  lemma OneRequestDecided(expected: int, votes: set<(int, string)>,
                          s1: BridgeState, events1: seq<Event>, seqNo1: uint64, hash1: string, v1: ForcedView,
                          s2: BridgeState, events2: seq<Event>, seqNo2: uint64, hash2: string, v2: ForcedView)
    requires Fresh(s1) && ForceAfter(expected, s1, events1, seqNo1, hash1) == Some(v1)
    requires Fresh(s2) && ForceAfter(expected, s2, events2, seqNo2, hash2) == Some(v2)
    requires v1.members == v2.members
    requires |TwiceVoters(votes, v1.members, hash1, hash2)| <= if v1.f < v2.f then v1.f else v2.f
    ensures |VotersFor(votes, hash1, v1.members)| < v1.quorum || |VotersFor(votes, hash2, v2.members)| < v2.quorum
  {
    ViewsAlwaysWellFormed(expected, s1, events1);
    ViewsAlwaysWellFormed(expected, s2, events2);
    InForceWellFormed(Run(expected, s1, events1).registry, expected, seqNo1, hash1);
    InForceWellFormed(Run(expected, s2, events2).registry, expected, seqNo2, hash2);
    var a, b := VotersFor(votes, hash1, v1.members), VotersFor(votes, hash2, v2.members);
    assert a * b == TwiceVoters(votes, v1.members, hash1, hash2);
    if |a| >= v1.quorum && |b| >= v2.quorum {
      ViewQuorumsOverlap(v1, v2, expected, a, b);
    }
  }

  // ----- the crash-recovery gate

  /** Executing `payload` cancels, for a crash, the epoch before `epoch`. */
  ghost predicate CancelsBefore(payload: bytes, epoch: uint32) {
    match Classify(payload)
    case Some(CancelProposal(c, _, _)) => c.reason == 0 && Next32(c.cancelledEpoch) == epoch
    case _ => false
  }

  ghost predicate IsCrashCancel(e: Event, epoch: uint32) {
    match e
    case Execute(payload) => CancelsBefore(payload, epoch)
    case _ => false
  }

  lemma StepGate(expected: int, s: BridgeState, e: Event, epoch: uint32)
    ensures epoch in Step(expected, s, e).crashEpochs <==> epoch in s.crashEpochs || IsCrashCancel(e, epoch)
  {
    match e
    case Guarded(req, env) => GuardedInstalls(expected, s, req, env);
    case Open(req) => OpenInstalls(expected, s, req);
    case _ =>
  }

  lemma {:induction false} GateInduction(expected: int, s: BridgeState, events: seq<Event>, epoch: uint32)
    requires Fresh(s)
    ensures epoch in Run(expected, s, events).crashEpochs <==>
      exists i :: 0 <= i < |events| && IsCrashCancel(events[i], epoch)
  {
    if events != [] {
      var n := |events| - 1;
      GateInduction(expected, s, events[..n], epoch);
      StepGate(expected, Run(expected, s, events[..n]), events[n], epoch);
      if i :| 0 <= i < n && IsCrashCancel(events[..n][i], epoch) { assert IsCrashCancel(events[i], epoch); }
      if i :| 0 <= i < n && IsCrashCancel(events[i], epoch) { assert IsCrashCancel(events[..n][i], epoch); }
    }
  }

  /** An epoch is gated exactly when a cancel of its predecessor with reason 0, a crash, has been
      executed. */
  lemma GateIsExact(expected: int, s: BridgeState, events: seq<Event>, epoch: uint32)
    requires Fresh(s)
    ensures epoch in Run(expected, s, events).crashEpochs <==>
      exists i :: 0 <= i < |events| && events[i].Execute? && Classify(events[i].payload).Some?
        && Classify(events[i].payload).value.CancelProposal?
        && var c := Classify(events[i].payload).value.cancel;
           c.reason == 0 && epoch == if c.cancelledEpoch == 0xFFFF_FFFF then 0 else c.cancelledEpoch + 1
  {
    GateInduction(expected, s, events, epoch);
    forall i | 0 <= i < |events| {
      CrashCancelMeans(events[i], epoch);
    }
  }

  lemma CrashCancelMeans(e: Event, epoch: uint32)
    ensures IsCrashCancel(e, epoch) <==>
      && e.Execute? && Classify(e.payload).Some? && Classify(e.payload).value.CancelProposal?
      && var c := Classify(e.payload).value.cancel;
         c.reason == 0 && epoch == if c.cancelledEpoch == 0xFFFF_FFFF then 0 else c.cancelledEpoch + 1
  {
  }

  /** The request carries an ordinary order with payload `data`. */
  ghost predicate CarriesOrder(req: Request, data: bytes) {
    !req.kind.OtherRequest? && req.payload == Some(data) && Classify(data) == Some(NormalProposal(data))
  }

  /** The verdict on an order, with the gate's condition set apart. */
  lemma GateApart(expected: int, s: BridgeState, req: Request, env: Env, data: bytes)
    requires CarriesOrder(req, data) && ParseNormalProposal(data).Some?
    ensures var hdr := DecodeHdr(data);
      GuardedStep(expected, s, req, env).1 <==>
        (hdr.epoch in s.crashEpochs ==> EvidenceApproved(data, hdr.nVehicles, hdr.epoch, env))
        && GuardedStep(expected, s.(crashEpochs := {}), req, env).1
  {
  }

  lemma CrashGates(expected: int, s: BridgeState, events: seq<Event>, i: nat, j: nat, payload: bytes, c: CancelHdr,
                   leaderId: int32, electors: seq<int32>, epoch: uint32)
    requires Fresh(s) && i < j <= |events| && events[i] == Execute(payload)
    requires Classify(payload) == Some(CancelProposal(c, leaderId, electors)) && c.reason == 0
    requires epoch == if c.cancelledEpoch == 0xFFFF_FFFF then 0 else c.cancelledEpoch + 1
    ensures epoch in Run(expected, s, events[..j]).crashEpochs
  {
    assert events[..j][i] == events[i] && IsCrashCancel(events[i], epoch);
    GateInduction(expected, s, events[..j], epoch);
  }

  /** Guarded verification accepts the order `data`, with header `hdr`, that the request carries. */
  ghost predicate AcceptsOrder(expected: int, s: BridgeState, req: Request, env: Env, data: bytes, hdr: ProposeHdr) {
    match req
    case Request(_, _, _, _) =>
      CarriesOrder(req, data) && ParseNormalProposal(data) == Some(hdr) && GuardedStep(expected, s, req, env).1
  }

  lemma EvidenceIfGated(expected: int, s: BridgeState, req: Request, env: Env, data: bytes, hdr: ProposeHdr,
                        cancelled: uint32)
    requires AcceptsOrder(expected, s, req, env, data, hdr) && hdr.epoch in s.crashEpochs
    requires hdr.epoch == if cancelled == 0xFFFF_FFFF then 0 else cancelled + 1
    ensures env.clearEvidence.Some?
    ensures exists cert :: FirstCert(data, hdr.nVehicles, cert) && env.clearEvidence.value(cancelled, cert)
  {
    EvidenceMeans(data, hdr.nVehicles, cancelled, hdr.epoch, env);
  }

  /** Once a crash cancel of an epoch has been executed, guarded verification accepts an order of
      the next epoch only with a trailer whose first certificate the application approves for the
      cancelled epoch. */
  lemma GatedOrdersCarryEvidence(expected: int, s: BridgeState, events: seq<Event>, i: nat, j: nat, payload: bytes,
                                 c: CancelHdr, leaderId: int32, electors: seq<int32>, req: Request, env: Env,
                                 data: bytes, hdr: ProposeHdr)
    requires Fresh(s) && i < j < |events| && events[i] == Execute(payload) && events[j] == Guarded(req, env)
    requires Classify(payload) == Some(CancelProposal(c, leaderId, electors)) && c.reason == 0
    requires CarriesOrder(req, data) && ParseNormalProposal(data) == Some(hdr)
    requires GuardedStep(expected, Run(expected, s, events[..j]), req, env).1
    requires hdr.epoch == if c.cancelledEpoch == 0xFFFF_FFFF then 0 else c.cancelledEpoch + 1
    ensures env.clearEvidence.Some?
    ensures exists cert :: FirstCert(data, hdr.nVehicles, cert) && env.clearEvidence.value(c.cancelledEpoch, cert)
  {
    var before := Run(expected, s, events[..j]);
    CrashGates(expected, s, events, i, j, payload, c, leaderId, electors, hdr.epoch);
    EvidenceIfGated(expected, before, req, env, data, hdr, c.cancelledEpoch);
  }

  lemma SentEvidence(data: bytes, hdr: ProposeHdr, entries: seq<VehicleEntry>, version: uint16,
                     certs: seq<Certificate>, cancelled: uint32, env: Env)
    requires |certs| < 0x1_0000 && data == EncodeNormal(hdr, entries) + EncodeEvidence(version, certs)
    requires hdr.epoch == if cancelled == 0xFFFF_FFFF then 0 else cancelled + 1
    ensures EvidenceApproved(data, |entries|, hdr.epoch, env) <==>
      certs != [] && env.clearEvidence.Some? && env.clearEvidence.value(cancelled, certs[0])
  {
    EvidenceMeans(data, |entries|, cancelled, hdr.epoch, env);
    forall cert ensures FirstCert(data, |entries|, cert) <==> certs != [] && cert == certs[0] {
      SentFirstCert(data, hdr, entries, version, certs, cert);
    }
  }

  /** And an order with the trailer its sender packs behind it is accepted exactly when it would be
      without the gate and the application approves the first certificate for the cancelled epoch. */
  lemma GatedOrderIff(expected: int, s: BridgeState, events: seq<Event>, i: nat, j: nat, payload: bytes, c: CancelHdr,
                      leaderId: int32, electors: seq<int32>, req: Request, env: Env, hdr: ProposeHdr,
                      entries: seq<VehicleEntry>, version: uint16, certs: seq<Certificate>)
    requires Fresh(s) && i < j < |events| && events[i] == Execute(payload) && events[j] == Guarded(req, env)
    requires Classify(payload) == Some(CancelProposal(c, leaderId, electors)) && c.reason == 0
    requires hdr.nVehicles == |entries| && |certs| < 0x1_0000
    requires hdr.epoch == if c.cancelledEpoch == 0xFFFF_FFFF then 0 else c.cancelledEpoch + 1
    requires CarriesOrder(req, EncodeNormal(hdr, entries) + EncodeEvidence(version, certs))
    ensures var before := Run(expected, s, events[..j]);
      GuardedStep(expected, before, req, env).1 <==>
        && certs != [] && env.clearEvidence.Some? && env.clearEvidence.value(c.cancelledEpoch, certs[0])
        && GuardedStep(expected, before.(crashEpochs := {}), req, env).1
  {
    var data := EncodeNormal(hdr, entries) + EncodeEvidence(version, certs);
    NormalContents(data, hdr, entries, EncodeEvidence(version, certs));
    ParsedPayload(data);
    CrashGates(expected, s, events, i, j, payload, c, leaderId, electors, hdr.epoch);
    GateApart(expected, Run(expected, s, events[..j]), req, env, data);
    SentEvidence(data, hdr, entries, version, certs, c.cancelledEpoch, env);
  }

  /** The gate concerns orders only: the verdict on a rollback does not depend on it, nor on
      the evidence callback. */
  lemma RollbackIgnoresGate(expected: int, s: BridgeState, req: Request, env: Env, epochs: set<uint32>,
                            callback: Option<(uint32, bytes) -> bool>)
    requires req.payload.Some? && Classify(req.payload.value).Some?
    requires Classify(req.payload.value).value.RollbackProposal?
    ensures GuardedStep(expected, s, req, env).1
      == GuardedStep(expected, s.(crashEpochs := epochs), req, env.(clearEvidence := callback)).1
  {
    ParsedPayload(req.payload.value);
  }

  // ----- one leader per certificate snapshot

  /** Guarded verification accepts the order `data` of the request, whose leader qualifies by the
      certificate route, under the snapshot `certs`. */
  ghost predicate AdmittedByCert(expected: int, s: BridgeState, req: Request, env: Env, data: bytes,
                                 certs: seq<CertEntry>, hdr: ProposeHdr) {
    match req
    case Request(_, _, _, _) =>
      && CarriesOrder(req, data) && ParseNormalProposal(data) == Some(hdr) && env.certs == Some(certs)
      && GuardedStep(expected, s, req, env).1
      && CertPrimary(hdr.leaderId, DecodeEntries(data, PROPOSE_HDR_SIZE, hdr.nVehicles))
  }

  /** A leader admitted by the certificate route is the least in-range id of the voter's snapshot. */
  lemma CertLeaderIsLeast(expected: int, s: BridgeState, req: Request, env: Env, data: bytes, certs: seq<CertEntry>,
                          hdr: ProposeHdr)
    requires CarriesOrder(req, data) && ParseNormalProposal(data) == Some(hdr) && env.certs == Some(certs)
    requires GuardedStep(expected, s, req, env).1
    requires CertPrimary(hdr.leaderId, DecodeEntries(data, PROPOSE_HDR_SIZE, hdr.nVehicles))
    ensures 0 <= hdr.leaderId < expected && exists c :: c in certs && c.replicaId == hdr.leaderId
    ensures forall c :: c in certs && 0 <= c.replicaId < expected ==> hdr.leaderId <= c.replicaId
  {
  }

  lemma LeastIsUnique(certs1: seq<CertEntry>, certs2: seq<CertEntry>, id1: int32, id2: int32, expected: int)
    requires 0 <= id1 < expected && 0 <= id2 < expected && HoldsCert(certs1, id1) && HoldsCert(certs2, id2)
    requires forall c :: c in certs1 && 0 <= c.replicaId < expected ==> id1 <= c.replicaId
    requires forall c :: c in certs2 && 0 <= c.replicaId < expected ==> id2 <= c.replicaId
    requires forall id: int32 :: 0 <= id < expected ==> (HoldsCert(certs1, id) <==> HoldsCert(certs2, id))
    ensures id1 == id2
  {
    assert HoldsCert(certs2, id1) && HoldsCert(certs1, id2);
  }

  /** Two voters, at any moments of their runs, whose snapshots certify the same replicas
      admit by the certificate route only orders naming one and the same leader. */
  lemma CertLeaderUnique(expected: int,
                         s1: BridgeState, req1: Request, env1: Env, data1: bytes, certs1: seq<CertEntry>,
                         hdr1: ProposeHdr,
                         s2: BridgeState, req2: Request, env2: Env, data2: bytes, certs2: seq<CertEntry>,
                         hdr2: ProposeHdr)
    requires AdmittedByCert(expected, s1, req1, env1, data1, certs1, hdr1)
    requires AdmittedByCert(expected, s2, req2, env2, data2, certs2, hdr2)
    requires forall id: int32 :: 0 <= id < expected ==> (HoldsCert(certs1, id) <==> HoldsCert(certs2, id))
    ensures hdr1.leaderId == hdr2.leaderId
  {
    CertLeaderIsLeast(expected, s1, req1, env1, data1, certs1, hdr1);
    CertLeaderIsLeast(expected, s2, req2, env2, data2, certs2, hdr2);
    LeastIsUnique(certs1, certs2, hdr1.leaderId, hdr2.leaderId, expected);
  }

  // ----- what an accepted order leaves behind

  lemma InstalledForRequest(s: BridgeState, req: Request, v: ForcedView, expected: int)
    requires Candidate(v, expected) && req.kind.PrePrepare? && InstallStep(s, req, v).1
    ensures var after := InstallStep(s, req, v).0;
      var key := ViewKey(v.epoch, req.meta.seqNo, req.meta.hash);
      && key in after.registry.views
      && after.registry.views[key].primary == v.primary
      && after.registry.views[key].members == v.members
      && after.primary == v.primary + 1
  {
    CandidateNormalizes(v, expected);
  }

  lemma OrderViewFields(hdr: ProposeHdr, entries: seq<VehicleEntry>, expected: int, faults: FaultMode,
                        req: Option<RequestMeta>)
    ensures var v := EpochOrderView(hdr, entries, expected, faults, req);
      v.Some? ==>
        && v.value.epoch == hdr.epoch && v.value.primary == hdr.leaderId && Candidate(v.value, expected)
        && forall m :: m in v.value.members <==> m in MemberIds(entries, hdr.epoch > 0)
  {
    OrderBuildersGiveCandidates(hdr, entries, expected, faults, req);
    SortedMembers(MemberIds(entries, true));
    SortedMembers(MemberIds(entries, false));
  }

  /** What accepting an order does to the registry. */
  lemma AcceptedRegistry(expected: int, s: BridgeState, req: Request, env: Env, data: bytes)
    requires CarriesOrder(req, data) && ParseNormalProposal(data).Some?
    requires GuardedStep(expected, s, req, env).1
    ensures var after, v := GuardedStep(expected, s, req, env).0, ViewFor(expected, s, req);
      if v.None? then DecodeHdr(data).epoch == 0 && after.registry == s.registry
      else InstallStep(s, req, v.value).1 && after.registry == InstallStep(s, req, v.value).0.registry
  {
  }

  /** An accepted PRE_PREPARE binds the members of the order to the request under the
      order's leader if a view can be built, and otherwise leaves the registry alone,
      which happens in epoch 0 only. */
  lemma AcceptedOrderIsBound(expected: int, s: BridgeState, req: Request, env: Env, data: bytes)
    requires CarriesOrder(req, data) && req.kind.PrePrepare? && ParseNormalProposal(data).Some?
    requires GuardedStep(expected, s, req, env).1
    ensures var after := GuardedStep(expected, s, req, env).0;
      var hdr := DecodeHdr(data);
      var key := ViewKey(hdr.epoch, req.meta.seqNo, req.meta.hash);
      var ids := MemberIds(DecodeEntries(data, PROPOSE_HDR_SIZE, hdr.nVehicles), hdr.epoch > 0);
      if ViewFor(expected, s, req).None? then hdr.epoch == 0 && after.registry == s.registry
      else
        && key in after.registry.views
        && after.registry.views[key].primary == hdr.leaderId
        && (forall m :: m in after.registry.views[key].members <==> m in ids)
  {
    var hdr := DecodeHdr(data);
    var entries := DecodeEntries(data, PROPOSE_HDR_SIZE, hdr.nVehicles);
    OrderViewFields(hdr, entries, expected, s.faults, Some(req.meta));
    AcceptedRegistry(expected, s, req, env, data);
    var v := ViewFor(expected, s, req);
    if v.Some? { InstalledForRequest(s, req, v.value, expected); }
  }

  lemma OwnReplica(primary: uint32, id: int32)
    requires id >= 0
    ensures OmnetReplica(primary) == id <==> primary == id + 1
  {
  }

  /** An accepted PRE_PREPARE makes its leader the PBFT primary exactly when it installs a
      view, or the leader is the primary already, or the request is of a newer view number. */
  lemma PrimaryHandoff(expected: int, s: BridgeState, req: Request, env: Env, data: bytes)
    requires CarriesOrder(req, data) && req.kind.PrePrepare? && ParseNormalProposal(data).Some?
    requires GuardedStep(expected, s, req, env).1
    ensures GuardedStep(expected, s, req, env).0.primary == DecodeHdr(data).leaderId + 1 <==>
      ViewFor(expected, s, req).Some? || s.primary == DecodeHdr(data).leaderId + 1 || req.currentView > s.currentView
    ensures GuardedStep(expected, s, req, env).0.currentView
      in {s.currentView, if req.currentView > s.currentView then req.currentView else s.currentView}
    ensures (ViewFor(expected, s, req).None? && s.primary != DecodeHdr(data).leaderId + 1
             && req.currentView > s.currentView)
      ==> GuardedStep(expected, s, req, env).0.currentView == req.currentView
  {
    var hdr := DecodeHdr(data);
    var entries := DecodeEntries(data, PROPOSE_HDR_SIZE, hdr.nVehicles);
    OrderViewFields(hdr, entries, expected, s.faults, Some(req.meta));
    OwnReplica(s.primary, hdr.leaderId);
    var v := ViewFor(expected, s, req);
    if v.Some? { InstalledForRequest(s, req, v.value, expected); }
  }

  // ----- when an accepted PRE_PREPARE changes who may vote on it

  lemma CancelAccepted(expected: int, s: BridgeState, req: Request, raw: bytes, c: CancelHdr, leaderId: int32,
                       electors: seq<int32>)
    requires CANCEL_HDR_SIZE + c.justificationLen <= |raw|
    requires CancelStep(expected, s, req, raw, c, leaderId, electors).1
    ensures var v := CancelView(c, leaderId, electors, expected, s.faults, Some(req.meta));
      v.Some? && CancelStep(expected, s, req, raw, c, leaderId, electors) == InstallStep(s, req, v.value)
  {
  }

  lemma RollbackAccepted(expected: int, s: BridgeState, req: Request, raw: bytes, r: RollbackHdr, data: bytes, env: Env)
    requires ParseNormalProposal(data).Some? && RollbackStep(expected, s, req, raw, r, data, env).1
    ensures var entries := DecodeEntries(data, PROPOSE_HDR_SIZE, DecodeHdr(data).nVehicles);
      var v := RollbackView(DecodeHdr(data), entries, expected, s.faults, Some(req.meta));
      v.Some? && RollbackStep(expected, s, req, raw, r, data, env) == InstallStep(s, req, v.value)
  {
  }

  /** Accepting a proposal of any kind installs the view built for it, if one is built. */
  lemma AcceptedInstalls(expected: int, s: BridgeState, req: Request, env: Env)
    requires !req.kind.OtherRequest? && GuardedStep(expected, s, req, env).1
    ensures var after, v := GuardedStep(expected, s, req, env).0, ViewFor(expected, s, req);
      if v.None? then after.registry == s.registry
      else InstallStep(s, req, v.value).1 && after.registry == InstallStep(s, req, v.value).0.registry
  {
    var raw := req.payload.value;
    ParsedPayload(raw);
    match Classify(raw).value
    case NormalProposal(data) => AcceptedRegistry(expected, s, req, env, raw);
    case CancelProposal(c, leaderId, electors) => CancelAccepted(expected, s, req, raw, c, leaderId, electors);
    case RollbackProposal(r, data) => RollbackAccepted(expected, s, req, raw, r, data, env);
  }

  /** An accepted PRE_PREPARE changes the members in force for its own sequence number and hash
      exactly if its view has other members and either is of a lower epoch than the view in
      force or that one was only pending. */
  lemma AcceptedShiftsForce(expected: int, s: BridgeState, req: Request, env: Env, cur: ForcedView)
    requires RegistryWellFormed(s.registry, expected)
    requires req.kind.PrePrepare? && GuardedStep(expected, s, req, env).1
    requires InForce(s.registry, req.meta.seqNo, req.meta.hash) == Some(cur)
    ensures var next := InForce(GuardedStep(expected, s, req, env).0.registry, req.meta.seqNo, req.meta.hash);
      var v := ViewFor(expected, s, req);
      next.Some? && (next.value.members != cur.members <==>
        v.Some? && v.value.members != cur.members
        && (v.value.epoch < cur.epoch || !Settled(s.registry, req.meta.seqNo, req.meta.hash)))
  {
    AcceptedInstalls(expected, s, req, env);
    var v := ViewFor(expected, s, req);
    if v.Some? {
      ViewForIsCandidate(expected, s, req);
      CandidateNormalizes(v.value, expected);
      var bound := Bound(Normalize(v.value).value, req.meta.seqNo, req.meta.hash);
      InstalledInForce(s.registry, expected, bound, cur);
    }
  }

  lemma InstalledInForce(r: Registry, expected: int, v: ForcedView, cur: ForcedView)
    requires RegistryWellFormed(r, expected) && MayBind(r, v, v.requestHash)
    requires InForce(r, v.seqNo, v.requestHash) == Some(cur)
    ensures var next := InForce(RequestInstalled(r, v), v.seqNo, v.requestHash);
      next.Some? && (next.value.members != cur.members <==>
        v.members != cur.members && (v.epoch < cur.epoch || !Settled(r, v.seqNo, v.requestHash)))
  {
    if Settled(r, v.seqNo, v.requestHash) {
      BindingInForce(r, expected, v);
      var k := LeastKey(r, v.seqNo, v.requestHash);
      assert k == ViewKey(cur.epoch, v.seqNo, v.requestHash);
    } else {
      FirstBinding(r, v);
    }
  }

  lemma FirstBinding(r: Registry, v: ForcedView)
    requires v.requestHash != "" && !Settled(r, v.seqNo, v.requestHash)
    ensures InForce(RequestInstalled(r, v), v.seqNo, v.requestHash) == Some(v)
  {
    var after := RequestInstalled(r, v);
    var kv := ViewKey(v.epoch, v.seqNo, v.requestHash);
    assert kv in after.views && Matches(kv, v.seqNo, v.requestHash);
    assert LeastKey(after, v.seqNo, v.requestHash) == kv;
  }

  // ----- local submission

  /** What the submitting replica holds back, its own PreVerify would have rejected. */
  lemma HeldBackWouldBeRejected(expected: int, s: BridgeState, payload: bytes, hash: string, env: Env, view: uint64)
    requires payload != [] && !TriggerAccepts(expected, s, payload, hash)
    ensures !GuardedStep(expected, s, Request(NewTxns, RequestMeta(0, 0, hash), view, Some(payload)), env).1
  {
    ParsedPayload(payload);
  }
}
