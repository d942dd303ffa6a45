/** What an accepted proposal leaves behind in a guarded replica, what a submitted one does, and
    what the replica does with the firewall off. */
module AdmissionEffects {
  import opened BridgeTypes
  import opened WireFormat
  import opened ProposalParser
  import opened Quorum
  import opened ForcedViews
  import opened ViewBuilders
  import opened PreVerify
  import opened BridgeRuns
  import opened MembershipTheorems

  // ----- what acceptance leaves behind

  /** `w` is `v` with `f` settled, and the least quorum of which any two share more than `f` members. */
  ghost predicate SizedFor(w: ForcedView, v: ForcedView) {
    && w == v.(f := w.f, quorum := w.quorum)
    && w.f == (if v.fOverride then v.f else (|v.members| - 1) / 3)
    && 2 * w.quorum - |v.members| > w.f && 2 * (w.quorum - 1) - |v.members| <= w.f
  }

  lemma NormalizedIsSized(v: ForcedView, expected: int)
    requires Candidate(v, expected)
    ensures Normalize(v).Some? && SizedFor(Normalize(v).value, v)
  {
    CandidateNormalizes(v, expected);
    NormalizeMeans(v);
    SizeOfSorted(v.members);
  }

  lemma ViewForRequest(expected: int, s: BridgeState, req: Request, v: ForcedView)
    requires ViewFor(expected, s, req) == Some(v)
    ensures v.seqNo == req.meta.seqNo && v.requestHash == req.meta.hash
  {
    ParsedPayload(req.payload.value);
  }

  /** An accepted proposal for which a view is built leaves that view, with its `f` and quorum
      settled, pending under the request's hash and latest, and a PRE_PREPARE leaves it bound to the
      request as well; nothing else changes in the registry. */
  lemma AcceptedView(expected: int, s: BridgeState, req: Request, env: Env, v: ForcedView)
    requires !req.kind.OtherRequest? && GuardedStep(expected, s, req, env).1 && ViewFor(expected, s, req) == Some(v)
    ensures var after := GuardedStep(expected, s, req, env).0.registry;
      var key := ViewKey(v.epoch, req.meta.seqNo, req.meta.hash);
      && req.meta.hash in after.pending
      && var w := after.pending[req.meta.hash];
         && after == Registry(if req.kind.PrePrepare? then s.registry.views[key := w] else s.registry.views,
                              s.registry.pending[req.meta.hash := w], Some(w))
         && w == v.(f := w.f, quorum := w.quorum)
         && w.f == (if v.fOverride then v.f else (|v.members| - 1) / 3)
         && 2 * w.quorum - |v.members| > w.f && 2 * (w.quorum - 1) - |v.members| <= w.f
  {
    AcceptedInstalls(expected, s, req, env);
    ViewForIsCandidate(expected, s, req);
    ViewForRequest(expected, s, req, v);
    NormalizedIsSized(v, expected);
  }

  /** A cancel that the application submits and that is not held back leaves its electorate pending
      under the new request's hash, and its leader as the primary; otherwise nothing changes. */
  lemma SubmittedCancel(expected: int, s: BridgeState, payload: bytes, hash: string, c: CancelHdr, leaderId: int32,
                        electors: seq<int32>)
    requires payload != [] && Classify(payload) == Some(CancelProposal(c, leaderId, electors))
    ensures var after := TriggerStep(expected, s, payload, hash);
      if !TriggerAccepts(expected, s, payload, hash) then after == s
      else
        && hash in after.registry.pending
        && var w := after.registry.pending[hash];
           && after == s.(registry := Registry(s.registry.views, s.registry.pending[hash := w], Some(w)),
                          primary := leaderId + 1)
           && w.epoch == c.cancelledEpoch && w.primary == leaderId && w.seqNo == 0 && w.requestHash == hash
           && w.f == s.faults.toleratedF && (forall r: int32 :: r as int in w.members <==> r in electors)
  {
    ParsedPayload(payload);
    var v := CancelView(c, leaderId, electors, expected, s.faults, None);
    CancelBuilderGivesCandidates(c, leaderId, electors, expected, s.faults, None);
    SortedMembers(AsInts(electors));
    ElectorsAsInts(electors);
    if v.Some? { CandidateNormalizes(v.value.(requestHash := hash), expected); }
  }

  /** Other submissions change nothing. */
  lemma SubmittedOther(expected: int, s: BridgeState, payload: bytes, hash: string)
    requires Classify(payload).Some? ==> !Classify(payload).value.CancelProposal?
    ensures TriggerStep(expected, s, payload, hash) == s
  {
  }

  lemma UnknownSender(hdr: ProposeHdr, entries: seq<VehicleEntry>, expected: int, faults: FaultMode, hash: string)
    ensures RollbackView(hdr, entries, expected, faults, Some(RequestMeta(0, 0, hash))).Some?
      <==> RollbackView(hdr, entries, expected, faults, None).Some?
  {
  }

  /** The request that a submitted payload is injected as: new transactions of an unknown sender. */
  function Submission(payload: bytes, hash: string): Request {
    Request(NewTxns, RequestMeta(0, 0, hash), 0, Some(payload))
  }

  /** Exactly which submissions are handed on: unrecognised ones, orders of epoch 0, and those for
      which a view can be built, a cancel or rollback with a justification in order. */
  lemma SubmittedIff(expected: int, s: BridgeState, payload: bytes, hash: string)
    ensures TriggerAccepts(expected, s, payload, hash) <==>
      payload != [] &&
      match Classify(payload)
      case None => true
      case Some(NormalProposal(_)) =>
        |payload| >= 20 && (U32(payload, 0) == 0 || ViewFor(expected, s, Submission(payload, hash)).Some?)
      case Some(CancelProposal(c, leaderId, electors)) =>
        12 + c.justificationLen <= |payload|
        && CancelJustified(c, payload[12..12 + c.justificationLen], leaderId, electors)
        && ViewFor(expected, s, Submission(payload, hash)).Some?
      case Some(RollbackProposal(r, _)) =>
        StructurallyValidCancelJustification(payload, r) && ViewFor(expected, s, Submission(payload, hash)).Some?
  {
    if Classify(payload).Some? {
      ParsedPayload(payload);
      match Classify(payload).value
      case NormalProposal(data) =>
      case CancelProposal(c, leaderId, electors) =>
        if leaderId >= 0 { SenderMeans(RequestMeta(0, 0, hash), leaderId); }
      case RollbackProposal(r, data) =>
        var hdr := DecodeHdr(data);
        UnknownSender(hdr, DecodeEntries(data, PROPOSE_HDR_SIZE, hdr.nVehicles), expected, s.faults, hash);
    }
  }

  // ----- with the firewall off

  /** A view is installed whenever one can be built, for a cancel or rollback with a justification in
      order; otherwise nothing changes. */
  lemma OpenEffect(expected: int, s: BridgeState, req: Request)
    ensures var v := ViewFor(expected, s, req);
      OpenStep(expected, s, req).0 ==
        if v.None? then s
        else
          match Classify(req.payload.value)
          case Some(CancelProposal(c, leaderId, electors)) =>
            if 12 + c.justificationLen <= |req.payload.value|
               && CancelJustified(c, req.payload.value[12..12 + c.justificationLen], leaderId, electors)
            then InstallStep(s, req, v.value).0 else s
          case Some(RollbackProposal(r, _)) =>
            if StructurallyValidCancelJustification(req.payload.value, r) then InstallStep(s, req, v.value).0 else s
          case _ => InstallStep(s, req, v.value).0
  {
    if !req.kind.OtherRequest? && req.payload.Some? && Classify(req.payload.value).Some? {
      ParsedPayload(req.payload.value);
    }
  }

  /** Everything passes but an order of a later epoch for which no view can be built. */
  lemma OpenRejects(expected: int, s: BridgeState, req: Request)
    ensures !OpenStep(expected, s, req).1 <==>
      && req.payload.Some? && CarriesOrder(req, req.payload.value)
      && |req.payload.value| >= 20 && U32(req.payload.value, 0) > 0 && ViewFor(expected, s, req).None?
  {
    if !req.kind.OtherRequest? && req.payload.Some? && Classify(req.payload.value).Some? {
      ParsedPayload(req.payload.value);
    }
  }

  lemma OpenOrder(expected: int, s: BridgeState, req: Request, env: Env, data: bytes)
    requires CarriesOrder(req, data) && ParseNormalProposal(data).Some? && OrderStep(expected, s, req, data, env).1
    ensures OpenStep(expected, s, req).1
    ensures OpenStep(expected, s, req).0.registry == OrderStep(expected, s, req, data, env).0.registry
  {
  }

  /** What a guarded replica accepts an open one lets through, with the same effect on the registry. */
  lemma OpenAcceptsMore(expected: int, s: BridgeState, req: Request, env: Env)
    requires GuardedStep(expected, s, req, env).1
    ensures OpenStep(expected, s, req).1
    ensures OpenStep(expected, s, req).0.registry == GuardedStep(expected, s, req, env).0.registry
  {
    if !req.kind.OtherRequest? {
      var raw := req.payload.value;
      ParsedPayload(raw);
      match Classify(raw).value
      case NormalProposal(data) => OpenOrder(expected, s, req, env, data);
      case CancelProposal(c, leaderId, electors) =>
      case RollbackProposal(r, data) => RollbackAccepted(expected, s, req, raw, r, data, env);
    }
  }

  // ----- what the application configures

  /** A fault bound is taken over exactly when the static membership supports it. */
  lemma FaultsConfigured(expected: int, s: BridgeState, f: int)
    requires expected > 0
    ensures ToleratedFaultsSet(expected, s, f)
      == if f >= 0 && expected >= 3 * f + 1 then s.(faults := FaultMode(true, f, s.faults.rollbackPerEpoch)) else s
  {
    QuorumExists(expected, f);
  }

  /** A promotion makes the vehicle's replica the primary exactly when its id is in range. */
  lemma Promoted(expected: int, s: BridgeState, id: int32)
    ensures PrimaryPromoted(expected, s, id) == if 0 <= id < expected then s.(primary := id + 1) else s
  {
    if id >= 0 { OwnReplica(s.primary, id); }
  }
}
