/** One replica: its forced-view registry, PBFT primary, fault mode and crash-recovery gate. */
module BridgeServers {
  import opened BridgeTypes
  import opened WireFormat
  import opened ProposalParser
  import opened Quorum
  import opened ForcedViews
  import opened ViewBuilders
  import opened PreVerify
  import opened BridgeRuns
  import opened GuardChecks
  import opened BatchPacker
  import opened ScheduleTheorems
  import opened IntersectionScheduler
  import opened CancelDecisions

  type ReplicaCount = x: int | 0 < x <= 0x7FFF_FFFF witness 1

  /** What the executor hands to the application: nothing for an unreadable payload, a
      packed cancel decision, or the decision bytes followed by the proposal's trailer. */
  datatype Execution = Unreadable | Cancelled(cancelBytes: bytes) | OrderDecided(orderBytes: bytes)

  class BridgeServer {
    const expected: ReplicaCount
    const forcedViews: ForcedViewRegistry
    var primary: uint32
    var currentView: uint64
    var crashEpochs: set<uint32>
    var faults: FaultMode

    constructor (expected: ReplicaCount, primary: uint32, currentView: uint64)
      ensures this.expected == expected && fresh(forcedViews) && Fresh(State())
      ensures State() == BridgeState(Registry(map[], map[], None), primary, currentView, {}, FaultMode(false, -1, true))
    {
      this.expected := expected;
      forcedViews := new ForcedViewRegistry();
      this.primary := primary;
      this.currentView := currentView;
      crashEpochs := {};
      faults := FaultMode(false, -1, true);
    }

    function State(): BridgeState
      reads this, forcedViews
    {
      BridgeState(forcedViews.Contents(), primary, currentView, crashEpochs, faults)
    }

    // ----- service operations

    method InstallForcedViewForRequest(req: Request, view: ForcedView) returns (ok: bool)
      requires req.kind.PrePrepare?
      modifies this`primary, forcedViews
      ensures (State(), ok) == InstallStep(old(State()), req, view)
    {
      var r := forcedViews.InstallForRequest(req.meta.seqNo, req.meta.hash, view);
      if r != Installed { return false; }
      if view.primary >= 0 { primary := view.primary + 1; }
      ok := true;
    }

    method InstallPendingForcedView(view: ForcedView) returns (ok: bool)
      modifies this`primary, forcedViews
      ensures ok <==> Normalize(view).Some?
      ensures ok ==>
        State() == AfterInstall(old(State()), PendingInstalled(old(State()).registry, Normalize(view).value),
                                view.primary)
      ensures !ok ==> State() == old(State())
    {
      var r := forcedViews.InstallPending(view);
      if r != Installed { return false; }
      if view.primary >= 0 { primary := view.primary + 1; }
      ok := true;
    }

    /** The two install branches at the end of every accepted proposal. */
    method InstallView(req: Request, view: ForcedView) returns (ok: bool)
      requires !req.kind.OtherRequest?
      modifies this`primary, forcedViews
      ensures (State(), ok) == InstallStep(old(State()), req, view)
    {
      if req.kind.PrePrepare? {
        ok := InstallForcedViewForRequest(req, view);
      } else {
        ok := InstallPendingForcedView(view);
      }
    }

    method SetPrimary(newPrimary: uint32, version: uint64)
      modifies this`primary, this`currentView
      ensures State() == PrimarySet(old(State()), newPrimary, version)
    {
      if version > currentView {
        currentView := version;
        primary := newPrimary;
      }
    }

    // ----- what PBFT asks about a request

    /** The votes needed; `staticQuorum` is the configured number of a replica set without forced views. */
    method QuorumForRequest(seqNo: uint64, hash: string, staticQuorum: int) returns (quorum: int)
      modifies forcedViews
      ensures State() == old(State()).(registry := AfterLookup(old(State()).registry, seqNo, hash))
      ensures State() == Step(expected, old(State()), Lookup(seqNo, hash))
      ensures var v := InForce(old(State()).registry, seqNo, hash);
        quorum == if v.Some? then v.value.quorum else staticQuorum
    {
      var v := forcedViews.FindForRequest(seqNo, hash);
      quorum := if v.Some? then v.value.quorum else staticQuorum;
    }

    /** Whether the sender's vote is counted. */
    method IsSenderActiveForRequest(seqNo: uint64, hash: string, senderId: int64) returns (active: bool)
      modifies forcedViews
      ensures State() == old(State()).(registry := AfterLookup(old(State()).registry, seqNo, hash))
      ensures State() == Step(expected, old(State()), Lookup(seqNo, hash))
      ensures var v := InForce(old(State()).registry, seqNo, hash);
        active <==> (v.Some? ==> OmnetReplica(senderId) as int in v.value.members)
    {
      var v := forcedViews.FindForRequest(seqNo, hash);
      active := v.None? || OmnetReplica(senderId) as int in v.value.members;
    }

    // ----- guarded PreVerify

    method VerifyCancel(req: Request, raw: bytes, c: CancelHdr, leaderId: int32, electors: seq<int32>)
      returns (ok: bool)
      requires !req.kind.OtherRequest? && CANCEL_HDR_SIZE + c.justificationLen <= |raw|
      modifies this`primary, forcedViews
      ensures (State(), ok) == CancelStep(expected, old(State()), req, raw, c, leaderId, electors)
    {
      var justified := CheckCancel(c, raw, leaderId, electors);
      if !justified { return false; }
      var view := BuildCancelViewCandidate(c, leaderId, electors, expected, faults, Some(req.meta));
      if view.None? { return false; }
      ok := InstallView(req, view.value);
    }

    /** Checks 3 to 6, common to orders and rollbacks. */
    method CheckEntries(data: bytes, n: nat) returns (ok: bool)
      requires PROPOSE_HDR_SIZE + ENTRY_SIZE * n <= |data|
      ensures ok <==> EntriesSane(DecodeEntries(data, PROPOSE_HDR_SIZE, n), expected)
    {
      ok := CheckIds(data, n, expected);
      if !ok { return false; }
      ok := CheckFields(data, n, expected);
    }

    method EvidenceOk(data: bytes, hdr: ProposeHdr, env: Env) returns (ok: bool)
      requires ParseNormalProposal(data) == Some(hdr)
      ensures ok <==> (hdr.epoch in crashEpochs ==> EvidenceApproved(data, hdr.nVehicles, hdr.epoch, env))
    {
      if hdr.epoch !in crashEpochs { return true; }
      ok := false;
      var entriesEnd := PROPOSE_HDR_SIZE + hdr.nVehicles * ENTRY_SIZE;
      if |data| >= entriesEnd + EVIDENCE_HDR_SIZE {
        var off := entriesEnd + EVIDENCE_HDR_SIZE;
        if U32(data, entriesEnd) == EVIDENCE_MAGIC && U16(data, entriesEnd + 6) >= 1 && |data| >= off + 4 {
          var certLen := U32(data, off);
          off := off + 4;
          if |data| >= off + certLen && env.clearEvidence.Some? {
            ok := env.clearEvidence.value(Prev32(hdr.epoch), data[off..off + certLen]);
          }
        }
      }
    }

    /** All the guards on an ordinary order, in the order they are checked. */
    method GuardOrder(req: Request, data: bytes, hdr: ProposeHdr, env: Env)
      returns (ok: bool, view: Option<ForcedView>, certPrimary: bool, pbftPrimary: bool)
      requires ParseNormalProposal(data) == Some(hdr)
      ensures var entries := DecodeEntries(data, PROPOSE_HDR_SIZE, hdr.nVehicles);
        && view == EpochOrderView(hdr, entries, expected, faults, Some(req.meta))
        && (ok <==> OrderGuards(expected, State(), req.meta, data, hdr, entries, env))
        && (ok ==> (certPrimary <==> CertPrimary(hdr.leaderId, entries)))
        && (ok ==> (pbftPrimary <==> PbftPrimary(hdr.leaderId, entries, primary)))
    {
      ghost var entries := DecodeEntries(data, PROPOSE_HDR_SIZE, hdr.nVehicles);
      certPrimary, pbftPrimary := false, false;
      view := BuildEpochOrderViewCandidate(data, hdr, expected, faults, Some(req.meta));
      if hdr.epoch > 0 && view.None? { return false, view, false, false; }
      ok := EvidenceOk(data, hdr, env);
      if !ok { return; }
      if hdr.nVehicles == 0 || hdr.nVehicles > expected { return false, view, false, false; }
      ok := CheckEntries(data, hdr.nVehicles);
      if !ok { return; }
      assert forall e :: e in entries ==> InRange(e.replicaId, expected) by {
        assert forall e :: e in entries ==> EntrySane(e, expected);
      }
      if hdr.leaderId < 0 || hdr.leaderId >= expected { return false, view, false, false; }
      certPrimary, pbftPrimary := LeaderRoutes(data, hdr.nVehicles, hdr.leaderId, primary, expected);
      if !certPrimary && !pbftPrimary { return false, view, false, false; }
      if env.certs.Some? {
        ok := CheckCerts(env.certs.value, data, hdr.nVehicles, hdr.leaderId, false, certPrimary, expected);
      }
    }

    method VerifyOrder(req: Request, data: bytes, env: Env) returns (ok: bool)
      requires !req.kind.OtherRequest? && ParseNormalProposal(data).Some?
      modifies this`primary, this`currentView, forcedViews
      ensures (State(), ok) == OrderStep(expected, old(State()), req, data, env)
    {
      var hdr := DecodeHdr(data);
      var guarded, view, certPrimary, pbftPrimary := GuardOrder(req, data, hdr, env);
      if !guarded { return false; }
      if req.kind.PrePrepare? {
        if view.Some? {
          var installed := InstallView(req, view.value);
          if !installed { return false; }
        }
        if certPrimary && !pbftPrimary { SetPrimary(hdr.leaderId + 1, req.currentView); }
      } else if view.Some? {
        var installed := InstallView(req, view.value);
        return installed;
      }
      ok := true;
    }

    method VerifyRollback(req: Request, raw: bytes, r: RollbackHdr, data: bytes, env: Env) returns (ok: bool)
      requires !req.kind.OtherRequest? && ParseNormalProposal(data).Some?
      modifies this`primary, forcedViews
      ensures (State(), ok) == RollbackStep(expected, old(State()), req, raw, r, data, env)
    {
      var hdr := DecodeHdr(data);
      if !StructurallyValidCancelJustification(raw, r) { return false; }
      if hdr.nVehicles == 0 || hdr.nVehicles > expected { return false; }
      ok := CheckEntries(data, hdr.nVehicles);
      if !ok { return; }
      if hdr.leaderId < 0 || hdr.leaderId >= expected { return false; }
      if env.certs.Some? {
        ok := CheckCerts(env.certs.value, data, hdr.nVehicles, hdr.leaderId, true, false, expected);
        if !ok { return; }
      }
      var view := BuildForcedViewCandidate(data, hdr, expected, faults, Some(req.meta));
      if view.None? { return false; }
      ok := InstallView(req, view.value);
    }

    method GuardedPreVerify(req: Request, env: Env) returns (ok: bool)
      modifies this`primary, this`currentView, forcedViews
      ensures (State(), ok) == GuardedStep(expected, old(State()), req, env)
      ensures State() == Step(expected, old(State()), Guarded(req, env))
    {
      if req.kind.OtherRequest? { return true; }
      if req.payload.None? { return false; }
      var raw := req.payload.value;
      var view := new ProposalView();
      var parsed := view.UnwrapRollbackIfPresent(raw);
      if !parsed { return false; }
      ParsedPayload(raw);
      if view.kind == KCancel {
        ok := VerifyCancel(req, raw, view.cancel, view.cancelLeaderId, view.cancelElectors);
      } else if view.kind == KRollback {
        ok := VerifyRollback(req, raw, view.rollback, view.data, env);
      } else {
        ok := VerifyOrder(req, view.data, env);
      }
    }

    // ----- PreVerify with the firewall disabled

    method OpenPreVerify(req: Request) returns (ok: bool)
      modifies this`primary, forcedViews
      ensures (State(), ok) == OpenStep(expected, old(State()), req)
      ensures State() == Step(expected, old(State()), Open(req))
    {
      if req.kind.OtherRequest? { return true; }
      if req.payload.None? { return true; }
      var raw := req.payload.value;
      var pv := new ProposalView();
      var parsed := pv.UnwrapRollbackIfPresent(raw);
      if !parsed { return true; }
      ParsedPayload(raw);
      var view: Option<ForcedView>;
      if pv.kind == KCancel {
        var justified := CheckCancel(pv.cancel, raw, pv.cancelLeaderId, pv.cancelElectors);
        if !justified { return true; }
        view := BuildCancelViewCandidate(pv.cancel, pv.cancelLeaderId, pv.cancelElectors,
          expected, faults, Some(req.meta));
      } else {
        var hdr := DecodeHdr(pv.data);
        if pv.kind == KNormal {
          view := BuildEpochOrderViewCandidate(pv.data, hdr, expected, faults, Some(req.meta));
          if view.None? { return hdr.epoch == 0; }
        } else {
          if !StructurallyValidCancelJustification(raw, pv.rollback) { return true; }
          view := BuildForcedViewCandidate(pv.data, hdr, expected, faults, Some(req.meta));
        }
      }
      if view.None? { return true; }
      var installed := InstallView(req, view.value);
      ok := true;
    }

    // ----- operations the application calls

    /** A submitted cancel installs its view at once. */
    method SubmitCancel(payload: bytes, hash: string, c: CancelHdr, leaderId: int32, electors: seq<int32>)
      returns (ok: bool)
      requires payload != [] && Classify(payload) == Some(CancelProposal(c, leaderId, electors))
      modifies this`primary, forcedViews
      ensures State() == TriggerStep(expected, old(State()), payload, hash)
      ensures ok <==> TriggerAccepts(expected, old(State()), payload, hash)
    {
      ParsedPayload(payload);
      var justified := CheckCancel(c, payload, leaderId, electors);
      if !justified { return false; }
      var view := BuildCancelViewCandidate(c, leaderId, electors, expected, faults, None);
      if view.None? { return false; }
      var installed := InstallPendingForcedView(view.value.(requestHash := hash));
      ok := true;
    }

    /** The checks before a locally submitted proposal is injected.  Only a cancel installs
        its view here; orders and rollbacks leave that to PreVerify. */
    method TriggerConsensus(payload: bytes, hash: string) returns (ok: bool)
      modifies this`primary, forcedViews
      ensures State() == Step(expected, old(State()), Trigger(payload, hash))
      ensures ok <==> TriggerAccepts(expected, old(State()), payload, hash)
    {
      if payload == [] { return false; }
      var pv := new ProposalView();
      var parsed := pv.UnwrapRollbackIfPresent(payload);
      if !parsed { return true; }
      ParsedPayload(payload);
      if pv.kind == KCancel {
        ok := SubmitCancel(payload, hash, pv.cancel, pv.cancelLeaderId, pv.cancelElectors);
        return;
      }
      var hdr := DecodeHdr(pv.data);
      if pv.kind == KNormal {
        var view := BuildEpochOrderViewCandidate(pv.data, hdr, expected, faults, Some(RequestMeta(0, 0, hash)));
        return hdr.epoch == 0 || view.Some?;
      }
      if !StructurallyValidCancelJustification(payload, pv.rollback) { return false; }
      var view := BuildForcedViewCandidate(pv.data, hdr, expected, faults, None);
      ok := view.Some?;
    }

    method SetToleratedFaults(f: int) returns (ok: bool)
      modifies this`faults
      ensures State() == ToleratedFaultsSet(expected, old(State()), f)
      ensures State() == Step(expected, old(State()), SetFaults(f))
      ensures ok <==> f >= 0 && BftQuorumSize(expected, f).Some?
    {
      if f < 0 { return false; }
      if BftQuorumSize(expected, f).None? { return false; }
      faults := faults.(enabled := true, toleratedF := f);
      ok := true;
    }

    method SetRollbackFaultMode(perEpoch: bool)
      modifies this`faults
      ensures State() == old(State()).(faults := old(faults).(rollbackPerEpoch := perEpoch))
      ensures State() == Step(expected, old(State()), SetMode(perEpoch))
    {
      faults := faults.(rollbackPerEpoch := perEpoch);
    }

    method PromotePrimaryFromCert(primaryOmnet: int32) returns (ok: bool)
      modifies this`primary
      ensures State() == PrimaryPromoted(expected, old(State()), primaryOmnet)
      ensures State() == Step(expected, old(State()), Promote(primaryOmnet))
      ensures ok <==> 0 <= primaryOmnet < expected
    {
      if primaryOmnet < 0 || primaryOmnet >= expected { return false; }
      if OmnetReplica(primary) != primaryOmnet { primary := primaryOmnet + 1; }
      ok := true;
    }

    // ----- the executor

    /** Runs a decided proposal.  An order is scheduled from its own entries, with the
        bytes behind them passed on; a crash cancel arms the gate of the next epoch. */
    method ExecuteData(payload: bytes, allSingleton: bool, sha256: bytes -> bytes)
      returns (result: Execution, ghost schedule: Schedule)
      modifies this`crashEpochs
      ensures State() == ExecuteStep(old(State()), payload)
      ensures State() == Step(expected, old(State()), Execute(payload))
      ensures result.Unreadable? <==> Classify(payload).None?
      ensures match Classify(payload)
        case None => true
        case Some(CancelProposal(c, _, _)) =>
          var digest := DigestOf(sha256(payload));
          result == Cancelled(EncodeCancelDecision(
            CancelDecision(c.cancelledEpoch, c.reason, BigEndian(digest, 8), digest)))
        case Some(NormalProposal(data)) =>
          result.OrderDecided? && Decides(data, allSingleton, result.orderBytes, schedule)
            && TrailerPassedOn(data, result.orderBytes)
        case Some(RollbackProposal(_, data)) =>
          result.OrderDecided? && Decides(data, allSingleton, result.orderBytes, schedule)
            && TrailerPassedOn(data, result.orderBytes)
    {
      schedule := Schedule([], [], allSingleton, []);
      var view := new ProposalView();
      var parsed := view.UnwrapRollbackIfPresent(payload);
      if !parsed { return Unreadable, schedule; }
      ParsedPayload(payload);
      if view.kind == KCancel {
        if view.cancel.reason == 0 { crashEpochs := crashEpochs + {Next32(view.cancel.cancelledEpoch)}; }
        var digest := DigestOf(sha256(payload));
        var cancelSeq := CancelSeq(digest);
        var cancelBytes := EmitCancelDecision(
          CancelDecision(view.cancel.cancelledEpoch, view.cancel.reason, cancelSeq, digest));
        return Cancelled(cancelBytes), schedule;
      }
      var orderBytes;
      orderBytes, schedule := ExecuteOrder(view.data, allSingleton);
      result := OrderDecided(orderBytes);
    }

    method ExecuteOrder(data: bytes, allSingleton: bool) returns (orderBytes: bytes, ghost schedule: Schedule)
      requires ParseNormalProposal(data).Some?
      ensures Decides(data, allSingleton, orderBytes, schedule)
      ensures TrailerPassedOn(data, orderBytes)
    {
      var hdr := DecodeHdr(data);
      var entries: seq<VehicleEntry> := [];
      ghost var all := DecodeEntries(data, PROPOSE_HDR_SIZE, hdr.nVehicles);
      for i := 0 to hdr.nVehicles
        invariant entries == all[..i]
      {
        DecodeEntriesAt(data, PROPOSE_HDR_SIZE, hdr.nVehicles, i);
        entries := entries + [DecodeEntry(data, PROPOSE_HDR_SIZE + ENTRY_SIZE * i)];
      }
      assert entries == all;
      var r;
      ghost var closed;
      r, schedule, closed := BuildIntersectionSchedule(hdr, entries, allSingleton);
      ghost var decision := OrderDecision(hdr.epoch, r.nBatches, DecisionsOf(entries, schedule.batches));
      OrderRoundTrip(decision, data[PROPOSE_HDR_SIZE + hdr.nVehicles * ENTRY_SIZE..]);
      var entriesEnd := PROPOSE_HDR_SIZE + hdr.nVehicles * ENTRY_SIZE;
      orderBytes := r.orderBytes + data[entriesEnd..];
      assert orderBytes[|r.orderBytes|..] == data[entriesEnd..];
    }
  }

  /** What follows the entries of the order follows the decisions made on it. */
  predicate TrailerPassedOn(data: bytes, orderBytes: bytes) {
    |data| >= PROPOSE_HDR_SIZE &&
    var n := DecodeHdr(data).nVehicles;
    && |data| >= PROPOSE_HDR_SIZE + ENTRY_SIZE * n && |orderBytes| >= ORDER_HDR_SIZE + DECISION_SIZE * n
    && orderBytes[ORDER_HDR_SIZE + DECISION_SIZE * n..] == data[PROPOSE_HDR_SIZE + ENTRY_SIZE * n..]
  }

  /** `orderBytes` decode to the slots that `schedule` gives the entries of the order `data`. */
  ghost predicate Decides(data: bytes, allSingleton: bool, orderBytes: bytes, schedule: Schedule) {
    ParseNormalProposal(data).Some? &&
    var hdr := DecodeHdr(data);
    var entries := DecodeEntries(data, PROPOSE_HDR_SIZE, hdr.nVehicles);
    && schedule.view == entries && schedule.allSingleton == allSingleton
    && |schedule.batches| <= |entries|
    && Placed(schedule.batches) == Ids(entries) && DistinctIds(Flatten(schedule.batches))
    && (forall b :: b in schedule.batches ==> b != [] && SafeBatch(b, allSingleton))
    && (DistinctIds(entries) ==> IsSchedule(schedule))
    && (forall e :: e in entries ==> e.replicaId in Placed(schedule.batches))
    && DecodeOrder(orderBytes) ==
         Some(OrderDecision(hdr.epoch, |schedule.batches|, DecisionsOf(entries, schedule.batches)))
  }
}
