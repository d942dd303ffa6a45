/** Exactly which proposals a guarded replica accepts, and what accepting one leaves behind, in
    terms of the fields that the sender packed. */
module AdmissionTheorems {
  import opened BridgeTypes
  import opened WireFormat
  import opened ProposalParser
  import opened ForcedViews
  import opened ViewBuilders
  import opened PreVerify
  import opened GuardChecks
  import opened BatchPacker
  import opened BridgeRuns
  import opened MembershipTheorems

  // ----- the sender is the leader

  /** A view is built only for a request that its own primary sends, whatever the proposal's kind. */
  lemma SenderIsViewPrimary(expected: int, s: BridgeState, req: Request, v: ForcedView)
    requires ViewFor(expected, s, req) == Some(v) && 0 < req.meta.senderId <= 0x8000_0000
    ensures req.meta.senderId == v.primary as int + 1
  {
    ParsedPayload(req.payload.value);
    match Classify(req.payload.value).value
    case CancelProposal(c, leaderId, electors) =>
      CancelSender(c, leaderId, electors, expected, s.faults, req.meta);
    case NormalProposal(data) =>
      var hdr := DecodeHdr(data);
      OrderSender(hdr, DecodeEntries(data, PROPOSE_HDR_SIZE, hdr.nVehicles), expected, s.faults, req.meta);
    case RollbackProposal(r, data) =>
      var hdr := DecodeHdr(data);
      RollbackSender(hdr, DecodeEntries(data, PROPOSE_HDR_SIZE, hdr.nVehicles), expected, s.faults, req.meta);
  }

  lemma CancelSender(c: CancelHdr, leaderId: int32, electors: seq<int32>, expected: int, faults: FaultMode,
                     meta: RequestMeta)
    requires 0 < meta.senderId <= 0x8000_0000
    ensures var v := CancelView(c, leaderId, electors, expected, faults, Some(meta));
      v.Some? ==> v.value.primary == leaderId && meta.senderId == leaderId as int + 1
  {
    CancelViewIff(c, leaderId, electors, expected, faults, meta);
  }

  lemma OrderSender(hdr: ProposeHdr, entries: seq<VehicleEntry>, expected: int, faults: FaultMode, meta: RequestMeta)
    requires 0 < meta.senderId <= 0x8000_0000
    ensures var v := EpochOrderView(hdr, entries, expected, faults, Some(meta));
      v.Some? ==> v.value.primary == hdr.leaderId && meta.senderId == hdr.leaderId as int + 1
  {
    MembershipIff(hdr, entries, hdr.epoch > 0, expected, meta);
  }

  lemma RollbackSender(hdr: ProposeHdr, entries: seq<VehicleEntry>, expected: int, faults: FaultMode, meta: RequestMeta)
    requires 0 < meta.senderId <= 0x8000_0000
    ensures var v := RollbackView(hdr, entries, expected, faults, Some(meta));
      v.Some? ==> v.value.primary == hdr.leaderId && meta.senderId == hdr.leaderId as int + 1
  {
    MembershipIff(hdr, entries, true, expected, meta);
  }

  /** From epoch 1 on, an accepted order was sent by the leader it names. */
  lemma AcceptedOrderSender(expected: int, s: BridgeState, req: Request, env: Env, data: bytes, hdr: ProposeHdr)
    requires CarriesOrder(req, data) && ParseNormalProposal(data) == Some(hdr) && hdr.epoch > 0
    requires GuardedStep(expected, s, req, env).1
    requires 0 < req.meta.senderId <= 0x8000_0000
    ensures req.meta.senderId == hdr.leaderId as int + 1
  {
    OrderSender(hdr, DecodeEntries(data, PROPOSE_HDR_SIZE, hdr.nVehicles), expected, s.faults, req.meta);
  }

  // ----- the guards, field by field

  lemma EntriesSaneIff(entries: seq<VehicleEntry>, expected: int)
    ensures EntriesSane(entries, expected) <==>
      && (forall i, j :: 0 <= i < j < |entries| ==> entries[i].replicaId != entries[j].replicaId)
      && (forall e :: e in entries ==>
            && 0 <= e.replicaId < expected && e.simTimeUs != 0 && e.isAmbulance <= 1 && e.cyberStatus <= 1
            && e.direction <= 3 && e.physicalLaneIndex <= 1)
  {
  }

  /** The leader must be signed, and be the least signed id or the primary. */
  lemma LeaderIff(leaderId: int32, entries: seq<VehicleEntry>, primary: uint32)
    requires leaderId >= 0
    ensures CertPrimary(leaderId, entries) || PbftPrimary(leaderId, entries, primary) <==>
      && (exists e :: e in entries && IsVoter(e) && e.replicaId == leaderId)
      && ((forall e :: e in entries && IsVoter(e) ==> leaderId <= e.replicaId) || primary == leaderId + 1)
    ensures (exists e :: e in entries && IsVoter(e) && e.replicaId == leaderId) ==>
      (CertPrimary(leaderId, entries) <==> forall e :: e in entries && IsVoter(e) ==> leaderId <= e.replicaId)
  {
    OwnReplica(primary, leaderId);
  }

  lemma {:induction false} OmittedCounts(certs: seq<CertEntry>, entries: seq<VehicleEntry>)
    ensures Omitted(certs, entries) == |set i | 0 <= i < |certs| && MarkedQuiet(entries, certs[i].replicaId)|
  {
    if certs != [] {
      var n := |certs| - 1;
      OmittedCounts(certs[..n], entries);
      var before := set i | 0 <= i < n && MarkedQuiet(entries, certs[..n][i].replicaId);
      var all := set i | 0 <= i < |certs| && MarkedQuiet(entries, certs[i].replicaId);
      assert all == if MarkedQuiet(entries, certs[n].replicaId) then before + {n} else before;
    }
  }

  /** The certificate block: a certified leader, who on the certificate route is the least certified
      one; ambulances signed and certified; signed entries as certified; and at most f certificates
      whose vehicle is listed as QUIET. */
  lemma CertsIff(certs: seq<CertEntry>, entries: seq<VehicleEntry>, leaderId: int32, rollback: bool, certPrimary: bool,
                 expected: int)
    ensures CertsAccept(certs, entries, leaderId, rollback, certPrimary, expected) <==>
      && (!rollback ==> exists c :: c in certs && c.replicaId == leaderId)
      && (!rollback && certPrimary ==>
            forall c :: c in certs && 0 <= c.replicaId < expected ==> leaderId <= c.replicaId)
      && (forall e :: e in entries && e.isAmbulance != 0 ==>
            !IsQuietEntry(e) && exists c :: c in certs && c.replicaId == e.replicaId)
      && (forall c, e :: c in certs && e in entries && e.replicaId == c.replicaId && !IsQuietEntry(e) ==>
            && e.lane == c.lane && e.positionInLane == c.positionInLane && e.direction == c.direction
            && e.isAmbulance == c.isAmbulance && e.physicalLaneIndex == c.physicalLaneIndex
            && e.lateralClaimCm == c.lateralClaimCm)
      && |set i | 0 <= i < |certs|
            && (exists e :: e in entries && e.replicaId == certs[i].replicaId && IsQuietEntry(e))|
         <= (expected - 1) / 3
  {
    OmittedCounts(certs, entries);
    assert (set i | 0 <= i < |certs| && MarkedQuiet(entries, certs[i].replicaId))
      == set i | 0 <= i < |certs| && exists e :: e in entries && e.replicaId == certs[i].replicaId && IsQuietEntry(e);
    MatchIff(certs, entries);
    AmbulancesIff(certs, entries);
  }

  lemma MatchIff(certs: seq<CertEntry>, entries: seq<VehicleEntry>)
    ensures CertsMatch(certs, entries) <==>
      forall c, e :: c in certs && e in entries && e.replicaId == c.replicaId && !IsQuietEntry(e) ==>
        && e.lane == c.lane && e.positionInLane == c.positionInLane && e.direction == c.direction
        && e.isAmbulance == c.isAmbulance && e.physicalLaneIndex == c.physicalLaneIndex
        && e.lateralClaimCm == c.lateralClaimCm
  {
  }

  lemma AmbulancesIff(certs: seq<CertEntry>, entries: seq<VehicleEntry>)
    ensures AmbulancesCertified(certs, entries) <==>
      forall e :: e in entries && e.isAmbulance != 0 ==>
        !IsQuietEntry(e) && exists c :: c in certs && c.replicaId == e.replicaId
  {
    assert forall id :: HoldsCert(certs, id) <==> exists c :: c in certs && c.replicaId == id;
  }

  // ----- which proposals are accepted

  lemma InstallSucceeds(s: BridgeState, req: Request, v: ForcedView, expected: int)
    requires Candidate(v, expected) && !req.kind.OtherRequest?
    ensures InstallStep(s, req, v).1 <==>
      (req.kind.PrePrepare? ==> MayBind(s.registry, Bound(v, req.meta.seqNo, req.meta.hash), req.meta.hash))
  {
    CandidateNormalizes(v, expected);
  }

  /** A request's view may be bound if the request has a hash, and the membership bound to the same
      epoch, sequence number and hash, if any, is the same. */
  lemma MayBindIff(s: BridgeState, req: Request, v: ForcedView)
    ensures MayBind(s.registry, Bound(v, req.meta.seqNo, req.meta.hash), req.meta.hash) <==>
      && req.meta.hash != ""
      && var key := ViewKey(v.epoch, req.meta.seqNo, req.meta.hash);
         key in s.registry.views ==> s.registry.views[key].members == v.members
  {
  }

  /** The verdict on an order that parses as one, by way of `OrderGuards`. */
  lemma OrderVerdict(expected: int, s: BridgeState, req: Request, env: Env, hdr: ProposeHdr,
                     entries: seq<VehicleEntry>, trailer: bytes)
    requires hdr.nVehicles == |entries| && !req.kind.OtherRequest?
    requires req.payload == Some(EncodeNormal(hdr, entries) + trailer)
    requires Classify(req.payload.value) == Some(NormalProposal(req.payload.value))
    ensures var v := EpochOrderView(hdr, entries, expected, s.faults, Some(req.meta));
      GuardedStep(expected, s, req, env).1 <==>
        OrderGuards(expected, s, req.meta, req.payload.value, hdr, entries, env)
        && (v.Some? && req.kind.PrePrepare? ==>
              MayBind(s.registry, Bound(v.value, req.meta.seqNo, req.meta.hash), req.meta.hash))
  {
    var raw := req.payload.value;
    NormalContents(raw, hdr, entries, trailer);
    ParsedPayload(raw);
    OrderBuildersGiveCandidates(hdr, entries, expected, s.faults, Some(req.meta));
    var v := EpochOrderView(hdr, entries, expected, s.faults, Some(req.meta));
    if v.Some? { InstallSucceeds(s, req, v.value, expected); }
  }

  lemma OrderGuardsIff(expected: int, s: BridgeState, meta: RequestMeta, data: bytes, hdr: ProposeHdr,
                       entries: seq<VehicleEntry>, env: Env)
    ensures var least := forall e :: e in entries && IsVoter(e) ==> hdr.leaderId <= e.replicaId;
      OrderGuards(expected, s, meta, data, hdr, entries, env) <==>
        && (hdr.epoch > 0 ==> EpochOrderView(hdr, entries, expected, s.faults, Some(meta)).Some?)
        && (hdr.epoch in s.crashEpochs ==> EvidenceApproved(data, hdr.nVehicles, hdr.epoch, env))
        && 0 < hdr.nVehicles <= expected && EntriesSane(entries, expected)
        && (exists e :: e in entries && IsVoter(e) && e.replicaId == hdr.leaderId)
        && (least || s.primary == hdr.leaderId as int + 1)
        && (env.certs.Some? ==> CertsAccept(env.certs.value, entries, hdr.leaderId, false, least, expected))
  {
    if hdr.leaderId >= 0 { LeaderIff(hdr.leaderId, entries, s.primary); }
  }

  /** An order that parses as one is accepted exactly when it lists between one and `expected`
      vehicles with distinct ids in range and sane fields; its leader is signed, and is the least
      signed id or the primary; the local certificates, if there are any, accept it; the gate, if it
      is armed for the epoch, finds evidence; from epoch 1 on a view can be built; and that view may
      be bound to a PRE_PREPARE. */
  lemma OrderAcceptedIff(expected: int, s: BridgeState, req: Request, env: Env, hdr: ProposeHdr,
                         entries: seq<VehicleEntry>, trailer: bytes)
    requires hdr.nVehicles == |entries| && !req.kind.OtherRequest?
    requires req.payload == Some(EncodeNormal(hdr, entries) + trailer)
    requires Classify(req.payload.value) == Some(NormalProposal(req.payload.value))
    ensures var v := EpochOrderView(hdr, entries, expected, s.faults, Some(req.meta));
      var least := forall e :: e in entries && IsVoter(e) ==> hdr.leaderId <= e.replicaId;
      var key := ViewKey(hdr.epoch, req.meta.seqNo, req.meta.hash);
      GuardedStep(expected, s, req, env).1 <==>
        && 0 < |entries| <= expected
        && (forall i, j :: 0 <= i < j < |entries| ==> entries[i].replicaId != entries[j].replicaId)
        && (forall e :: e in entries ==>
              && 0 <= e.replicaId < expected && e.simTimeUs != 0 && e.isAmbulance <= 1 && e.cyberStatus <= 1
              && e.direction <= 3 && e.physicalLaneIndex <= 1)
        && (exists e :: e in entries && IsVoter(e) && e.replicaId == hdr.leaderId)
        && (least || s.primary == hdr.leaderId as int + 1)
        && (env.certs.Some? ==> CertsAccept(env.certs.value, entries, hdr.leaderId, false, least, expected))
        && (hdr.epoch in s.crashEpochs ==> EvidenceApproved(req.payload.value, |entries|, hdr.epoch, env))
        && (hdr.epoch > 0 ==> v.Some?)
        && (v.Some? && req.kind.PrePrepare? ==>
              req.meta.hash != "" && (key in s.registry.views ==> s.registry.views[key].members == v.value.members))
  {
    OrderVerdict(expected, s, req, env, hdr, entries, trailer);
    OrderGuardsIff(expected, s, req.meta, req.payload.value, hdr, entries, env);
    EntriesSaneIff(entries, expected);
    var v := EpochOrderView(hdr, entries, expected, s.faults, Some(req.meta));
    if v.Some? {
      OrderViewContents(hdr, entries, expected, s.faults, req.meta, v.value);
      MayBindIff(s, req, v.value);
    }
  }

  /** A rollback's justification is the reference of at least 48 bytes to a committed cancel: it
      begins with the cancelled epoch and is long enough for the proof whose length stands at 44. */
  lemma JustificationIff(raw: bytes, r: RollbackHdr, just: bytes, inner: bytes)
    requires raw == EncodeRollback(r, just, inner) && r.justificationLen == |just|
    ensures StructurallyValidCancelJustification(raw, r) <==>
      && r.reason <= 1 && |just| >= 48 && U32(just, 0) == r.cancelledEpoch && |just| >= 48 + U32(just, 44)
      && !([67, 65, 78, 67, 69, 76, 95, 67, 69, 82, 84, 124] <= just)
  {
    RollbackLayout(raw, r, just, inner);
    assert raw[16..16 + |just|] == just by {
      assert raw == raw[..16] + just + inner by { RollbackParts(raw, r, just, inner); }
    }
  }

  lemma RollbackParts(raw: bytes, r: RollbackHdr, just: bytes, inner: bytes)
    requires raw == EncodeRollback(r, just, inner)
    ensures |raw| >= 16 && raw == raw[..16] + just + inner
  {
    var head := LE32(r.newEpoch) + LE32(r.cancelledEpoch) + [r.reason, 0, 0, 0] + LE32(r.justificationLen);
    assert raw == head + just + inner && |head| == 16;
    assert raw[..16] == head;
  }

  lemma RollbackVerdict(expected: int, s: BridgeState, req: Request, env: Env, r: RollbackHdr, inner: bytes,
                        hdr: ProposeHdr, entries: seq<VehicleEntry>)
    requires !req.kind.OtherRequest? && req.payload.Some? && ParseNormalProposal(inner).Some?
    requires Classify(req.payload.value) == Some(RollbackProposal(r, inner))
    requires DecodeHdr(inner) == hdr && DecodeEntries(inner, PROPOSE_HDR_SIZE, hdr.nVehicles) == entries
    ensures var v := RollbackView(hdr, entries, expected, s.faults, Some(req.meta));
      if RollbackGuards(expected, s, req.meta, req.payload.value, r, hdr, entries, env)
      then v.Some? && GuardedStep(expected, s, req, env) == InstallStep(s, req, v.value)
      else !GuardedStep(expected, s, req, env).1
  {
  }

  lemma RollbackGuardsIff(expected: int, s: BridgeState, meta: RequestMeta, raw: bytes, r: RollbackHdr, hdr: ProposeHdr,
                          entries: seq<VehicleEntry>, env: Env)
    ensures RollbackGuards(expected, s, meta, raw, r, hdr, entries, env) <==>
      && StructurallyValidCancelJustification(raw, r)
      && 0 < hdr.nVehicles <= expected && EntriesSane(entries, expected)
      && 0 <= hdr.leaderId < expected
      && (env.certs.Some? ==> CertsAccept(env.certs.value, entries, hdr.leaderId, true, false, expected))
      && RollbackView(hdr, entries, expected, s.faults, Some(meta)).Some?
  {
  }

  lemma InnerOrder(inner: bytes, hdr: ProposeHdr, entries: seq<VehicleEntry>, trailer: bytes)
    requires inner == EncodeNormal(hdr, entries) + trailer && hdr.nVehicles == |entries| && |entries| <= 10000
    ensures ParseNormalProposal(inner) == Some(hdr) && DecodeHdr(inner) == hdr
    ensures DecodeEntries(inner, PROPOSE_HDR_SIZE, |entries|) == entries
  {
    NormalContents(inner, hdr, entries, trailer);
    NormalLayout(inner, hdr, entries, trailer);
  }

  /** A rollback as sent is accepted exactly when it carries a reference to the cancel of the same
      epoch, lists between one and `expected` vehicles with distinct ids in range and sane fields,
      names a leader in range, passes the local certificates, if there are any, and a view can be
      built that may be bound to a PRE_PREPARE. */
  lemma RollbackAcceptedIff(expected: int, s: BridgeState, req: Request, env: Env, r: RollbackHdr, just: bytes,
                            hdr: ProposeHdr, entries: seq<VehicleEntry>, trailer: bytes)
    requires !req.kind.OtherRequest?
    requires req.payload == Some(EncodeRollback(r, just, EncodeNormal(hdr, entries) + trailer))
    requires r.justificationLen == |just| && hdr.nVehicles == |entries| && |entries| <= 10000 && r.reason <= 1
    requires r.newEpoch == (if r.cancelledEpoch == 0xFFFF_FFFF then 0 else r.cancelledEpoch + 1) == hdr.epoch
    ensures var v := RollbackView(hdr, entries, expected, s.faults, Some(req.meta));
      var key := ViewKey(hdr.epoch, req.meta.seqNo, req.meta.hash);
      GuardedStep(expected, s, req, env).1 <==>
        && |just| >= 48 && U32(just, 0) == r.cancelledEpoch && |just| >= 48 + U32(just, 44)
        && !([67, 65, 78, 67, 69, 76, 95, 67, 69, 82, 84, 124] <= just)
        && 0 < |entries| <= expected && 0 <= hdr.leaderId < expected
        && (forall i, j :: 0 <= i < j < |entries| ==> entries[i].replicaId != entries[j].replicaId)
        && (forall e :: e in entries ==>
              && 0 <= e.replicaId < expected && e.simTimeUs != 0 && e.isAmbulance <= 1 && e.cyberStatus <= 1
              && e.direction <= 3 && e.physicalLaneIndex <= 1)
        && (env.certs.Some? ==> CertsAccept(env.certs.value, entries, hdr.leaderId, true, false, expected))
        && v.Some?
        && (req.kind.PrePrepare? ==>
              req.meta.hash != "" && (key in s.registry.views ==> s.registry.views[key].members == v.value.members))
  {
    var raw, inner := req.payload.value, EncodeNormal(hdr, entries) + trailer;
    RollbackRoundTrip(r, just, hdr, entries, trailer);
    InnerOrder(inner, hdr, entries, trailer);
    RollbackVerdict(expected, s, req, env, r, inner, hdr, entries);
    RollbackGuardsIff(expected, s, req.meta, raw, r, hdr, entries, env);
    JustificationIff(raw, r, just, inner);
    EntriesSaneIff(entries, expected);
    OrderBuildersGiveCandidates(hdr, entries, expected, s.faults, Some(req.meta));
    var v := RollbackView(hdr, entries, expected, s.faults, Some(req.meta));
    if v.Some? {
      RollbackViewContents(hdr, entries, expected, s.faults, req.meta, v.value);
      InstallSucceeds(s, req, v.value, expected);
      MayBindIff(s, req, v.value);
    }
  }

  lemma CancelVerdict(expected: int, s: BridgeState, req: Request, env: Env, c: CancelHdr, leaderId: int32,
                      electors: seq<int32>, just: bytes)
    requires !req.kind.OtherRequest? && req.payload.Some?
    requires Classify(req.payload.value) == Some(CancelProposal(c, leaderId, electors))
    requires |req.payload.value| >= 12 + |just| && req.payload.value[12..12 + |just|] == just
    requires c.justificationLen == |just|
    ensures var v := CancelView(c, leaderId, electors, expected, s.faults, Some(req.meta));
      if CancelJustified(c, just, leaderId, electors) && v.Some?
      then GuardedStep(expected, s, req, env) == InstallStep(s, req, v.value)
      else !GuardedStep(expected, s, req, env).1
  {
  }

  lemma CancelJustifiedIff(c: CancelHdr, just: bytes, leaderId: int32, electors: seq<int32>)
    ensures CancelJustified(c, just, leaderId, electors) <==>
      && c.reason <= 1 && c.justificationLen != 0 && [67, 65, 78, 67, 69, 76, 95, 67, 69, 82, 84, 124] <= just
      && (exists p :: 0 <= p < |just| && just[p] == 58 && multiset(just[..p])[124] >= 4)
      && leaderId >= 0 && electors != []
  {
    NamesSignerMeans(just);
  }

  /** A cancel that parses as one is accepted exactly when its certificate holds a signature, that is
      a colon behind at least four bars, faults are configured, its electors are distinct, in range and
      at least 3f + 1, the leader is one of them and, as far as the sender is known, the sender, and the
      electorate may be bound to a PRE_PREPARE. */
  lemma CancelAcceptedIff(expected: int, s: BridgeState, req: Request, env: Env, c: CancelHdr, just: bytes,
                          leaderId: int32, electors: seq<int32>)
    requires !req.kind.OtherRequest? && |electors| < 0x1_0000_0000 && c.justificationLen == |just|
    requires req.payload == Some(EncodeCancel(c, just, leaderId, electors))
    requires Classify(req.payload.value) == Some(CancelProposal(c, leaderId, electors))
    ensures var v := CancelView(c, leaderId, electors, expected, s.faults, Some(req.meta));
      var key := ViewKey(c.cancelledEpoch, req.meta.seqNo, req.meta.hash);
      GuardedStep(expected, s, req, env).1 <==>
        && (exists p :: 0 <= p < |just| && just[p] == 58 && multiset(just[..p])[124] >= 4)
        && v.Some?
        && (req.kind.PrePrepare? ==>
              req.meta.hash != "" && (key in s.registry.views ==> s.registry.views[key].members == v.value.members))
  {
    var raw := req.payload.value;
    CancelHdrLayout(raw, c, just, LEI32(leaderId) + LE32(|electors|) + EncodeElectors(electors));
    CancelVerdict(expected, s, req, env, c, leaderId, electors, just);
    CancelJustifiedIff(c, just, leaderId, electors);
    CancelRoundTrip(c, just, leaderId, electors);
    CancelViewIff(c, leaderId, electors, expected, s.faults, req.meta);
    CancelBuilderGivesCandidates(c, leaderId, electors, expected, s.faults, Some(req.meta));
    var v := CancelView(c, leaderId, electors, expected, s.faults, Some(req.meta));
    if v.Some? {
      CancelViewContents(c, leaderId, electors, expected, s.faults, req.meta, v.value);
      InstallSucceeds(s, req, v.value, expected);
      MayBindIff(s, req, v.value);
    }
  }
}
