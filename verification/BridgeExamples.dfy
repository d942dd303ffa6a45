/** Inputs on which a property one might expect of the bridge fails, and the inputs that show
    the other theorems are not empty. */
module BridgeExamples {
  import opened BridgeTypes
  import opened Sorting
  import opened WireFormat
  import opened ProposalParser
  import opened ForcedViews
  import opened ViewBuilders
  import opened PreVerify
  import opened BridgeServers
  import opened BridgeRuns
  import opened AdmissionTheorems
  import opened QueueOrder
  import opened BatchPacker
  import opened ScheduleTheorems
  import opened PriorityTheorems
  import opened CancelDecisions
  import opened EndToEnd

  // ----- a one-vehicle order, and the handoff that does not happen

  /** The snapshot certifies vehicle 0 at the front of lane 0, and whatever else. */
  ghost predicate CertifiesFirst(certs: seq<CertEntry>) {
    CertEntry(0, 0, 1, 0, 0, 0, 0) in certs
    && forall c :: c in certs && c.replicaId == 0 ==> c == CertEntry(0, 0, 1, 0, 0, 0, 0)
  }

  lemma {:induction false} NoneOmitted(certs: seq<CertEntry>, entries: seq<VehicleEntry>)
    requires forall id: int32 :: !MarkedQuiet(entries, id)
    ensures Omitted(certs, entries) == 0
  {
    if certs != [] { NoneOmitted(certs[..|certs| - 1], entries); }
  }

  lemma OneVehicleCerts(expected: int, certs: seq<CertEntry>, e: VehicleEntry)
    requires expected >= 1 && CertifiesFirst(certs) && e == VehicleEntry(0, 7, 0, 0, 0, 1, 1, 0, 0)
    ensures CertPrimary(0, [e]) && EntriesSane([e], expected)
    ensures CertsAccept(certs, [e], 0, false, true, expected)
  {
    assert e in [e] && IsVoter(e);
    assert HoldsCert(certs, 0);
    NoneOmitted(certs, [e]);
  }

  lemma OneVehicleGuards(expected: int, s: BridgeState, env: Env, meta: RequestMeta, raw: bytes, hdr: ProposeHdr,
                         e: VehicleEntry)
    requires expected >= 1 && Fresh(s) && env.certs.Some? && CertifiesFirst(env.certs.value)
    requires hdr == ProposeHdr(0, 0, 5, 1) && e == VehicleEntry(0, 7, 0, 0, 0, 1, 1, 0, 0)
    ensures OrderGuards(expected, s, meta, raw, hdr, [e], env)
  {
    OneVehicleCerts(expected, env.certs.value, e);
  }

  lemma OneVehicleParses(raw: bytes, hdr: ProposeHdr, e: VehicleEntry)
    requires hdr == ProposeHdr(0, 0, 5, 1) && e == VehicleEntry(0, 7, 0, 0, 0, 1, 1, 0, 0)
    requires raw == EncodeNormal(hdr, [e])
    ensures CarriesPayload(raw) && DecodeHdr(raw) == hdr && DecodeEntries(raw, PROPOSE_HDR_SIZE, 1) == [e]
  {
    assert raw == raw + [];
    OrdersComeBack(hdr, [e], []);
    NormalContents(raw, hdr, [e], []);
    ParsedPayload(raw);
  }

  ghost predicate CarriesPayload(raw: bytes) {
    Classify(raw) == Some(NormalProposal(raw)) && ParseNormalProposal(raw).Some?
  }

  /** A replica fresh from construction that certifies vehicle 0 accepts the order of that
      vehicle alone, whatever its size and whatever else it certifies. */
  lemma OneVehicleAccepted(expected: int, s: BridgeState, req: Request, env: Env, raw: bytes)
    requires expected >= 1 && Fresh(s) && !s.faults.enabled
    requires env.certs.Some? && CertifiesFirst(env.certs.value)
    requires raw == EncodeNormal(ProposeHdr(0, 0, 5, 1), [VehicleEntry(0, 7, 0, 0, 0, 1, 1, 0, 0)])
    requires !req.kind.OtherRequest? && req.payload == Some(raw)
    ensures GuardedStep(expected, s, req, env).1 && ViewFor(expected, s, req).None?
  {
    var hdr, e := ProposeHdr(0, 0, 5, 1), VehicleEntry(0, 7, 0, 0, 0, 1, 1, 0, 0);
    assert raw == EncodeNormal(hdr, [e]) + [];
    OneVehicleParses(raw, hdr, e);
    OneVehicleGuards(expected, s, env, req.meta, raw, hdr, e);
    OrderVerdict(expected, s, req, env, hdr, [e], []);
  }

  /** The handoff that does not happen: a replica whose primary is another one, and whose view
      number the request does not exceed, accepts the order and keeps its primary. */
  lemma HandoffRefusedExample(expected: int, s: BridgeState, req: Request, env: Env, raw: bytes)
    requires expected >= 2 && Fresh(s) && !s.faults.enabled && s.primary == 2 && s.currentView == 1
    requires env.certs.Some? && CertifiesFirst(env.certs.value)
    requires raw == EncodeNormal(ProposeHdr(0, 0, 5, 1), [VehicleEntry(0, 7, 0, 0, 0, 1, 1, 0, 0)])
    requires req.kind.PrePrepare? && req.payload == Some(raw) && req.currentView == 1
    ensures GuardedStep(expected, s, req, env).1 && GuardedStep(expected, s, req, env).0.primary == 2
    ensures DecodeHdr(raw).leaderId + 1 == 1
  {
    OneVehicleAccepted(expected, s, req, env, raw);
    OneVehicleParses(raw, ProposeHdr(0, 0, 5, 1), VehicleEntry(0, 7, 0, 0, 0, 1, 1, 0, 0));
    KeptPrimary(expected, s, req, env, raw);
  }

  lemma KeptPrimary(expected: int, s: BridgeState, req: Request, env: Env, raw: bytes)
    requires req.kind.PrePrepare? && req.payload == Some(raw) && CarriesPayload(raw)
    requires ViewFor(expected, s, req).None? && req.currentView <= s.currentView
    ensures GuardedStep(expected, s, req, env).0.primary == s.primary
  {
  }

  /** Any number of certified vehicles may be dropped from an accepted order, check 9 notwithstanding. */
  lemma DroppedVehiclesExample(expected: int, s: BridgeState, req: Request, env: Env, raw: bytes)
    requires expected >= 1 && Fresh(s) && !s.faults.enabled
    requires env.certs.Some? && CertifiesFirst(env.certs.value)
    requires raw == EncodeNormal(ProposeHdr(0, 0, 5, 1), [VehicleEntry(0, 7, 0, 0, 0, 1, 1, 0, 0)])
    requires !req.kind.OtherRequest? && req.payload == Some(raw)
    ensures GuardedStep(expected, s, req, env).1
    ensures Dropped(env.certs.value, DecodeEntries(raw, PROPOSE_HDR_SIZE, 1))
      == (set c | c in env.certs.value :: c.replicaId) - {0}
  {
    var e := VehicleEntry(0, 7, 0, 0, 0, 1, 1, 0, 0);
    OneVehicleAccepted(expected, s, req, env, raw);
    OneVehicleParses(raw, ProposeHdr(0, 0, 5, 1), e);
    assert e in [e] && ListedSigned([e], 0);
  }

  // ----- an unsigned ambulance in front of a signed one

  lemma TwoAmbulanceGuards(s: BridgeState, env: Env, meta: RequestMeta, raw: bytes, hdr: ProposeHdr,
                           u: VehicleEntry, a: VehicleEntry)
    requires Fresh(s) && !s.faults.enabled && env.certs.None? && hdr == ProposeHdr(0, 1, 5, 2)
    requires u == VehicleEntry(0, 7, 1, 0, 0, 1, 0, 0, 0) && a == VehicleEntry(1, 7, 1, 0, 0, 2, 1, 0, 0)
    ensures OrderGuards(2, s, meta, raw, hdr, [u, a], env)
  {
    assert a in [u, a] && IsVoter(a) && !IsVoter(u);
  }

  lemma TwoAmbulanceOrder(s: BridgeState, req: Request, env: Env, raw: bytes, hdr: ProposeHdr,
                          u: VehicleEntry, a: VehicleEntry)
    requires Fresh(s) && !s.faults.enabled && env.certs.None? && req.kind.NewTxns? && req.payload == Some(raw)
    requires hdr == ProposeHdr(0, 1, 5, 2) && raw == EncodeNormal(hdr, [u, a])
    requires u == VehicleEntry(0, 7, 1, 0, 0, 1, 0, 0, 0) && a == VehicleEntry(1, 7, 1, 0, 0, 2, 1, 0, 0)
    ensures GuardedStep(2, s, req, env).1 && DecodeEntries(raw, PROPOSE_HDR_SIZE, 2) == [u, a]
  {
    assert raw == raw + [];
    OrdersComeBack(hdr, [u, a], []);
    TwoAmbulanceGuards(s, env, req.meta, raw, hdr, u, a);
    OrderVerdict(2, s, req, env, hdr, [u, a], []);
  }

  /** Without a certificate snapshot such an order is accepted, and its work queue breaks lane order. */
  lemma UncertifiedAmbulanceExample(s: BridgeState, env: Env, meta: RequestMeta, view: uint64, raw: bytes)
    requires Fresh(s) && !s.faults.enabled && env.certs.None?
    requires raw == EncodeNormal(ProposeHdr(0, 1, 5, 2),
                                 [VehicleEntry(0, 7, 1, 0, 0, 1, 0, 0, 0), VehicleEntry(1, 7, 1, 0, 0, 2, 1, 0, 0)])
    ensures GuardedStep(2, s, Request(NewTxns, meta, view, Some(raw)), env).1
    ensures forall q :: IsWorkQueue(DecodeEntries(raw, PROPOSE_HDR_SIZE, 2), q) ==> !RespectsLanes(q)
  {
    var u, a := VehicleEntry(0, 7, 1, 0, 0, 1, 0, 0, 0), VehicleEntry(1, 7, 1, 0, 0, 2, 1, 0, 0);
    TwoAmbulanceOrder(s, Request(NewTxns, meta, view, Some(raw)), env, raw, ProposeHdr(0, 1, 5, 2), u, a);
    TwoAmbulanceQueue([u, a], u, a);
  }

  lemma TwoAmbulanceQueue(entries: seq<VehicleEntry>, u: VehicleEntry, a: VehicleEntry)
    requires DistinctIds(entries) && u in entries && a in entries && UnsignedInFront(u, a)
    ensures forall q :: IsWorkQueue(entries, q) ==> !RespectsLanes(q)
  {
    forall q | IsWorkQueue(entries, q) ensures !RespectsLanes(q) {
      QueueRespectsLanes(entries, q);
    }
  }

  lemma OneAmbulance(view: seq<VehicleEntry>, w: VehicleEntry, u: VehicleEntry, a: VehicleEntry)
    requires view == [w, u, a] && DistinctIds(view)
    requires w.isAmbulance == 0 && !HasPriority(u) && HasPriority(a)
    ensures Ambulances(view) == [a]
  {
    AmbulancesSorted(view);
    assert Select([w], HasPriority) == [] by { assert [w][..0] == []; }
    assert Select([w, u], HasPriority) == [] by { assert [w, u][..1] == [w]; }
    assert Select(view, HasPriority) == [a] by { assert view[..2] == [w, u]; }
    assert |Ambulances(view)| == |multiset([a])| == 1;
    assert Ambulances(view)[0] in multiset([a]);
  }

  /** The ambulance `a` waits behind the unsigned one `u`, and that one behind the ordinary `w`:
      a single vehicle is ahead of `a` in its lane, but it crosses in the third batch or later,
      in both modes. */
  lemma DelayedAmbulanceExample(s: Schedule, w: VehicleEntry, u: VehicleEntry, a: VehicleEntry)
    requires IsSchedule(s) && s.view == [w, u, a]
    requires w == VehicleEntry(0, 7, 0, 2, 0, 1, 1, 0, 0)
    requires u == VehicleEntry(1, 7, 1, 0, 0, 1, 0, 0, 0) && a == VehicleEntry(2, 7, 1, 0, 0, 2, 1, 0, 0)
    ensures Ambulances(s.view) == [a] && LaneAhead(s.view, a) == {u}
    ensures a in Flatten(s.batches) && BatchIndex(s.batches, a) >= 2
  {
    assert w in s.view && u in s.view && a in s.view;
    OneAmbulance(s.view, w, u, a);
    OneAhead(s.view, w, u, a);
    StrictFifo(s, u, a);
    FirstBatchWithout(s, w, u, a);
  }

  lemma OneAhead(view: seq<VehicleEntry>, w: VehicleEntry, u: VehicleEntry, a: VehicleEntry)
    requires view == [w, u, a] && AheadInLane(u, a) && !AheadInLane(w, a) && !AheadInLane(a, a)
    ensures LaneAhead(view, a) == {u}
  {
  }

  /** In any queue for these vehicles `w` comes before `u`. */
  lemma OrdinaryFirst(view: seq<VehicleEntry>, q: seq<VehicleEntry>, w: VehicleEntry, u: VehicleEntry,
                      a: VehicleEntry, j: nat) returns (i: nat)
    requires IsWorkQueue(view, q) && view == [w, u, a] && Ambulances(view) == [a] && j < |q| && q[j] == u
    requires w == VehicleEntry(0, 7, 0, 2, 0, 1, 1, 0, 0)
    requires u == VehicleEntry(1, 7, 1, 0, 0, 1, 0, 0, 0) && a == VehicleEntry(2, 7, 1, 0, 0, 2, 1, 0, 0)
    ensures i < j && q[i] == w
  {
    SameElements(q, view);
    assert w in view;
    i :| 0 <= i < |q| && q[i] == w;
    assert QueueBefore(Ambulances(view), w, u);
    QueuePosition(Ambulances(view), q, i, j);
  }

  lemma FirstHead(view: seq<VehicleEntry>, q: seq<VehicleEntry>, w: VehicleEntry, u: VehicleEntry, a: VehicleEntry)
    requires IsWorkQueue(view, q) && view == [w, u, a] && Ambulances(view) == [a]
    requires w == VehicleEntry(0, 7, 0, 2, 0, 1, 1, 0, 0)
    requires u == VehicleEntry(1, 7, 1, 0, 0, 1, 0, 0, 0) && a == VehicleEntry(2, 7, 1, 0, 0, 2, 1, 0, 0)
    requires HeadFrom(view, q, {}, 0) < |q|
    ensures q[HeadFrom(view, q, {}, 0)] == w
  {
    var h := HeadFrom(view, q, {}, 0);
    SameElements(q, view);
    assert q[h] in view;
    assert u in view && AheadInLane(u, a);
    assert Schedulable(w, view, {}) && !Schedulable(a, view, {});
    if q[h] == u {
      var i := OrdinaryFirst(view, q, w, u, a, h);
    }
  }

  lemma StraightConflict(b: seq<VehicleEntry>, w: VehicleEntry, u: VehicleEntry)
    requires b != [] && b[0] == w && (|b| == 1 || Compatible(b))
    requires w.lane == 2 && w.direction == 0 && u.lane == 0 && u.direction == 0
    ensures u !in b
  {
    if u in b {
      var i :| 0 <= i < |b| && b[i] == u;
      PairwiseSafe(b, i, 0);
    }
  }

  lemma FirstBatchHead(s: Schedule, w: VehicleEntry, u: VehicleEntry, a: VehicleEntry)
    requires IsSchedule(s) && s.view == [w, u, a] && Ambulances(s.view) == [a] && |s.batches| > 0
    requires w == VehicleEntry(0, 7, 0, 2, 0, 1, 1, 0, 0)
    requires u == VehicleEntry(1, 7, 1, 0, 0, 1, 0, 0, 0) && a == VehicleEntry(2, 7, 1, 0, 0, 2, 1, 0, 0)
    ensures s.batches[0] != [] && s.batches[0][0] == w
  {
    var h := HeadOf(s, 0);
    NothingPlacedYet(s);
    FirstHead(s.view, s.queue, w, u, a);
  }

  lemma FirstBatchWithout(s: Schedule, w: VehicleEntry, u: VehicleEntry, a: VehicleEntry)
    requires IsSchedule(s) && s.view == [w, u, a] && Ambulances(s.view) == [a] && |s.batches| > 0
    requires w == VehicleEntry(0, 7, 0, 2, 0, 1, 1, 0, 0)
    requires u == VehicleEntry(1, 7, 1, 0, 0, 1, 0, 0, 0) && a == VehicleEntry(2, 7, 1, 0, 0, 2, 1, 0, 0)
    ensures u !in s.batches[0]
  {
    FirstBatchHead(s, w, u, a);
    SharedBatch(s, 0);
    StraightConflict(s.batches[0], w, u);
  }

  lemma NothingPlacedYet(s: Schedule)
    requires |s.batches| > 0
    ensures Placed(s.batches[..0]) == {}
  {
    assert s.batches[..0] == [];
  }

  // ----- the fault bound of a per-epoch rollback

  /** Vehicle `i` of a queue in lane 0, signed. */
  function Signed(i: int32): VehicleEntry
    requires 0 <= i < 7
  {
    VehicleEntry(i, 7, 0, 0, 0, i + 1, 1, 0, 0)
  }

  function SevenSigned(): seq<VehicleEntry> {
    [Signed(0), Signed(1), Signed(2), Signed(3), Signed(4), Signed(5), Signed(6)]
  }

  lemma {:induction false} SignedMembers(n: nat)
    requires n <= 7
    ensures |MemberIds(SevenSigned()[..n], true)| == n
    ensures forall i :: 0 <= i < n ==> MemberIds(SevenSigned()[..n], true)[i] == i
  {
    if n > 0 {
      SignedMembers(n - 1);
      assert SevenSigned()[..n][..n - 1] == SevenSigned()[..n - 1];
      assert SevenSigned()[..n][n - 1] == SevenSigned()[n - 1] == Signed(n - 1);
    }
  }

  lemma SevenVoterView(entries: seq<VehicleEntry>, faults: FaultMode, meta: RequestMeta)
    requires entries == SevenSigned() && faults == FaultMode(true, 1, true) && meta.senderId == 1
    ensures RollbackView(ProposeHdr(1, 0, 5, 7), entries, 7, faults, Some(meta)).Some?
    ensures |RollbackView(ProposeHdr(1, 0, 5, 7), entries, 7, faults, Some(meta)).value.members| == 7
  {
    SignedMembers(7);
    assert SevenSigned()[..7] == SevenSigned();
    var ids := MemberIds(entries, true);
    assert ids[0] == 0;
    SortedMembers(ids);
  }

  lemma SevenVoterGuards(entries: seq<VehicleEntry>, s: BridgeState, env: Env, meta: RequestMeta, raw: bytes,
                         r: RollbackHdr)
    requires entries == SevenSigned()
    requires s.faults == FaultMode(true, 1, true) && env.certs.None? && meta.senderId == 1
    requires StructurallyValidCancelJustification(raw, r)
    ensures RollbackGuards(7, s, meta, raw, r, ProposeHdr(1, 0, 5, 7), entries, env)
  {
    SevenVoterView(entries, s.faults, meta);
  }

  lemma SevenVoterFaults(entries: seq<VehicleEntry>, faults: FaultMode, meta: RequestMeta, v: ForcedView)
    requires entries == SevenSigned() && faults == FaultMode(true, 1, true) && meta.senderId == 1
    requires RollbackView(ProposeHdr(1, 0, 5, 7), entries, 7, faults, Some(meta)) == Some(v)
    ensures Normalize(v).Some? && Normalize(v).value.f == 2 && v.requestHash == meta.hash
  {
    SevenVoterView(entries, faults, meta);
    RollbackFaultsInstalled(ProposeHdr(1, 0, 5, 7), entries, 7, faults, Some(meta));
  }

  /** The reference to a committed cancel of epoch 0 with an empty proof. */
  lemma PlainJustification(raw: bytes, r: RollbackHdr, just: bytes, inner: bytes)
    requires r == RollbackHdr(1, 0, 0, 48) && |just| == 48 && raw == EncodeRollback(r, just, inner)
    requires U32(just, 0) == 0 && U32(just, 44) == 0
    ensures StructurallyValidCancelJustification(raw, r)
  {
    RollbackLayout(raw, r, just, inner);
    assert raw[16..64] == just;
    LowByte(just, 0);
  }

  /** A guarded replica that tolerates one fault accepts a rollback to seven voters, for which
      its builder computes f = 1, and installs a view with f = 2. */
  lemma RollbackFaultsExample(s: BridgeState, req: Request, env: Env, just: bytes, entries: seq<VehicleEntry>)
    requires s.faults == FaultMode(true, 1, true) && env.certs.None?
    requires |just| == 48 && U32(just, 0) == 0 && U32(just, 44) == 0 && entries == SevenSigned()
    requires req.kind.NewTxns? && req.meta.senderId == 1
    requires req.payload == Some(EncodeRollback(RollbackHdr(1, 0, 0, 48), just,
                                                EncodeNormal(ProposeHdr(1, 0, 5, 7), entries)))
    ensures GuardedStep(7, s, req, env).1
    ensures var pending := GuardedStep(7, s, req, env).0.registry.pending;
      req.meta.hash in pending && pending[req.meta.hash].f == 2
    ensures RollbackFaultsForMembership(1, 7) == 1
  {
    var r, hdr := RollbackHdr(1, 0, 0, 48), ProposeHdr(1, 0, 5, 7);
    var inner := EncodeNormal(hdr, entries);
    PlainJustification(req.payload.value, r, just, inner);
    SevenVoterGuards(entries, s, env, req.meta, req.payload.value, r);
    assert inner == inner + [];
    RollbackRoundTrip(r, just, hdr, entries, []);
    InnerOrder(inner, hdr, entries, []);
    RollbackVerdict(7, s, req, env, r, inner, hdr, entries);
    var v := RollbackView(hdr, entries, 7, s.faults, Some(req.meta)).value;
    SevenVoterFaults(entries, s.faults, req.meta, v);
    PendingFaults(s, req, v);
  }

  lemma PendingFaults(s: BridgeState, req: Request, v: ForcedView)
    requires req.kind.NewTxns? && Normalize(v).Some?
    ensures InstallStep(s, req, v).1
    ensures var pending := InstallStep(s, req, v).0.registry.pending;
      v.requestHash in pending && pending[v.requestHash].f == Normalize(v).value.f
  {
  }

  /** A crash rollback to a gated epoch is accepted without any evidence callback. */
  lemma UngatedRollbackExample(s: BridgeState, req: Request, env: Env, just: bytes, entries: seq<VehicleEntry>)
    requires s.faults == FaultMode(true, 1, true) && env.certs.None?
    requires 1 in s.crashEpochs && env.clearEvidence.None?
    requires |just| == 48 && U32(just, 0) == 0 && U32(just, 44) == 0 && entries == SevenSigned()
    requires req.kind.NewTxns? && req.meta.senderId == 1
    requires req.payload == Some(EncodeRollback(RollbackHdr(1, 0, 0, 48), just,
                                                EncodeNormal(ProposeHdr(1, 0, 5, 7), entries)))
    ensures GuardedStep(7, s, req, env).1
  {
    RollbackFaultsExample(s, req, env, just, entries);
  }

  // ----- two PRE_PREPAREs for one sequence number and hash

  lemma SoloView(hdr: ProposeHdr, e: VehicleEntry, meta: RequestMeta, v: ForcedView)
    requires hdr.leaderId == e.replicaId && hdr.nVehicles == 1 && hdr.epoch <= 1
    requires 0 <= e.replicaId < 2 && IsVoter(e) && meta.senderId == e.replicaId as int + 1
    requires v == ForcedView(hdr.epoch, meta.seqNo, meta.hash, e.replicaId, [e.replicaId as int], true, 0, 1)
    ensures EpochOrderView(hdr, [e], 2, FaultMode(true, 0, true), Some(meta)) == Some(v)
    ensures Normalize(v) == Some(v)
  {
    SoloMembers(e, true);
    SoloMembers(e, false);
    SoloNormalizes(v);
  }

  lemma SoloMembers(e: VehicleEntry, votersOnly: bool)
    requires IsVoter(e)
    ensures MemberIds([e], votersOnly) == [e.replicaId as int] && NoRepeats(MemberIds([e], votersOnly))
    ensures SortInts(MemberIds([e], votersOnly)) == [e.replicaId as int]
  {
    assert [e][..0] == [];
    SortKeeps([e.replicaId as int]);
  }

  lemma SoloNormalizes(v: ForcedView)
    requires |v.members| == 1 && v.fOverride && v.f == 0 && v.quorum == 1
    ensures Normalize(v) == Some(v)
  {
    SortKeeps(v.members);
    UniqueKeeps(v.members);
  }

  lemma SoloGuards(s: BridgeState, env: Env, meta: RequestMeta, raw: bytes, hdr: ProposeHdr, e: VehicleEntry,
                   v: ForcedView)
    requires s.crashEpochs == {} && s.faults == FaultMode(true, 0, true) && env.certs.None?
    requires EpochOrderView(hdr, [e], 2, s.faults, Some(meta)) == Some(v)
    requires hdr.leaderId == e.replicaId && hdr.nVehicles == 1 && 0 <= e.replicaId < 2
    requires e == VehicleEntry(e.replicaId, 7, 0, 0, 0, 1, 1, 0, 0)
    ensures OrderGuards(2, s, meta, raw, hdr, [e], env)
  {
    assert e in [e] && IsVoter(e);
  }

  /** The PRE_PREPARE of one signed vehicle that proposes itself, and the view it carries. */
  datatype Solo = Solo(hdr: ProposeHdr, e: VehicleEntry, req: Request, v: ForcedView)

  ghost predicate IsSolo(x: Solo, epoch: uint32, id: int32) {
    && 0 <= id < 2 && epoch <= 1
    && x.hdr == ProposeHdr(epoch, id, 5, 1) && x.e == VehicleEntry(id, 7, 0, 0, 0, 1, 1, 0, 0)
    && x.req.kind.PrePrepare? && x.req.meta == RequestMeta(id as int + 1, 9, "h")
    && x.req.payload == Some(EncodeNormal(x.hdr, [x.e]))
    && x.v == ForcedView(epoch, 9, "h", id, [id as int], true, 0, 1)
  }

  /** It is accepted when its view may be bound, and then installs that view. */
  lemma SoloAccepted(s: BridgeState, x: Solo, epoch: uint32, id: int32, env: Env)
    requires IsSolo(x, epoch, id) && MayBind(s.registry, x.v, "h")
    requires s.crashEpochs == {} && s.faults == FaultMode(true, 0, true) && env.certs.None?
    ensures GuardedStep(2, s, x.req, env).1
    ensures GuardedStep(2, s, x.req, env).0.registry == RequestInstalled(s.registry, x.v)
  {
    var raw := x.req.payload.value;
    assert raw == EncodeNormal(x.hdr, [x.e]) + [];
    OrdersComeBack(x.hdr, [x.e], []);
    NormalContents(raw, x.hdr, [x.e], []);
    SoloView(x.hdr, x.e, x.req.meta, x.v);
    SoloGuards(s, env, x.req.meta, raw, x.hdr, x.e, x.v);
    assert Bound(x.v, 9, "h") == x.v;
    OrderVerdict(2, s, x.req, env, x.hdr, [x.e], []);
    SoloInstalled(s, x, epoch, id, env);
  }

  lemma SoloInstalled(s: BridgeState, x: Solo, epoch: uint32, id: int32, env: Env)
    requires IsSolo(x, epoch, id) && MayBind(s.registry, x.v, "h") && Normalize(x.v) == Some(x.v)
    requires GuardedStep(2, s, x.req, env).1 && s.faults == FaultMode(true, 0, true)
    requires Classify(x.req.payload.value) == Some(NormalProposal(x.req.payload.value))
    requires ParseNormalProposal(x.req.payload.value).Some? && DecodeHdr(x.req.payload.value) == x.hdr
    requires DecodeEntries(x.req.payload.value, PROPOSE_HDR_SIZE, 1) == [x.e]
    requires EpochOrderView(x.hdr, [x.e], 2, s.faults, Some(x.req.meta)) == Some(x.v)
    ensures GuardedStep(2, s, x.req, env).0.registry == RequestInstalled(s.registry, x.v)
  {
    AcceptedInstalls(2, s, x.req, env);
    assert ViewFor(2, s, x.req) == Some(x.v);
  }

  /** A replica accepts an order of epoch 1 by vehicle 0 and then, for the same sequence number
      and hash, one of epoch 0 by vehicle 1: the view in force moves from members [0] to
      members [1], each with quorum 1, and {0} and {1} do not meet. */
  lemma QuorumShiftExample(s: BridgeState, x1: Solo, x2: Solo, env: Env)
    requires Fresh(s) && s.faults == FaultMode(true, 0, true) && env.certs.None?
    requires IsSolo(x1, 1, 0) && IsSolo(x2, 0, 1)
    ensures var s1 := GuardedStep(2, s, x1.req, env).0;
      && GuardedStep(2, s, x1.req, env).1 && GuardedStep(2, s1, x2.req, env).1
      && InForce(s1.registry, 9, "h") == Some(x1.v)
      && InForce(GuardedStep(2, s1, x2.req, env).0.registry, 9, "h") == Some(x2.v)
    ensures x1.v.members == [0] && x1.v.quorum == 1 && x2.v.members == [1] && x2.v.quorum == 1
  {
    SoloAccepted(s, x1, 1, 0, env);
    var s1 := GuardedStep(2, s, x1.req, env).0;
    FirstBinding(s.registry, x1.v);
    GuardedInstalls(2, s, x1.req, env);
    SoloKeepsFaults(2, s, x1.req, env);
    SoloAccepted(s1, x2, 0, 1, env);
    SecondBinding(s.registry, x1.v, x2.v);
  }

  lemma SoloKeepsFaults(expected: int, s: BridgeState, req: Request, env: Env)
    ensures GuardedStep(expected, s, req, env).0.faults == s.faults
  {
  }

  lemma SecondBinding(r: Registry, v1: ForcedView, v2: ForcedView)
    requires r.views == map[] && v1.requestHash == v2.requestHash != "" && v1.seqNo == v2.seqNo
    requires v2.epoch < v1.epoch
    ensures InForce(RequestInstalled(RequestInstalled(r, v1), v2), v1.seqNo, v1.requestHash) == Some(v2)
  {
    var after := RequestInstalled(RequestInstalled(r, v1), v2);
    var k2 := ViewKey(v2.epoch, v2.seqNo, v2.requestHash);
    assert k2 in after.views && Matches(k2, v1.seqNo, v1.requestHash);
    assert LeastKey(after, v1.seqNo, v1.requestHash) == k2;
  }

  // ----- an order taken for a cancel decision

  /** Whatever the executor decides on an order of five vehicles in the epoch that equals the
      magic number is taken for a cancel decision. */
  lemma OrderTakenForCancelExample(entries: seq<VehicleEntry>, leaderId: int32, allSingleton: bool, out: bytes,
                                   schedule: Schedule)
    requires |entries| == 5
    requires Decides(EncodeNormal(ProposeHdr(CANCEL_MAGIC, leaderId, 5, 5), entries), allSingleton, out, schedule)
    ensures LooksLikeCancelDecision(out)
  {
    var hdr := ProposeHdr(CANCEL_MAGIC, leaderId, 5, 5);
    var data := EncodeNormal(hdr, entries);
    assert data == data + [];
    NormalContents(data, hdr, entries, []);
    DecidedLength(data, allSingleton, out, schedule);
    ExecutedOrderTakenForCancel(data, allSingleton, out, schedule);
  }
}
