/** From an accepted proposal to the crossing order: what the voters' certificates say
    about the vehicles that share a batch, and about who crosses first. */
module EndToEnd {
  import opened BridgeTypes
  import opened WireFormat
  import opened ProposalParser
  import opened PreVerify
  import opened BridgeServers
  import opened QueueOrder
  import opened BatchPacker
  import opened ScheduleTheorems
  import opened PriorityTheorems
  import opened IntersectionScheduler
  import opened CancelDecisions

  /** The order entries `data` a request carries, in an ordinary or a rollback proposal. */
  ghost function OrderData(req: Request): Option<bytes> {
    if req.kind.OtherRequest? || req.payload.None? then None
    else
      match Classify(req.payload.value)
      case Some(NormalProposal(data)) => Some(data)
      case Some(RollbackProposal(_, data)) => Some(data)
      case _ => None
  }

  /** A replica holding `certs` accepts the request with the firewall on, and the executor
      turns its order into `orderBytes` by way of `schedule`. */
  datatype Crossing = Crossing(
    expected: int,
    state: BridgeState,
    req: Request,
    env: Env,
    certs: seq<CertEntry>,
    allSingleton: bool,
    orderBytes: bytes,
    schedule: Schedule)

  ghost predicate AcceptedAndExecuted(x: Crossing) {
    match x
    case Crossing(expected, s, req, env, certs, allSingleton, orderBytes, schedule) =>
      && env.certs == Some(certs)
      && GuardedStep(expected, s, req, env).1
      && OrderData(req).Some?
      && Decides(OrderData(req).value, allSingleton, orderBytes, schedule)
  }

  /** Every order, plain or wrapped in a rollback, that a replica with a snapshot accepts and executes
      is such a crossing. */
  lemma ExecutedIsCrossing(x: Crossing, data: bytes)
    requires x.env.certs == Some(x.certs) && GuardedStep(x.expected, x.state, x.req, x.env).1
    requires !x.req.kind.OtherRequest? && x.req.payload.Some?
    requires Classify(x.req.payload.value) == Some(NormalProposal(data))
      || exists r :: Classify(x.req.payload.value) == Some(RollbackProposal(r, data))
    requires Decides(data, x.allSingleton, x.orderBytes, x.schedule)
    ensures AcceptedAndExecuted(x)
  {
  }

  /** The guards that matter for crossing safety. */
  ghost predicate Checked(certs: seq<CertEntry>, entries: seq<VehicleEntry>, expected: int) {
    EntriesSane(entries, expected) && AmbulancesCertified(certs, entries) && CertsMatch(certs, entries)
  }

  lemma AcceptedIsChecked(x: Crossing)
    requires AcceptedAndExecuted(x)
    ensures Checked(x.certs, x.schedule.view, x.expected)
  {
    ParsedPayload(x.req.payload.value);
  }

  lemma AcceptedIsScheduled(x: Crossing)
    requires AcceptedAndExecuted(x)
    ensures IsSchedule(x.schedule) && x.schedule.allSingleton == x.allSingleton
  {
    AcceptedIsChecked(x);
  }

  // ----- orders that are lost

  /** An order that reads as a rollback is lost: below 2^32 microseconds the justification it
      seems to carry is empty, so every guarded replica rejects it. */
  lemma MistakenOrderIsRejected(expected: int, s: BridgeState, req: Request, env: Env, hdr: ProposeHdr,
                                entries: seq<VehicleEntry>, trailer: bytes)
    requires hdr.nVehicles == |entries| && entries != [] && hdr.proposeSimTimeUs < 0x1_0000_0000
    requires Mistakable(hdr, entries, trailer)
    requires !req.kind.OtherRequest? && req.payload == Some(EncodeNormal(hdr, entries) + trailer)
    ensures !GuardedStep(expected, s, req, env).1
  {
    var raw := req.payload.value;
    NormalContents(raw, hdr, entries, trailer);
    HdrFields(raw, 0, hdr);
    MistakenOrder(hdr, entries, trailer);
    RollbackHeader(raw);
    EmptyJustificationIsRejected(expected, s, req, env);
  }

  lemma RollbackHeader(raw: bytes)
    requires Classify(raw).Some? && Classify(raw).value.RollbackProposal?
    ensures |raw| >= ROLLBACK_HDR_SIZE && Classify(raw).value.rollback == ReadRollbackHdr(raw)
  {
  }

  lemma EmptyJustificationIsRejected(expected: int, s: BridgeState, req: Request, env: Env)
    requires !req.kind.OtherRequest? && req.payload.Some? && Classify(req.payload.value).Some?
    requires Classify(req.payload.value).value.RollbackProposal?
    requires Classify(req.payload.value).value.rollback.justificationLen == 0
    ensures !GuardedStep(expected, s, req, env).1
  {
    ParsedPayload(req.payload.value);
  }

  // ----- which certified vehicles a proposal may leave out

  ghost predicate ListedSigned(entries: seq<VehicleEntry>, id: int32) {
    exists e :: e in entries && e.replicaId == id && !IsQuietEntry(e)
  }

  /** Certified ids that the proposal does not present as signed. */
  ghost function LeftOut(certs: seq<CertEntry>, entries: seq<VehicleEntry>): set<int32> {
    set c | c in certs && !ListedSigned(entries, c.replicaId) :: c.replicaId
  }

  /** Those among them that it lists as QUIET. */
  ghost function Suppressed(certs: seq<CertEntry>, entries: seq<VehicleEntry>): set<int32> {
    set c | c in certs && MarkedQuiet(entries, c.replicaId) :: c.replicaId
  }

  /** Those among them that it does not list at all. */
  ghost function Dropped(certs: seq<CertEntry>, entries: seq<VehicleEntry>): set<int32> {
    set c | c in certs && !MarkedQuiet(entries, c.replicaId) && !ListedSigned(entries, c.replicaId) :: c.replicaId
  }

  lemma {:induction false} SuppressedAreCounted(certs: seq<CertEntry>, entries: seq<VehicleEntry>)
    ensures |Suppressed(certs, entries)| <= Omitted(certs, entries)
  {
    if certs != [] {
      var n := |certs| - 1;
      SuppressedAreCounted(certs[..n], entries);
      assert certs == certs[..n] + [certs[n]];
      var before := Suppressed(certs[..n], entries);
      assert Suppressed(certs, entries)
        == if MarkedQuiet(entries, certs[n].replicaId) then before + {certs[n].replicaId} else before;
    }
  }

  /** Check 9 bounds the certified vehicles listed as QUIET and no others: what an accepted
      proposal leaves out is at most `f` suppressed vehicles and any number of dropped ones. */
  lemma LeftOutBound(expected: int, s: BridgeState, req: Request, env: Env, certs: seq<CertEntry>, data: bytes)
    requires env.certs == Some(certs) && GuardedStep(expected, s, req, env).1 && OrderData(req) == Some(data)
    ensures ParseNormalProposal(data).Some?
    ensures var entries := DecodeEntries(data, PROPOSE_HDR_SIZE, DecodeHdr(data).nVehicles);
      && |Suppressed(certs, entries)| <= (expected - 1) / 3
      && |LeftOut(certs, entries)| == |Suppressed(certs, entries)| + |Dropped(certs, entries)|
  {
    ParsedPayload(req.payload.value);
    var entries := DecodeEntries(data, PROPOSE_HDR_SIZE, DecodeHdr(data).nVehicles);
    AcceptedCerts(expected, s, req, env, certs, data);
    SuppressedAreCounted(certs, entries);
    LeftOutSplits(certs, entries);
  }

  lemma AcceptedCerts(expected: int, s: BridgeState, req: Request, env: Env, certs: seq<CertEntry>, data: bytes)
    requires env.certs == Some(certs) && GuardedStep(expected, s, req, env).1 && OrderData(req) == Some(data)
    requires ParseNormalProposal(data).Some?
    ensures var entries := DecodeEntries(data, PROPOSE_HDR_SIZE, DecodeHdr(data).nVehicles);
      DistinctIds(entries) && Omitted(certs, entries) <= (expected - 1) / 3
  {
    ParsedPayload(req.payload.value);
  }

  lemma LeftOutSplits(certs: seq<CertEntry>, entries: seq<VehicleEntry>)
    requires DistinctIds(entries)
    ensures |LeftOut(certs, entries)| == |Suppressed(certs, entries)| + |Dropped(certs, entries)|
  {
    forall id | MarkedQuiet(entries, id) ensures !ListedSigned(entries, id) {
      var q :| q in entries && q.replicaId == id && IsQuietEntry(q);
      forall e | e in entries && e.replicaId == id ensures e == q { SameIdSameEntry(entries, e, q); }
    }
    var suppressed, dropped := Suppressed(certs, entries), Dropped(certs, entries);
    assert LeftOut(certs, entries) == suppressed + dropped;
    assert suppressed !! dropped;
  }

  // ----- what the application is handed

  /** What the sender put behind the entries, evidence included, reaches the application behind the
      decisions. */
  lemma TrailerReachesApplication(data: bytes, hdr: ProposeHdr, entries: seq<VehicleEntry>, trailer: bytes, out: bytes)
    requires data == EncodeNormal(hdr, entries) + trailer && hdr.nVehicles == |entries| && TrailerPassedOn(data, out)
    ensures |out| >= 12 + 8 * |entries| && out[12 + 8 * |entries|..] == trailer
  {
    NormalContents(data, hdr, entries, trailer);
    TrailerBehind(data, hdr, entries, trailer, 20 + 22 * |entries|);
  }

  // ----- safety of what is executed

  lemma DecidedLength(data: bytes, allSingleton: bool, out: bytes, schedule: Schedule)
    requires Decides(data, allSingleton, out, schedule)
    ensures |out| >= ORDER_HDR_SIZE + DECISION_SIZE * DecodeHdr(data).nVehicles
  {
  }

  /** What the executor decides on an order is taken for a cancel decision exactly if the order
      is of the epoch that equals the magic number, and the result is long enough. */
  lemma ExecutedOrderTakenForCancel(data: bytes, allSingleton: bool, out: bytes, schedule: Schedule)
    requires Decides(data, allSingleton, out, schedule)
    ensures LooksLikeCancelDecision(out) <==> DecodeHdr(data).epoch == CANCEL_MAGIC && |out| >= CANCEL_DECISION_SIZE
  {
  }


  /** Whatever was admitted, repeated ids and a disabled firewall included: vehicles that
      the executor lets cross together have pairwise safe movements. */
  lemma ExecutedBatchIsSafe(data: bytes, allSingleton: bool, orderBytes: bytes, schedule: Schedule, k: nat)
    requires Decides(data, allSingleton, orderBytes, schedule) && k < |schedule.batches|
    ensures var b := schedule.batches[k];
      && 1 <= |b| <= 4
      && (forall i, j :: 0 <= i < |b| && 0 <= j < |b| && i != j ==> SafePair(b[i], b[j]))
      && (forall i :: 0 <= i < |b| && (b[i].direction == 1 || b[i].direction >= 3) ==> |b| == 1)
      && (forall i :: 0 <= i < |b| && (b[i].cyberStatus == 0 || b[i].simTimeUs == 0xFFFF_FFFF_FFFF_FFFF) ==> |b| == 1)
      && (allSingleton ==> |b| == 1)
  {
    var b := schedule.batches[k];
    assert b in schedule.batches;
    if |b| != 1 {
      CompatibleShape(b);
      forall i, j | 0 <= i < |b| && 0 <= j < |b| && i != j ensures SafePair(b[i], b[j]) {
        PairwiseSafe(b, i, j);
      }
    }
  }

  lemma SharedBatchIsSafe(s: Schedule, u: VehicleEntry, v: VehicleEntry)
    requires IsSchedule(s) && u in s.view && v in s.view && u != v
    requires u in Flatten(s.batches) && v in Flatten(s.batches)
    requires BatchIndex(s.batches, u) == BatchIndex(s.batches, v)
    ensures !IsQuietEntry(u) && !IsQuietEntry(v) && SafePair(u, v)
  {
    var k := BatchIndex(s.batches, u);
    var b := s.batches[k];
    BatchShape(s, k);
    var i :| 0 <= i < |b| && b[i] == u;
    var j :| 0 <= j < |b| && b[j] == v;
    assert SafePair(b[i], b[j]);
  }

  /** No batch joins two locally certified vehicles whose certified movements conflict. */
  lemma CertifiedMovementsAreSafe(x: Crossing, c1: CertEntry, c2: CertEntry, u: VehicleEntry, v: VehicleEntry)
    requires AcceptedAndExecuted(x) && c1 in x.certs && c2 in x.certs
    requires u in x.schedule.view && v in x.schedule.view && u != v
    requires u.replicaId == c1.replicaId && v.replicaId == c2.replicaId
    requires u in Flatten(x.schedule.batches) && v in Flatten(x.schedule.batches)
    requires BatchIndex(x.schedule.batches, u) == BatchIndex(x.schedule.batches, v)
    ensures IsSafeToBatch(c1.lane, c1.direction, c2.lane, c2.direction)
  {
    AcceptedIsChecked(x);
    AcceptedIsScheduled(x);
    SharedBatchIsSafe(x.schedule, u, v);
    assert FieldsMatch(u, c1) && FieldsMatch(v, c2);
  }

  /** Certified vehicles of one lane that the proposal does not present as QUIET cross in
      strictly increasing batches, in their certified order. */
  lemma CertifiedOrderIsKept(x: Crossing, c1: CertEntry, c2: CertEntry, u: VehicleEntry, v: VehicleEntry)
    requires AcceptedAndExecuted(x) && c1 in x.certs && c2 in x.certs && c1.lane == c2.lane
    requires c1.positionInLane < c2.positionInLane
      || (c1.positionInLane == c2.positionInLane && c1.replicaId < c2.replicaId)
    requires u in x.schedule.view && v in x.schedule.view && !IsQuietEntry(u) && !IsQuietEntry(v)
    requires u.replicaId == c1.replicaId && v.replicaId == c2.replicaId
    ensures u in Flatten(x.schedule.batches) && v in Flatten(x.schedule.batches)
    ensures BatchIndex(x.schedule.batches, u) < BatchIndex(x.schedule.batches, v)
  {
    AcceptedIsChecked(x);
    AcceptedIsScheduled(x);
    assert FieldsMatch(u, c1) && FieldsMatch(v, c2);
    StrictFifo(x.schedule, u, v);
  }

  lemma AcceptedAmbulances(x: Crossing)
    requires AcceptedAndExecuted(x)
    ensures forall u :: u in x.schedule.view && u.isAmbulance != 0 ==>
      u.cyberStatus == 1 && exists c :: c in x.certs && c.replicaId == u.replicaId
  {
    AcceptedIsChecked(x);
    forall u | u in x.schedule.view && u.isAmbulance != 0
      ensures u.cyberStatus == 1 && exists c :: c in x.certs && c.replicaId == u.replicaId
    {
      assert EntrySane(u, x.expected) && !IsQuietEntry(u) && HoldsCert(x.certs, u.replicaId);
    }
  }

  /** In an accepted order every ambulance is signed and certified, the queue keeps lane order,
      and the ambulance of least position and id crosses as early as any lane-respecting order
      permits. */
  lemma AmbulancePriority(x: Crossing, a: VehicleEntry, slot: VehicleEntry -> nat)
    requires AcceptedAndExecuted(x) && a in x.schedule.view && a.isAmbulance != 0
    requires forall b :: b in x.schedule.view && b.isAmbulance != 0 && b.cyberStatus == 1 ==> a == b || Ahead(a, b)
    requires forall u, v :: u in x.schedule.view && v in x.schedule.view && AheadInLane(u, v) ==> slot(u) < slot(v)
    ensures a.cyberStatus == 1 && exists c :: c in x.certs && c.replicaId == a.replicaId
    ensures forall i, j :: 0 <= i < j < |x.schedule.queue| ==> !AheadInLane(x.schedule.queue[j], x.schedule.queue[i])
    ensures a in Flatten(x.schedule.batches)
    ensures BatchIndex(x.schedule.batches, a) == |set u | u in x.schedule.view && AheadInLane(u, a)| <= slot(a)
  {
    AcceptedAmbulances(x);
    AcceptedIsScheduled(x);
    QueueRespectsLanes(x.schedule.view, x.schedule.queue);
    AmbulanceOptimal(x.schedule, a, slot);
  }

  /** The decision bytes tell every vehicle of the order its slot in that schedule. */
  lemma DecisionNamesSlot(x: Crossing, i: nat)
    requires AcceptedAndExecuted(x) && i < |x.schedule.view|
    ensures DecodeOrder(x.orderBytes).Some?
    ensures var o := DecodeOrder(x.orderBytes).value;
      && o.nBatches == |x.schedule.batches| && |o.decisions| == |x.schedule.view|
      && x.schedule.view[i] in Flatten(x.schedule.batches)
      && o.decisions[i]
        == VehicleDecision(x.schedule.view[i].replicaId, BatchIndex(x.schedule.batches, x.schedule.view[i]))
  {
    AcceptedIsScheduled(x);
    var e := x.schedule.view[i];
    EveryoneScheduled(x.schedule, e);
    assert e.replicaId in Placed(x.schedule.batches);
    IdSlotIsBatchIndex(x.schedule.view, x.schedule.batches, e);
  }

  /** Voters whose accepted orders list the same entries, in any order and carried by
      whatever requests, execute the same batches. */
  lemma VotersAgree(x: Crossing, y: Crossing)
    requires AcceptedAndExecuted(x) && AcceptedAndExecuted(y)
    requires multiset(x.schedule.view) == multiset(y.schedule.view) && x.allSingleton == y.allSingleton
    ensures x.schedule.batches == y.schedule.batches
  {
    AcceptedIsScheduled(x);
    AcceptedIsScheduled(y);
    ScheduleAgreement(x.schedule, y.schedule);
  }
}
