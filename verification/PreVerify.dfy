/** What the voters check before they take part in deciding a proposal, and what an
    accepted proposal does to the replica. */
module PreVerify {
  import opened BridgeTypes
  import opened Quorum
  import opened WireFormat
  import opened ProposalParser
  import opened ForcedViews
  import opened ViewBuilders
  import opened BatchPacker

  /** A certificate held locally by the voter. */
  datatype CertEntry = CertEntry(
    replicaId: int32,
    lane: byte,
    positionInLane: byte,
    direction: byte,
    isAmbulance: byte,
    physicalLaneIndex: byte,
    lateralClaimCm: int32)

  datatype RequestKind = PrePrepare | NewTxns | OtherRequest

  /** A PBFT request.  `payload` is the data of its first user request, None when the batch
      cannot be parsed or is empty. */
  datatype Request = Request(kind: RequestKind, meta: RequestMeta, currentView: uint64, payload: Option<bytes>)

  /** The application's callbacks at the time of the call: certificate snapshot and
      evidence validator, None while unregistered. */
  datatype Env = Env(certs: Option<seq<CertEntry>>, clearEvidence: Option<(uint32, bytes) -> bool>)

  datatype BridgeState = BridgeState(
    registry: Registry,
    primary: uint32,
    currentView: uint64,
    crashEpochs: set<uint32>,
    faults: FaultMode)

  const EVIDENCE_MAGIC: uint32 := 0x4F45_5631
  const EVIDENCE_HDR_SIZE: nat := 8
  const COMMIT_REF_SIZE: nat := 48
  const BAR: byte := 124
  const COLON: byte := 58

  function Prev32(x: uint32): uint32 {
    if x == 0 then 0xFFFF_FFFF else (x as int - 1)
  }

  // ----- cancel and rollback justifications

  /** Position of the next bar, or the end. */
  function NextBar(s: bytes, pos: nat): (r: nat)
    requires pos <= |s|
    ensures pos <= r <= |s|
    decreases |s| - pos
  {
    if pos == |s| || s[pos] == BAR then pos else NextBar(s, pos + 1)
  }

  /** The bar-separated fields from `pos` on, as `getline` yields them. */
  function Fields(s: bytes, pos: nat): seq<bytes>
    decreases |s| - pos
  {
    if pos >= |s| then []
    else [s[pos..NextBar(s, pos)]] + Fields(s, NextBar(s, pos) + 1)
  }

  /** Some field behind the four leading ones has the form signer:signature. */
  predicate NamesSigner(fields: seq<bytes>) {
    exists i :: 4 <= i < |fields| && COLON in fields[i]
  }

  predicate CancelJustified(c: CancelHdr, just: bytes, leaderId: int32, electors: seq<int32>) {
    && c.reason <= 1 && c.justificationLen != 0 && CANCEL_TAG <= just
    && NamesSigner(Fields(just, 0)) && leaderId >= 0 && electors != []
  }

  /** A rollback refers to a committed cancel of the same epoch; a bare certificate is refused. */
  predicate StructurallyValidCancelJustification(raw: bytes, r: RollbackHdr) {
    ROLLBACK_HDR_SIZE + r.justificationLen <= |raw| && r.reason <= 1 && r.justificationLen != 0 &&
    var just := raw[ROLLBACK_HDR_SIZE..ROLLBACK_HDR_SIZE + r.justificationLen];
    && !(CANCEL_TAG <= just)
    && |just| >= COMMIT_REF_SIZE
    && U32(just, 0) == r.cancelledEpoch
    && |just| >= COMMIT_REF_SIZE + U32(just, 44)
  }

  // ----- the guards, stated over the proposal's entries

  ghost predicate EntrySane(e: VehicleEntry, expected: int) {
    && InRange(e.replicaId, expected)
    && e.simTimeUs != 0 && e.isAmbulance <= 1 && e.cyberStatus <= 1 && e.direction <= 3 && e.physicalLaneIndex <= 1
  }

  ghost predicate EntriesSane(entries: seq<VehicleEntry>, expected: int) {
    DistinctIds(entries) && forall e :: e in entries ==> EntrySane(e, expected)
  }

  ghost predicate LeaderSigned(leaderId: int32, entries: seq<VehicleEntry>) {
    exists e :: e in entries && IsVoter(e) && e.replicaId == leaderId
  }

  /** The leader is the least signed id of the proposal. */
  ghost predicate CertPrimary(leaderId: int32, entries: seq<VehicleEntry>) {
    LeaderSigned(leaderId, entries) && forall e :: e in entries && IsVoter(e) ==> leaderId <= e.replicaId
  }

  ghost predicate PbftPrimary(leaderId: int32, entries: seq<VehicleEntry>, primary: uint32) {
    LeaderSigned(leaderId, entries) && leaderId == OmnetReplica(primary)
  }

  predicate FieldsMatch(e: VehicleEntry, c: CertEntry) {
    && e.lane == c.lane && e.positionInLane == c.positionInLane && e.direction == c.direction
    && e.isAmbulance == c.isAmbulance && e.physicalLaneIndex == c.physicalLaneIndex
    && e.lateralClaimCm == c.lateralClaimCm
  }

  ghost predicate HoldsCert(certs: seq<CertEntry>, id: int32) {
    exists c :: c in certs && c.replicaId == id
  }

  ghost predicate MarkedQuiet(entries: seq<VehicleEntry>, id: int32) {
    exists e :: e in entries && e.replicaId == id && IsQuietEntry(e)
  }

  /** How many local certificates the proposal presents as QUIET. */
  ghost function Omitted(certs: seq<CertEntry>, entries: seq<VehicleEntry>): nat {
    if certs == [] then 0
    else
      var n := |certs| - 1;
      Omitted(certs[..n], entries) + (if MarkedQuiet(entries, certs[n].replicaId) then 1 else 0)
  }

  /** Signed entries say what the local certificates say. */
  ghost predicate CertsMatch(certs: seq<CertEntry>, entries: seq<VehicleEntry>) {
    forall c, e :: c in certs && e in entries && e.replicaId == c.replicaId && !IsQuietEntry(e) ==> FieldsMatch(e, c)
  }

  /** Every ambulance is signed and certified locally. */
  ghost predicate AmbulancesCertified(certs: seq<CertEntry>, entries: seq<VehicleEntry>) {
    forall e :: e in entries && e.isAmbulance != 0 ==> !IsQuietEntry(e) && HoldsCert(certs, e.replicaId)
  }

  ghost predicate LeaderCertified(certs: seq<CertEntry>, leaderId: int32, certPrimary: bool, expected: int) {
    && HoldsCert(certs, leaderId)
    && (certPrimary ==> forall c :: c in certs && InRange(c.replicaId, expected) ==> leaderId <= c.replicaId)
  }

  ghost predicate CertsAccept(certs: seq<CertEntry>, entries: seq<VehicleEntry>, leaderId: int32, rollback: bool,
                              certPrimary: bool, expected: int)
  {
    && (!rollback ==> LeaderCertified(certs, leaderId, certPrimary, expected))
    && AmbulancesCertified(certs, entries)
    && CertsMatch(certs, entries)
    && Omitted(certs, entries) <= (expected - 1) / 3
  }

  /** A CLEAR trailer whose first certificate the application approves for the cancelled epoch. */
  predicate EvidenceApproved(data: bytes, nVehicles: nat, epoch: uint32, env: Env) {
    var end := PROPOSE_HDR_SIZE + nVehicles * ENTRY_SIZE;
    var off := end + EVIDENCE_HDR_SIZE + 4;
    && off <= |data|
    && U32(data, end) == EVIDENCE_MAGIC && U16(data, end + 6) >= 1
    && off + U32(data, off - 4) <= |data|
    && env.clearEvidence.Some?
    && env.clearEvidence.value(Prev32(epoch), data[off..off + U32(data, off - 4)])
  }

  /** Behind the `n` entries comes a trailer, and `cert` is its first certificate. */
  ghost predicate FirstCert(data: bytes, n: nat, cert: bytes) {
    var p := 20 + 22 * n;
    && p + 12 <= |data| && U32(data, p) == 0x4F45_5631 && U16(data, p + 6) >= 1
    && p + 12 + U32(data, p + 8) <= |data| && cert == data[p + 12..p + 12 + U32(data, p + 8)]
  }

  /** The evidence needed for an epoch is the application's word on the first certificate, asked
      about the epoch before. */
  lemma EvidenceMeans(data: bytes, n: nat, cancelled: uint32, epoch: uint32, env: Env)
    requires epoch == if cancelled == 0xFFFF_FFFF then 0 else cancelled + 1
    ensures EvidenceApproved(data, n, epoch, env) <==>
      env.clearEvidence.Some? && exists cert :: FirstCert(data, n, cert) && env.clearEvidence.value(cancelled, cert)
  {
    var p := 20 + 22 * n;
    assert Prev32(epoch) == cancelled;
    if EvidenceApproved(data, n, epoch, env) {
      assert FirstCert(data, n, data[p + 12..p + 12 + U32(data, p + 8)]);
    }
  }

  /** What the sender packs as the first certificate is the one that is read. */
  lemma SentFirstCert(data: bytes, hdr: ProposeHdr, entries: seq<VehicleEntry>, version: uint16,
                      certs: seq<Certificate>, cert: bytes)
    requires |certs| < 0x1_0000 && data == EncodeNormal(hdr, entries) + EncodeEvidence(version, certs)
    ensures FirstCert(data, |entries|, cert) <==> certs != [] && cert == certs[0]
  {
    var p := 20 + 22 * |entries|;
    TrailerBehind(data, hdr, entries, EncodeEvidence(version, certs), p);
    EvidenceLayout(data, p, version, certs);
  }

  /** All guards on an ordinary ORDER, except that the registry may refuse to bind its view. */
  ghost predicate OrderGuards(expected: int, s: BridgeState, meta: RequestMeta, data: bytes, hdr: ProposeHdr,
                              entries: seq<VehicleEntry>, env: Env)
  {
    && (hdr.epoch > 0 ==> EpochOrderView(hdr, entries, expected, s.faults, Some(meta)).Some?)
    && (hdr.epoch in s.crashEpochs ==> EvidenceApproved(data, hdr.nVehicles, hdr.epoch, env))
    && 0 < hdr.nVehicles <= expected
    && EntriesSane(entries, expected)
    && InRange(hdr.leaderId, expected)
    && (CertPrimary(hdr.leaderId, entries) || PbftPrimary(hdr.leaderId, entries, s.primary))
    && (env.certs.Some? ==>
          CertsAccept(env.certs.value, entries, hdr.leaderId, false, CertPrimary(hdr.leaderId, entries), expected))
  }

  ghost predicate RollbackGuards(expected: int, s: BridgeState, meta: RequestMeta, raw: bytes, r: RollbackHdr,
                                 hdr: ProposeHdr, entries: seq<VehicleEntry>, env: Env)
  {
    && StructurallyValidCancelJustification(raw, r)
    && 0 < hdr.nVehicles <= expected
    && EntriesSane(entries, expected)
    && InRange(hdr.leaderId, expected)
    && (env.certs.Some? ==> CertsAccept(env.certs.value, entries, hdr.leaderId, true, false, expected))
    && RollbackView(hdr, entries, expected, s.faults, Some(meta)).Some?
  }

  // ----- effects

  /** Installing a view also makes its leader the PBFT primary. */
  function AfterInstall(s: BridgeState, registry: Registry, primary: int32): BridgeState {
    s.(registry := registry, primary := if primary >= 0 then primary + 1 else s.primary)
  }

  /** A PRE_PREPARE binds the view to the request, or fails without effect; a locally
      submitted proposal parks it as pending. */
  function InstallStep(s: BridgeState, req: Request, v: ForcedView): (BridgeState, bool) {
    var n := Normalize(v);
    if n.None? then (s, false)
    else if req.kind.PrePrepare? then
      var bound := Bound(n.value, req.meta.seqNo, req.meta.hash);
      if MayBind(s.registry, bound, req.meta.hash)
      then (AfterInstall(s, RequestInstalled(s.registry, bound), v.primary), true)
      else (s, false)
    else (AfterInstall(s, PendingInstalled(s.registry, n.value), v.primary), true)
  }

  /** `SetPrimary` acts only on a newer view number. */
  function PrimarySet(s: BridgeState, primary: uint32, view: uint64): BridgeState {
    if view > s.currentView then s.(primary := primary, currentView := view) else s
  }

  // ----- one guarded verification

  ghost function CancelStep(expected: int, s: BridgeState, req: Request, raw: bytes, c: CancelHdr, leaderId: int32,
                            electors: seq<int32>): (BridgeState, bool)
    requires CANCEL_HDR_SIZE + c.justificationLen <= |raw|
  {
    var v := CancelView(c, leaderId, electors, expected, s.faults, Some(req.meta));
    if CancelJustified(c, raw[CANCEL_HDR_SIZE..CANCEL_HDR_SIZE + c.justificationLen], leaderId, electors) && v.Some?
    then InstallStep(s, req, v.value)
    else (s, false)
  }

  ghost function OrderStep(expected: int, s: BridgeState, req: Request, data: bytes, env: Env): (BridgeState, bool)
    requires ParseNormalProposal(data).Some?
  {
    var hdr := DecodeHdr(data);
    var entries := DecodeEntries(data, PROPOSE_HDR_SIZE, hdr.nVehicles);
    if !OrderGuards(expected, s, req.meta, data, hdr, entries, env) then (s, false)
    else
      var v := EpochOrderView(hdr, entries, expected, s.faults, Some(req.meta));
      var installed := if v.Some? then InstallStep(s, req, v.value) else (s, true);
      if installed.1 && req.kind.PrePrepare? && CertPrimary(hdr.leaderId, entries)
         && !PbftPrimary(hdr.leaderId, entries, s.primary)
      then (PrimarySet(installed.0, hdr.leaderId + 1, req.currentView), true)
      else installed
  }

  ghost function RollbackStep(expected: int, s: BridgeState, req: Request, raw: bytes, r: RollbackHdr, data: bytes,
                              env: Env): (BridgeState, bool)
    requires ParseNormalProposal(data).Some?
  {
    var hdr := DecodeHdr(data);
    var entries := DecodeEntries(data, PROPOSE_HDR_SIZE, hdr.nVehicles);
    if !RollbackGuards(expected, s, req.meta, raw, r, hdr, entries, env) then (s, false)
    else InstallStep(s, req, RollbackView(hdr, entries, expected, s.faults, Some(req.meta)).value)
  }

  lemma ParsedPayload(raw: bytes)
    requires Classify(raw).Some?
    ensures match Classify(raw).value
      case NormalProposal(data) => data == raw && ParseNormalProposal(data).Some?
      case CancelProposal(c, _, _) => c == ReadCancelHdrOf(raw) && CANCEL_HDR_SIZE + c.justificationLen <= |raw|
      case RollbackProposal(r, data) => ParseNormalProposal(data).Some?
  {
  }

  function ReadCancelHdrOf(raw: bytes): CancelHdr {
    if CANCEL_HDR_SIZE <= |raw| then ReadCancelHdr(raw) else CancelHdr(0, 0, 0)
  }

  /** The verdict on a request, and the replica's state afterwards. */
  ghost function GuardedStep(expected: int, s: BridgeState, req: Request, env: Env): (BridgeState, bool) {
    if req.kind.OtherRequest? then (s, true)
    else if req.payload.None? || Classify(req.payload.value).None? then (s, false)
    else
      var raw := req.payload.value;
      ParsedPayload(raw);
      match Classify(raw).value
      case NormalProposal(data) => OrderStep(expected, s, req, data, env)
      case CancelProposal(c, leaderId, electors) => CancelStep(expected, s, req, raw, c, leaderId, electors)
      case RollbackProposal(r, data) => RollbackStep(expected, s, req, raw, r, data, env)
  }

  /** With the firewall disabled everything passes, except an order of a later epoch for
      which no view can be built; views are still installed when they can be. */
  ghost function OpenStep(expected: int, s: BridgeState, req: Request): (BridgeState, bool) {
    if req.kind.OtherRequest? || req.payload.None? || Classify(req.payload.value).None? then (s, true)
    else
      var raw := req.payload.value;
      ParsedPayload(raw);
      match Classify(raw).value
      case NormalProposal(data) =>
        var hdr := DecodeHdr(data);
        var v := EpochOrderView(hdr, DecodeEntries(data, PROPOSE_HDR_SIZE, hdr.nVehicles),
          expected, s.faults, Some(req.meta));
        if v.Some? then (InstallStep(s, req, v.value).0, true) else (s, hdr.epoch == 0)
      case CancelProposal(c, leaderId, electors) =>
        var v := CancelView(c, leaderId, electors, expected, s.faults, Some(req.meta));
        var just := raw[CANCEL_HDR_SIZE..CANCEL_HDR_SIZE + c.justificationLen];
        if CancelJustified(c, just, leaderId, electors) && v.Some?
          then (InstallStep(s, req, v.value).0, true) else (s, true)
      case RollbackProposal(r, data) =>
        var hdr := DecodeHdr(data);
        var v := RollbackView(hdr, DecodeEntries(data, PROPOSE_HDR_SIZE, hdr.nVehicles),
          expected, s.faults, Some(req.meta));
        if StructurallyValidCancelJustification(raw, r) && v.Some?
          then (InstallStep(s, req, v.value).0, true) else (s, true)
  }

  /** The executor marks the successor of a crash-cancelled epoch. */
  function ExecuteStep(s: BridgeState, payload: bytes): BridgeState {
    match Classify(payload)
    case Some(CancelProposal(c, _, _)) =>
      if c.reason == 0 then s.(crashEpochs := s.crashEpochs + {Next32(c.cancelledEpoch)}) else s
    case _ => s
  }

  /** A locally triggered cancel parks its view at once, under the new request's hash. */
  ghost function TriggerStep(expected: int, s: BridgeState, payload: bytes, hash: string): BridgeState {
    match Classify(payload)
    case Some(CancelProposal(c, leaderId, electors)) =>
      ParsedPayload(payload);
      var v := CancelView(c, leaderId, electors, expected, s.faults, None);
      if CancelJustified(c, payload[CANCEL_HDR_SIZE..CANCEL_HDR_SIZE + c.justificationLen], leaderId, electors)
         && v.Some? && Normalize(v.value.(requestHash := hash)).Some?
      then AfterInstall(s, PendingInstalled(s.registry, Normalize(v.value.(requestHash := hash)).value),
        v.value.primary)
      else s
    case _ => s
  }

  /** What a replica hands on for agreement when its application submits `payload`. */
  ghost predicate TriggerAccepts(expected: int, s: BridgeState, payload: bytes, hash: string) {
    payload != [] &&
    match Classify(payload)
    case None => true
    case Some(CancelProposal(c, leaderId, electors)) =>
      ParsedPayload(payload);
      && CancelJustified(c, payload[CANCEL_HDR_SIZE..CANCEL_HDR_SIZE + c.justificationLen], leaderId, electors)
      && CancelView(c, leaderId, electors, expected, s.faults, None).Some?
    case Some(NormalProposal(data)) =>
      ParsedPayload(payload);
      var hdr := DecodeHdr(data);
      var entries := DecodeEntries(data, PROPOSE_HDR_SIZE, hdr.nVehicles);
      hdr.epoch == 0 || EpochOrderView(hdr, entries, expected, s.faults, Some(RequestMeta(0, 0, hash))).Some?
    case Some(RollbackProposal(r, data)) =>
      ParsedPayload(payload);
      var hdr := DecodeHdr(data);
      var entries := DecodeEntries(data, PROPOSE_HDR_SIZE, hdr.nVehicles);
      StructurallyValidCancelJustification(payload, r) && RollbackView(hdr, entries, expected, s.faults, None).Some?
  }

  function ToleratedFaultsSet(expected: int, s: BridgeState, f: int): BridgeState {
    if f < 0 || expected <= 0 || BftQuorumSize(expected, f).None? then s
    else s.(faults := s.faults.(enabled := true, toleratedF := f))
  }

  function PrimaryPromoted(expected: int, s: BridgeState, primaryOmnet: int32): BridgeState {
    if 0 <= primaryOmnet < expected && OmnetReplica(s.primary) != primaryOmnet
      then s.(primary := primaryOmnet + 1) else s
  }
}
