/** The checking loops of PreVerify, each proved to decide its guard. */
module GuardChecks {
  import opened BridgeTypes
  import opened Sorting
  import opened WireFormat
  import opened ProposalParser
  import opened ForcedViews
  import opened ViewBuilders
  import opened BatchPacker
  import opened PreVerify

  lemma {:induction false} MemberIdsPlain(entries: seq<VehicleEntry>)
    ensures |MemberIds(entries, false)| == |entries|
    ensures forall i :: 0 <= i < |entries| ==> MemberIds(entries, false)[i] == entries[i].replicaId
  {
    if entries != [] { MemberIdsPlain(entries[..|entries| - 1]); }
  }

  lemma DistinctIsNoRepeats(entries: seq<VehicleEntry>)
    ensures NoRepeats(MemberIds(entries, false)) <==> DistinctIds(entries)
  {
    MemberIdsPlain(entries);
    var ids := MemberIds(entries, false);
    if DistinctIds(entries) {
      forall i, j | 0 <= i < j < |ids| ensures ids[i] != ids[j] {
        assert entries[i].replicaId != entries[j].replicaId;
      }
    }
    if NoRepeats(ids) {
      forall i, j | 0 <= i < j < |entries| ensures entries[i].replicaId != entries[j].replicaId {
        assert ids[i] != ids[j];
      }
    }
  }

  /** Duplicate and range checks on the replica ids. */
  method CheckIds(data: bytes, n: nat, expected: int) returns (ok: bool)
    requires PROPOSE_HDR_SIZE + ENTRY_SIZE * n <= |data|
    ensures var entries := DecodeEntries(data, PROPOSE_HDR_SIZE, n);
      ok <==> DistinctIds(entries) && forall e :: e in entries ==> InRange(e.replicaId, expected)
  {
    ghost var entries := DecodeEntries(data, PROPOSE_HDR_SIZE, n);
    var ids: seq<int> := [];
    for i := 0 to n
      invariant ids == MemberIds(entries[..i], false)
    {
      DecodeEntriesAt(data, PROPOSE_HDR_SIZE, n, i);
      assert entries[..i + 1][..i] == entries[..i];
      ids := ids + [DecodeEntry(data, PROPOSE_HDR_SIZE + ENTRY_SIZE * i).replicaId as int];
    }
    assert entries[..n] == entries;
    DistinctIsNoRepeats(entries);
    MemberIdsElements(entries, false);
    SortedMembers(ids);
    ids := SortInts(ids);
    if AdjacentEqual(ids) { return false; }
    for i := 0 to |ids|
      invariant forall k :: 0 <= k < i ==> InRange(ids[k], expected)
    {
      if ids[i] < 0 || ids[i] >= expected {
        assert ids[i] in MemberIds(entries, false);
        return false;
      }
    }
    forall e | e in entries ensures InRange(e.replicaId, expected) {
      assert e.replicaId as int in ids;
    }
    ok := true;
  }

  /** Timestamps, flags and enumerations. */
  method CheckFields(data: bytes, n: nat, expected: int) returns (ok: bool)
    requires PROPOSE_HDR_SIZE + ENTRY_SIZE * n <= |data|
    requires forall e :: e in DecodeEntries(data, PROPOSE_HDR_SIZE, n) ==> InRange(e.replicaId, expected)
    ensures ok <==> forall e :: e in DecodeEntries(data, PROPOSE_HDR_SIZE, n) ==> EntrySane(e, expected)
  {
    ghost var entries := DecodeEntries(data, PROPOSE_HDR_SIZE, n);
    for i := 0 to n
      invariant forall k :: 0 <= k < i ==> EntrySane(entries[k], expected)
    {
      DecodeEntriesAt(data, PROPOSE_HDR_SIZE, n, i);
      var e := DecodeEntry(data, PROPOSE_HDR_SIZE + ENTRY_SIZE * i);
      assert e in entries;
      if e.simTimeUs == 0 { return false; }
      if e.isAmbulance > 1 { return false; }
      if e.cyberStatus > 1 { return false; }
      if e.direction > 3 { return false; }
      if e.physicalLaneIndex > 1 { return false; }
    }
    ok := true;
  }

  /** Which of the two routes, if any, admits the leader of an ordinary order. */
  method LeaderRoutes(data: bytes, n: nat, leaderId: int32, primary: uint32, expected: int)
    returns (certPrimary: bool, pbftPrimary: bool)
    requires PROPOSE_HDR_SIZE + ENTRY_SIZE * n <= |data| && expected <= 0x7FFF_FFFF
    requires forall e :: e in DecodeEntries(data, PROPOSE_HDR_SIZE, n) ==> InRange(e.replicaId, expected)
    ensures certPrimary <==> CertPrimary(leaderId, DecodeEntries(data, PROPOSE_HDR_SIZE, n))
    ensures pbftPrimary <==> PbftPrimary(leaderId, DecodeEntries(data, PROPOSE_HDR_SIZE, n), primary)
  {
    ghost var entries := DecodeEntries(data, PROPOSE_HDR_SIZE, n);
    var least: int32 := 0x7FFF_FFFF;
    var leaderIsSigned := false;
    for i := 0 to n
      invariant leaderIsSigned <==> exists k :: 0 <= k < i && IsVoter(entries[k]) && entries[k].replicaId == leaderId
      invariant forall k :: 0 <= k < i && IsVoter(entries[k]) ==> least <= entries[k].replicaId
      invariant least != 0x7FFF_FFFF ==> exists k :: 0 <= k < i && IsVoter(entries[k]) && entries[k].replicaId == least
    {
      DecodeEntriesAt(data, PROPOSE_HDR_SIZE, n, i);
      var e := DecodeEntry(data, PROPOSE_HDR_SIZE + ENTRY_SIZE * i);
      assert e in entries;
      if e.replicaId >= 0 && e.replicaId < expected && e.cyberStatus == 1 && e.simTimeUs != UINT64_MAX {
        if e.replicaId < least { least := e.replicaId; }
        if e.replicaId == leaderId { leaderIsSigned := true; }
      }
    }
    assert leaderIsSigned <==> LeaderSigned(leaderId, entries);
    if least == 0x7FFF_FFFF {
      assert !LeaderSigned(leaderId, entries);
      return false, false;
    }
    certPrimary := leaderId == least && leaderIsSigned;
    pbftPrimary := leaderId == OmnetReplica(primary) && leaderIsSigned;
  }

  /** The proposal's entries keyed by id. */
  method ProposalMap(data: bytes, n: nat) returns (m: map<int32, VehicleEntry>)
    requires PROPOSE_HDR_SIZE + ENTRY_SIZE * n <= |data|
    requires DistinctIds(DecodeEntries(data, PROPOSE_HDR_SIZE, n))
    ensures forall id :: id in m ==> m[id] in DecodeEntries(data, PROPOSE_HDR_SIZE, n) && m[id].replicaId == id
    ensures forall e :: e in DecodeEntries(data, PROPOSE_HDR_SIZE, n) ==> e.replicaId in m && m[e.replicaId] == e
  {
    ghost var entries := DecodeEntries(data, PROPOSE_HDR_SIZE, n);
    m := map[];
    for i := 0 to n
      invariant forall id :: id in m ==> m[id] in entries && m[id].replicaId == id
      invariant forall k :: 0 <= k < i ==> entries[k].replicaId in m && m[entries[k].replicaId] == entries[k]
    {
      DecodeEntriesAt(data, PROPOSE_HDR_SIZE, n, i);
      var e := DecodeEntry(data, PROPOSE_HDR_SIZE + ENTRY_SIZE * i);
      assert e in entries;
      m := m[e.replicaId := e];
    }
  }

  /** No local certificate names a lower in-range replica. */
  method NoLowerCert(certs: seq<CertEntry>, leaderId: int32, expected: int) returns (ok: bool)
    ensures ok <==> forall c :: c in certs && InRange(c.replicaId, expected) ==> leaderId <= c.replicaId
  {
    for i := 0 to |certs|
      invariant forall k :: 0 <= k < i && InRange(certs[k].replicaId, expected) ==> leaderId <= certs[k].replicaId
    {
      if certs[i].replicaId >= 0 && certs[i].replicaId < expected && certs[i].replicaId < leaderId {
        assert certs[i] in certs;
        return false;
      }
    }
    ok := true;
  }

  /** Every ambulance in the proposal is signed and backed by a local certificate. */
  method CheckAmbulances(m: map<int32, VehicleEntry>, backed: set<int32>) returns (ok: bool)
    ensures ok <==> forall id :: id in m && m[id].isAmbulance != 0 ==> !IsQuietEntry(m[id]) && m[id].replicaId in backed
  {
    var todo := m.Keys;
    while todo != {}
      invariant todo <= m.Keys
      invariant forall id :: id in m && id !in todo && m[id].isAmbulance != 0 ==>
        !IsQuietEntry(m[id]) && m[id].replicaId in backed
      decreases todo
    {
      var id :| id in todo;
      var pe := m[id];
      if pe.isAmbulance != 0 && (pe.cyberStatus == 0 || pe.simTimeUs == UINT64_MAX || pe.replicaId !in backed) {
        return false;
      }
      todo := todo - {id};
    }
    ok := true;
  }

  /** Checks 9 and 10: count suppressed certificates, compare the fields of the others. */
  method CompareCerts(certs: seq<CertEntry>, m: map<int32, VehicleEntry>, ghost entries: seq<VehicleEntry>)
    returns (ok: bool, omitted: nat)
    requires forall id :: id in m ==> m[id] in entries && m[id].replicaId == id
    requires forall e :: e in entries ==> e.replicaId in m && m[e.replicaId] == e
    ensures ok <==> CertsMatch(certs, entries)
    ensures ok ==> omitted == Omitted(certs, entries)
  {
    omitted := 0;
    for i := 0 to |certs|
      invariant omitted == Omitted(certs[..i], entries)
      invariant CertsMatch(certs[..i], entries)
    {
      var ce := certs[i];
      assert certs[..i + 1][..i] == certs[..i] && certs[..i + 1] == certs[..i] + [ce];
      if ce.replicaId in m {
        var pe := m[ce.replicaId];
        if pe.cyberStatus == 0 || pe.simTimeUs == UINT64_MAX {
          assert MarkedQuiet(entries, ce.replicaId);
          omitted := omitted + 1;
        } else {
          assert !MarkedQuiet(entries, ce.replicaId);
          if !FieldsMatch(pe, ce) {
            assert ce in certs && pe in entries;
            return false, omitted;
          }
        }
      }
    }
    assert certs[..|certs|] == certs;
    ok := true;
  }

  method CheckCerts(certs: seq<CertEntry>, data: bytes, n: nat, leaderId: int32, rollback: bool, certPrimary: bool,
                    expected: int)
    returns (ok: bool)
    requires PROPOSE_HDR_SIZE + ENTRY_SIZE * n <= |data| && expected > 0
    requires DistinctIds(DecodeEntries(data, PROPOSE_HDR_SIZE, n))
    ensures ok <==>
      CertsAccept(certs, DecodeEntries(data, PROPOSE_HDR_SIZE, n), leaderId, rollback, certPrimary, expected)
  {
    ghost var entries := DecodeEntries(data, PROPOSE_HDR_SIZE, n);
    var proposalMap := ProposalMap(data, n);
    var f := (expected - 1) / 3;
    var backed: set<int32> := {};
    for i := 0 to |certs|
      invariant forall id :: id in backed <==> exists k :: 0 <= k < i && certs[k].replicaId == id
    {
      backed := backed + {certs[i].replicaId};
    }
    assert forall id :: id in backed <==> HoldsCert(certs, id);
    if !rollback && leaderId !in backed { return false; }
    if !rollback && certPrimary {
      var least := NoLowerCert(certs, leaderId, expected);
      if !least { return false; }
    }
    var ambulancesOk := CheckAmbulances(proposalMap, backed);
    assert ambulancesOk <==> AmbulancesCertified(certs, entries);
    if !ambulancesOk { return false; }
    var matched, omitted := CompareCerts(certs, proposalMap, entries);
    if !matched { return false; }
    ok := omitted <= f;
  }

  // ----- signer list of a cancel certificate

  /** The part of a field before its first colon. */
  method SignerOf(part: bytes) returns (signer: Option<bytes>)
    ensures signer.Some? <==> COLON in part
    ensures signer.Some? ==> signer.value + [COLON] <= part && COLON !in signer.value
  {
    for i := 0 to |part|
      invariant COLON !in part[..i]
    {
      if part[i] == COLON { return Some(part[..i]); }
    }
    signer := None;
  }

  /** Check 13. */
  method CheckCancel(c: CancelHdr, raw: bytes, leaderId: int32, electors: seq<int32>) returns (ok: bool)
    requires CANCEL_HDR_SIZE + c.justificationLen <= |raw|
    ensures ok <==> CancelJustified(c, raw[CANCEL_HDR_SIZE..CANCEL_HDR_SIZE + c.justificationLen], leaderId, electors)
  {
    if c.reason > 1 || c.justificationLen == 0 { return false; }
    var just := raw[CANCEL_HDR_SIZE..CANCEL_HDR_SIZE + c.justificationLen];
    if !(CANCEL_TAG <= just) { return false; }
    var signers := CollectSigners(just);
    ok := signers != {} && leaderId >= 0 && electors != [];
  }

  /** Reading on from `pos`, where field number `idx` starts, a signer is found. */
  predicate SignerAhead(just: bytes, pos: nat, idx: nat)
    decreases |just| - pos
  {
    pos < |just| &&
    ((idx >= 4 && COLON in just[pos..NextBar(just, pos)]) || SignerAhead(just, NextBar(just, pos) + 1, idx + 1))
  }

  lemma {:induction false} SignerAheadMeans(just: bytes, pos: nat, idx: nat)
    ensures SignerAhead(just, pos, idx) <==>
      exists i :: 0 <= i < |Fields(just, pos)| && i + idx >= 4 && COLON in Fields(just, pos)[i]
    decreases |just| - pos
  {
    if pos < |just| {
      var next := NextBar(just, pos) + 1;
      SignerAheadMeans(just, next, idx + 1);
      var fs, rest := Fields(just, pos), Fields(just, next);
      assert fs == [just[pos..next - 1]] + rest;
      if idx >= 4 && COLON in fs[0] {
        assert COLON in fs[0];
      } else if SignerAhead(just, next, idx + 1) {
        var i :| 0 <= i < |rest| && i + idx + 1 >= 4 && COLON in rest[i];
        assert fs[i + 1] == rest[i];
      } else {
        forall i | 0 <= i < |fs| && i + idx >= 4 ensures COLON !in fs[i] {
          assert i > 0 ==> fs[i] == rest[i - 1];
        }
      }
    }
  }

  lemma {:induction false} NextBarMeans(s: bytes, pos: nat)
    requires pos <= |s|
    ensures forall p :: pos <= p < NextBar(s, pos) ==> s[p] != 124
    ensures NextBar(s, pos) < |s| ==> s[NextBar(s, pos)] == 124
    decreases |s| - pos
  {
    if pos < |s| && s[pos] != 124 { NextBarMeans(s, pos + 1); }
  }

  /** The bars of a stretch, counted behind its first one. */
  lemma BarsBehind(s: bytes, pos: nat, next: nat, p: nat)
    requires pos <= next < p <= |s| && s[next] == 124 && forall k :: pos <= k < next ==> s[k] != 124
    ensures multiset(s[pos..p])[124] == 1 + multiset(s[next + 1..p])[124]
  {
    assert s[pos..p] == s[pos..next] + [s[next]] + s[next + 1..p];
    assert 124 !in s[pos..next];
  }

  /** A colon with at least `4 - idx` bars between `pos` and itself. */
  ghost predicate ColonBehindBars(s: bytes, pos: nat, idx: nat, p: nat) {
    pos <= p < |s| && s[p] == 58 && idx + multiset(s[pos..p])[124] >= 4
  }

  lemma {:induction false} SignerBehindBars(just: bytes, pos: nat, idx: nat)
    requires SignerAhead(just, pos, idx)
    ensures exists p :: ColonBehindBars(just, pos, idx, p)
    decreases |just| - pos
  {
    var end := NextBar(just, pos);
    NextBarMeans(just, pos);
    if COLON in just[pos..end] && idx >= 4 {
      var p :| pos <= p < end && just[p] == COLON;
      assert ColonBehindBars(just, pos, idx, p);
    } else {
      SignerBehindBars(just, end + 1, idx + 1);
      var p :| ColonBehindBars(just, end + 1, idx + 1, p);
      BarsBehind(just, pos, end, p);
      assert ColonBehindBars(just, pos, idx, p);
    }
  }

  lemma {:induction false} BarsBeforeSigner(just: bytes, pos: nat, idx: nat, p: nat)
    requires ColonBehindBars(just, pos, idx, p)
    ensures SignerAhead(just, pos, idx)
    decreases |just| - pos
  {
    var end := NextBar(just, pos);
    NextBarMeans(just, pos);
    InNoField(just, pos, idx, end, p);
    if !(idx >= 4 && COLON in just[pos..end]) { BarsBeforeSigner(just, end + 1, idx + 1, p); }
  }

  lemma InNoField(just: bytes, pos: nat, idx: nat, end: nat, p: nat)
    requires pos <= end <= |just| && ColonBehindBars(just, pos, idx, p)
    requires (end < |just| ==> just[end] == 124) && forall k :: pos <= k < end ==> just[k] != 124
    ensures (idx >= 4 && COLON in just[pos..end]) || ColonBehindBars(just, end + 1, idx + 1, p)
  {
    if p < end {
      assert 124 !in just[pos..p] && just[pos..end][p - pos] == 58;
    } else if p > end {
      BarsBehind(just, pos, end, p);
    }
  }

  /** A certificate names a signer exactly if some colon stands behind at least four bars. */
  lemma NamesSignerMeans(just: bytes)
    ensures NamesSigner(Fields(just, 0)) <==>
      exists p :: 0 <= p < |just| && just[p] == 58 && multiset(just[..p])[124] >= 4
  {
    SignerFound(just);
    if SignerAhead(just, 0, 0) {
      SignerBehindBars(just, 0, 0);
      var p: nat :| ColonBehindBars(just, 0, 0, p);
      FromStart(just, p);
    }
    if p: nat :| p < |just| && just[p] == 58 && multiset(just[..p])[124] >= 4 {
      FromStart(just, p);
      BarsBeforeSigner(just, 0, 0, p);
    }
  }

  lemma SignerFound(just: bytes)
    ensures NamesSigner(Fields(just, 0)) <==> SignerAhead(just, 0, 0)
  {
    SignerAheadMeans(just, 0, 0);
  }

  lemma FromStart(just: bytes, p: nat)
    requires p < |just|
    ensures ColonBehindBars(just, 0, 0, p) <==> just[p] == 58 && multiset(just[..p])[124] >= 4
  {
    assert just[0..p] == just[..p];
  }

  method CollectSigners(just: bytes) returns (signers: set<bytes>)
    ensures signers != {} <==> NamesSigner(Fields(just, 0))
  {
    signers := {};
    var pos, idx := 0, 0;
    while pos < |just|
      invariant SignerAhead(just, 0, 0) <==> signers != {} || SignerAhead(just, pos, idx)
    {
      var end := NextBar(just, pos);
      var signer := SignerOf(just[pos..end]);
      if idx >= 4 && signer.Some? { signers := signers + {signer.value}; }
      idx := idx + 1;
      pos := end + 1;
    }
    SignerAheadMeans(just, 0, 0);
  }
}
