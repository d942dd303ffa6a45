/** The four builders of forced-view candidates. */
module ViewBuilders {
  import opened BridgeTypes
  import opened Sorting
  import opened Quorum
  import opened WireFormat
  import opened ProposalParser
  import opened ForcedViews

  /** Tolerated-fault configuration. */
  datatype FaultMode = FaultMode(enabled: bool, toleratedF: int, rollbackPerEpoch: bool)

  /** The request that carries a proposal. */
  datatype RequestMeta = RequestMeta(senderId: int64, seqNo: uint64, hash: string)

  /** ResilientDB ids count from 1, vehicle ids from 0; the cast keeps the low 32 bits. */
  function OmnetReplica(resdbId: int64): int32 {
    if resdbId <= 0 then -1 else AsSigned((resdbId - 1) % 0x1_0000_0000)
  }

  predicate SenderIsLeader(req: Option<RequestMeta>, leaderId: int32) {
    req.Some? ==> OmnetReplica(req.value.senderId) < 0 || OmnetReplica(req.value.senderId) == leaderId
  }

  function RollbackFaultsForMembership(configuredF: int, memberCount: int): int {
    if memberCount <= 0 then -1
    else
      var maxF := (memberCount - 1) / 3;
      if configuredF >= 0 then (if configuredF < maxF then configuredF else maxF) else maxF
  }

  predicate IsVoter(e: VehicleEntry) {
    e.cyberStatus == 1 && e.simTimeUs != UINT64_MAX
  }

  /** Ids of the entries, or of the voters among them, in payload order. */
  function MemberIds(entries: seq<VehicleEntry>, votersOnly: bool): seq<int> {
    if entries == [] then []
    else
      var n := |entries| - 1;
      MemberIds(entries[..n], votersOnly) +
      (if votersOnly && !IsVoter(entries[n]) then [] else [entries[n].replicaId as int])
  }

  predicate InRange(id: int, expected: int) {
    0 <= id < expected
  }

  function MakeCandidate(epoch: uint32, req: Option<RequestMeta>, leaderId: int32, members: seq<int>,
                         fOverride: bool, f: int): ForcedView
  {
    ForcedView(epoch, if req.Some? then req.value.seqNo else 0, if req.Some? then req.value.hash else "",
               leaderId, members, fOverride, f, 1)
  }

  // ----- when each builder succeeds, and with what

  ghost predicate CancelViewAdmissible(leaderId: int32, electors: seq<int32>, expected: int, faults: FaultMode,
                                       req: Option<RequestMeta>)
  {
    && faults.enabled && faults.toleratedF >= 0
    && NoRepeats(electors) && (forall r :: r in electors ==> InRange(r, expected))
    && leaderId in electors
    && |electors| >= 3 * faults.toleratedF + 1
    && SenderIsLeader(req, leaderId)
  }

  function AsInts(s: seq<int32>): (r: seq<int>)
    ensures |r| == |s| && forall i :: 0 <= i < |s| ==> r[i] == s[i]
  {
    seq(|s|, i requires 0 <= i < |s| => s[i] as int)
  }

  ghost function CancelView(c: CancelHdr, leaderId: int32, electors: seq<int32>, expected: int, faults: FaultMode,
                            req: Option<RequestMeta>): Option<ForcedView>
  {
    if CancelViewAdmissible(leaderId, electors, expected, faults, req)
    then Some(MakeCandidate(c.cancelledEpoch, req, leaderId, SortInts(AsInts(electors)), true, faults.toleratedF))
    else None
  }

  /** Common to the three ORDER builders: a sane count, all ids in range, no member
      twice, and the leader a member. */
  ghost predicate MembershipAdmissible(hdr: ProposeHdr, entries: seq<VehicleEntry>, votersOnly: bool, expected: int,
                                       req: Option<RequestMeta>)
  {
    && 0 < hdr.nVehicles <= expected
    && (forall e :: e in entries ==> InRange(e.replicaId, expected))
    && NoRepeats(MemberIds(entries, votersOnly))
    && hdr.leaderId as int in MemberIds(entries, votersOnly)
    && SenderIsLeader(req, hdr.leaderId)
  }

  /** The rollback builder, which in per-epoch mode leaves `f` to the registry and wants four voters. */
  ghost function RollbackView(hdr: ProposeHdr, entries: seq<VehicleEntry>, expected: int, faults: FaultMode,
                              req: Option<RequestMeta>): Option<ForcedView>
  {
    var voters := MemberIds(entries, true);
    var least := if faults.rollbackPerEpoch then 4 else 3 * faults.toleratedF + 1;
    if faults.enabled && faults.toleratedF >= 0 && MembershipAdmissible(hdr, entries, true, expected, req)
      && |voters| >= least
    then Some(MakeCandidate(hdr.epoch, req, hdr.leaderId, SortInts(voters), !faults.rollbackPerEpoch,
                            if faults.rollbackPerEpoch then 0 else faults.toleratedF))
    else None
  }

  /** The epoch-0 builder: every entry is a member, and `f` must fit. */
  ghost function ToleratedFaultView(hdr: ProposeHdr, entries: seq<VehicleEntry>, expected: int, faults: FaultMode,
                                    req: Option<RequestMeta>): Option<ForcedView>
  {
    var members := MemberIds(entries, false);
    if faults.enabled && faults.toleratedF >= 0 && MembershipAdmissible(hdr, entries, false, expected, req)
       && faults.toleratedF <= (|members| - 1) / 3
    then Some(MakeCandidate(hdr.epoch, req, hdr.leaderId, SortInts(members), true, faults.toleratedF))
    else None
  }

  /** The builder for ordinary orders. */
  ghost function EpochOrderView(hdr: ProposeHdr, entries: seq<VehicleEntry>, expected: int, faults: FaultMode,
                                req: Option<RequestMeta>): Option<ForcedView>
  {
    if hdr.epoch == 0 then ToleratedFaultView(hdr, entries, expected, faults, req)
    else
      var voters := MemberIds(entries, true);
      if faults.enabled && faults.toleratedF >= 0 && MembershipAdmissible(hdr, entries, true, expected, req)
         && (faults.rollbackPerEpoch || |voters| >= 3 * faults.toleratedF + 1)
      then Some(MakeCandidate(hdr.epoch, req, hdr.leaderId, SortInts(voters), true,
                              if faults.rollbackPerEpoch then RollbackFaultsForMembership(faults.toleratedF, |voters|)
                              else faults.toleratedF))
      else None
  }

  // ----- sorting, adjacent_find, binary_search

  predicate AdjacentEqual(s: seq<int>) {
    exists i :: 0 <= i < |s| - 1 && s[i] == s[i + 1]
  }

  lemma SortedMembers(s: seq<int>)
    ensures |SortInts(s)| == |s| && forall x :: x in SortInts(s) <==> x in s
    ensures AdjacentEqual(SortInts(s)) <==> !NoRepeats(s)
    ensures NoRepeats(s) ==> StrictlySorted(SortInts(s))
  {
    var m := SortInts(s);
    IntLEIsOrder();
    SortIsSortedPermutation(s, IntLE);
    SameElements(m, s);
    assert forall i, j :: 0 <= i < j < |m| ==> m[i] <= m[j] by {
      forall i, j | 0 <= i < j < |m| ensures m[i] <= m[j] {
        assert IntLE(m[i], m[j]);
      }
    }
    if NoRepeats(s) { PermutationNoRepeats(s, m); }
    if !AdjacentEqual(m) {
      forall i, j | 0 <= i < j < |m| ensures m[i] != m[j] {
        assert m[i] < m[i + 1] <= m[j];
      }
      PermutationNoRepeats(m, s);
    }
  }

  // ----- the builders

  /** The loops that read the members out of the payload, giving up on an id out of range. */
  method CollectMembers(data: bytes, n: nat, votersOnly: bool, expected: int) returns (ok: bool, ids: seq<int>)
    requires PROPOSE_HDR_SIZE + ENTRY_SIZE * n <= |data|
    ensures var entries := DecodeEntries(data, PROPOSE_HDR_SIZE, n);
      && (ok <==> forall e :: e in entries ==> InRange(e.replicaId, expected))
      && (ok ==> ids == MemberIds(entries, votersOnly))
  {
    ghost var entries := DecodeEntries(data, PROPOSE_HDR_SIZE, n);
    ids := [];
    for i := 0 to n
      invariant ids == MemberIds(entries[..i], votersOnly)
      invariant forall k :: 0 <= k < i ==> InRange(entries[k].replicaId, expected)
    {
      DecodeEntriesAt(data, PROPOSE_HDR_SIZE, n, i);
      var e := DecodeEntry(data, PROPOSE_HDR_SIZE + ENTRY_SIZE * i);
      assert e in entries && entries[..i + 1][..i] == entries[..i];
      if !InRange(e.replicaId, expected) { return false, []; }
      if !votersOnly || IsVoter(e) { ids := ids + [e.replicaId as int]; }
    }
    assert entries[..n] == entries;
    ok := true;
  }

  method BuildCancelViewCandidate(c: CancelHdr, leaderId: int32, electors: seq<int32>, expected: int, faults: FaultMode,
                                  req: Option<RequestMeta>)
    returns (out: Option<ForcedView>)
    ensures out == CancelView(c, leaderId, electors, expected, faults, req)
  {
    if !faults.enabled || faults.toleratedF < 0 { return None; }
    if leaderId < 0 || leaderId >= expected {
      assert leaderId in electors ==> !InRange(leaderId, expected);
      return None;
    }
    if electors == [] { return None; }
    SortedMembers(AsInts(electors));
    ElectorsAsInts(electors);
    var members := SortInts(AsInts(electors));
    if AdjacentEqual(members) { return None; }
    for i := 0 to |members|
      invariant forall k :: 0 <= k < i ==> InRange(members[k], expected)
    {
      if members[i] < 0 || members[i] >= expected {
        assert members[i] in AsInts(electors);
        return None;
      }
    }
    assert forall r :: r in electors ==> InRange(r, expected) by {
      forall r | r in electors ensures InRange(r, expected) {
        assert r as int in members;
      }
    }
    if !(leaderId as int in members) { return None; }
    if |members| < 3 * faults.toleratedF + 1 { return None; }
    if BftQuorumSize(|members|, faults.toleratedF).None? { return None; }
    if !SenderIsLeader(req, leaderId) { return None; }
    return Some(MakeCandidate(c.cancelledEpoch, req, leaderId, members, true, faults.toleratedF));
  }

  lemma ElectorsAsInts(electors: seq<int32>)
    ensures NoRepeats(AsInts(electors)) <==> NoRepeats(electors)
    ensures forall r: int32 :: r in electors <==> r as int in AsInts(electors)
    ensures forall x :: x in AsInts(electors) ==> exists r: int32 :: r in electors && r as int == x
  {
    var s := AsInts(electors);
    forall r: int32 ensures r in electors <==> r as int in s {
      if r in electors {
        var i :| 0 <= i < |electors| && electors[i] == r;
        assert s[i] == r;
      }
    }
    forall x | x in s ensures exists r: int32 :: r in electors && r as int == x {
      var i :| 0 <= i < |s| && s[i] == x;
      assert electors[i] in electors && electors[i] as int == x;
    }
  }

  method BuildForcedViewCandidate(data: bytes, hdr: ProposeHdr, expected: int, faults: FaultMode,
                                  req: Option<RequestMeta>)
    returns (out: Option<ForcedView>)
    requires PROPOSE_HDR_SIZE + ENTRY_SIZE * hdr.nVehicles <= |data|
    ensures out == RollbackView(hdr, DecodeEntries(data, PROPOSE_HDR_SIZE, hdr.nVehicles), expected, faults, req)
  {
    ghost var entries := DecodeEntries(data, PROPOSE_HDR_SIZE, hdr.nVehicles);
    if !faults.enabled || faults.toleratedF < 0 { return None; }
    if hdr.nVehicles == 0 || hdr.nVehicles > expected { return None; }
    if hdr.leaderId < 0 || hdr.leaderId >= expected {
      LeaderNotMember(hdr.leaderId, entries, true, expected);
      return None;
    }
    var ok, voters := CollectMembers(data, hdr.nVehicles, true, expected);
    if !ok { return None; }
    SortedMembers(voters);
    var members := SortInts(voters);
    if AdjacentEqual(members) { return None; }
    if |members| == 0 { return None; }
    if !(hdr.leaderId as int in members) { return None; }
    if faults.rollbackPerEpoch {
      if |members| < 4 { return None; }
      if BftQuorumSize(|members|, RollbackFaultsForMembership(faults.toleratedF, |members|)).None? { return None; }
    } else {
      if |members| < 3 * faults.toleratedF + 1 { return None; }
      if BftQuorumSize(|members|, faults.toleratedF).None? { return None; }
    }
    if !SenderIsLeader(req, hdr.leaderId) { return None; }
    if faults.rollbackPerEpoch {
      return Some(MakeCandidate(hdr.epoch, req, hdr.leaderId, members, false, 0));
    } else {
      return Some(MakeCandidate(hdr.epoch, req, hdr.leaderId, members, true, faults.toleratedF));
    }
  }

  lemma {:induction false} MemberIdsElements(entries: seq<VehicleEntry>, votersOnly: bool)
    ensures forall x :: x in MemberIds(entries, votersOnly) <==>
      exists e :: e in entries && e.replicaId as int == x && (votersOnly ==> IsVoter(e))
  {
    if entries != [] {
      var n := |entries| - 1;
      MemberIdsElements(entries[..n], votersOnly);
      assert entries == entries[..n] + [entries[n]];
      assert entries[n] in entries;
      assert forall e :: e in entries[..n] ==> e in entries;
    }
  }

  /** An out-of-range leader is no member of an in-range membership. */
  lemma LeaderNotMember(leaderId: int32, entries: seq<VehicleEntry>, votersOnly: bool, expected: int)
    requires !InRange(leaderId, expected)
    ensures leaderId as int in MemberIds(entries, votersOnly) ==>
      exists e :: e in entries && !InRange(e.replicaId, expected)
  {
    MemberIdsElements(entries, votersOnly);
  }

  method BuildToleratedFaultViewCandidate(data: bytes, hdr: ProposeHdr, expected: int, faults: FaultMode,
                                          req: Option<RequestMeta>)
    returns (out: Option<ForcedView>)
    requires PROPOSE_HDR_SIZE + ENTRY_SIZE * hdr.nVehicles <= |data|
    ensures out == ToleratedFaultView(hdr, DecodeEntries(data, PROPOSE_HDR_SIZE, hdr.nVehicles), expected, faults, req)
  {
    ghost var entries := DecodeEntries(data, PROPOSE_HDR_SIZE, hdr.nVehicles);
    if !faults.enabled || faults.toleratedF < 0 { return None; }
    if hdr.leaderId < 0 || hdr.leaderId >= expected {
      LeaderNotMember(hdr.leaderId, entries, false, expected);
      return None;
    }
    if expected <= 0 || hdr.nVehicles == 0 || hdr.nVehicles > expected { return None; }
    var ok, ids := CollectMembers(data, hdr.nVehicles, false, expected);
    if !ok { return None; }
    SortedMembers(ids);
    var members := SortInts(ids);
    if AdjacentEqual(members) { return None; }
    if !(hdr.leaderId as int in members) { return None; }
    if faults.toleratedF > (|members| - 1) / 3 { return None; }
    if !SenderIsLeader(req, hdr.leaderId) { return None; }
    return Some(MakeCandidate(hdr.epoch, req, hdr.leaderId, members, true, faults.toleratedF));
  }

  method BuildEpochOrderViewCandidate(data: bytes, hdr: ProposeHdr, expected: int, faults: FaultMode,
                                      req: Option<RequestMeta>)
    returns (out: Option<ForcedView>)
    requires PROPOSE_HDR_SIZE + ENTRY_SIZE * hdr.nVehicles <= |data|
    ensures out == EpochOrderView(hdr, DecodeEntries(data, PROPOSE_HDR_SIZE, hdr.nVehicles), expected, faults, req)
  {
    ghost var entries := DecodeEntries(data, PROPOSE_HDR_SIZE, hdr.nVehicles);
    if !faults.enabled || faults.toleratedF < 0 { return None; }
    if hdr.epoch == 0 {
      out := BuildToleratedFaultViewCandidate(data, hdr, expected, faults, req);
      return;
    }
    if hdr.leaderId < 0 || hdr.leaderId >= expected {
      LeaderNotMember(hdr.leaderId, entries, true, expected);
      return None;
    }
    if expected <= 0 || hdr.nVehicles == 0 || hdr.nVehicles > expected { return None; }
    var ok, voters := CollectMembers(data, hdr.nVehicles, true, expected);
    if !ok { return None; }
    SortedMembers(voters);
    var members := SortInts(voters);
    if AdjacentEqual(members) { return None; }
    if |members| == 0 { return None; }
    if !(hdr.leaderId as int in members) { return None; }
    var f := -1;
    if faults.rollbackPerEpoch {
      f := RollbackFaultsForMembership(faults.toleratedF, |members|);
      if f < 0 { return None; }
      if BftQuorumSize(|members|, f).None? { return None; }
    } else {
      if |members| < 3 * faults.toleratedF + 1 { return None; }
      if BftQuorumSize(|members|, faults.toleratedF).None? { return None; }
      f := faults.toleratedF;
    }
    if !SenderIsLeader(req, hdr.leaderId) { return None; }
    return Some(MakeCandidate(hdr.epoch, req, hdr.leaderId, members, true, f));
  }

  // ----- every builder's output is a candidate the registry accepts without throwing

  /** The members of an admissible proposal, sorted. */
  lemma AdmissibleMembers(hdr: ProposeHdr, entries: seq<VehicleEntry>, votersOnly: bool, expected: int,
                          req: Option<RequestMeta>)
    requires MembershipAdmissible(hdr, entries, votersOnly, expected, req)
    ensures var members := SortInts(MemberIds(entries, votersOnly));
      && |members| == |MemberIds(entries, votersOnly)| > 0 && StrictlySorted(members)
      && hdr.leaderId as int in members && forall m :: m in members ==> InRange(m, expected)
  {
    SortedMembers(MemberIds(entries, votersOnly));
    MemberIdsElements(entries, votersOnly);
  }

  lemma ToleratedFaultGivesCandidates(hdr: ProposeHdr, entries: seq<VehicleEntry>, expected: int, faults: FaultMode,
                                      req: Option<RequestMeta>)
    ensures var v := ToleratedFaultView(hdr, entries, expected, faults, req);
      v.Some? ==> Candidate(v.value, expected)
  {
    if MembershipAdmissible(hdr, entries, false, expected, req) {
      AdmissibleMembers(hdr, entries, false, expected, req);
    }
  }

  lemma RollbackGivesCandidates(hdr: ProposeHdr, entries: seq<VehicleEntry>, expected: int, faults: FaultMode,
                                req: Option<RequestMeta>)
    ensures var v := RollbackView(hdr, entries, expected, faults, req); v.Some? ==> Candidate(v.value, expected)
  {
    if MembershipAdmissible(hdr, entries, true, expected, req) {
      AdmissibleMembers(hdr, entries, true, expected, req);
    }
  }

  lemma OrderBuildersGiveCandidates(hdr: ProposeHdr, entries: seq<VehicleEntry>, expected: int, faults: FaultMode,
                                    req: Option<RequestMeta>)
    ensures var v := EpochOrderView(hdr, entries, expected, faults, req); v.Some? ==> Candidate(v.value, expected)
    ensures var v := RollbackView(hdr, entries, expected, faults, req); v.Some? ==> Candidate(v.value, expected)
  {
    RollbackGivesCandidates(hdr, entries, expected, faults, req);
    if hdr.epoch == 0 {
      ToleratedFaultGivesCandidates(hdr, entries, expected, faults, req);
    } else if MembershipAdmissible(hdr, entries, true, expected, req) {
      AdmissibleMembers(hdr, entries, true, expected, req);
    }
  }

  lemma CancelBuilderGivesCandidates(c: CancelHdr, leaderId: int32, electors: seq<int32>, expected: int,
                                     faults: FaultMode, req: Option<RequestMeta>)
    ensures var v := CancelView(c, leaderId, electors, expected, faults, req); v.Some? ==> Candidate(v.value, expected)
  {
    SortedMembers(AsInts(electors));
    ElectorsAsInts(electors);
  }

  lemma DefaultFaults(v: ForcedView)
    requires StrictlySorted(v.members) && v.members != [] && !v.fOverride
    ensures Normalize(v).Some? && Normalize(v).value.f == (|v.members| - 1) / 3
  {
    SortKeeps(v.members);
    UniqueKeeps(v.members);
  }

  lemma BoundBites(f: int, n: int)
    requires n > 0 && f >= 0
    ensures (n - 1) / 3 == RollbackFaultsForMembership(f, n) <==> f >= (n - 1) / 3
  {
  }

  lemma PerEpochView(hdr: ProposeHdr, entries: seq<VehicleEntry>, expected: int, faults: FaultMode,
                     req: Option<RequestMeta>)
    requires faults.rollbackPerEpoch && RollbackView(hdr, entries, expected, faults, req).Some?
    ensures faults.toleratedF >= 0 && !RollbackView(hdr, entries, expected, faults, req).value.fOverride
  {
  }

  /** The per-epoch rollback builder computes a bounded `f` but does not put it in the view:
      the registry installs the largest `f` the voters support, and the two agree exactly
      when the configured bound does not bite. */
  lemma RollbackFaultsInstalled(hdr: ProposeHdr, entries: seq<VehicleEntry>, expected: int, faults: FaultMode,
                                req: Option<RequestMeta>)
    requires faults.rollbackPerEpoch && RollbackView(hdr, entries, expected, faults, req).Some?
    ensures var v := RollbackView(hdr, entries, expected, faults, req).value;
      var n := |v.members|;
      && Normalize(v).Some? && Normalize(v).value.f == (n - 1) / 3
      && (Normalize(v).value.f == RollbackFaultsForMembership(faults.toleratedF, n)
        <==> faults.toleratedF >= (n - 1) / 3)
  {
    OrderBuildersGiveCandidates(hdr, entries, expected, faults, req);
    PerEpochView(hdr, entries, expected, faults, req);
    var v := RollbackView(hdr, entries, expected, faults, req).value;
    DefaultFaults(v);
    BoundBites(faults.toleratedF, |v.members|);
  }

  /** No builder rejects a membership for which the quorum computation would throw: the
      size checks before it already rule that out. */
  lemma QuorumNeverThrows(f: int, n: int)
    requires n > 0 && f >= 0
    ensures n >= 3 * f + 1 <==> BftQuorumSize(n, f).Some?
    ensures BftQuorumSize(n, RollbackFaultsForMembership(f, n)).Some?
  {
  }
}
