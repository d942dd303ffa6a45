/** Which memberships the four view builders accept and what they put into the view, in terms of
    the proposal's fields and the request's sender. */
module MembershipTheorems {
  import opened BridgeTypes
  import opened Sorting
  import opened ProposalParser
  import opened ForcedViews
  import opened ViewBuilders
  import opened BatchPacker

  // ----- the sender

  /** The check passes over senders without a replica id, and otherwise wants the leader's own. */
  lemma SenderMeans(meta: RequestMeta, leaderId: int32)
    requires leaderId >= 0
    ensures SenderIsLeader(Some(meta), leaderId) <==>
      meta.senderId <= 0 || (meta.senderId - 1) % 0x1_0000_0000 >= 0x8000_0000
      || (meta.senderId - 1) % 0x1_0000_0000 == leaderId
    ensures SenderIsLeader(None, leaderId)
  {
  }

  // ----- members

  /** A voter is signed; of entries whose status is known, exactly those that are not QUIET vote. */
  lemma VoterMeans(e: VehicleEntry)
    ensures IsVoter(e) <==> e.cyberStatus == 1 && e.simTimeUs != 0xFFFF_FFFF_FFFF_FFFF
    ensures e.cyberStatus <= 1 ==> (IsVoter(e) <==> !IsQuietEntry(e))
  {
  }

  ghost predicate MemberAt(entries: seq<VehicleEntry>, votersOnly: bool, i: nat) {
    i < |entries| && (votersOnly ==> IsVoter(entries[i]))
  }

  ghost predicate DistinctMembers(entries: seq<VehicleEntry>, votersOnly: bool) {
    forall i, j :: 0 <= i < j && MemberAt(entries, votersOnly, i) && MemberAt(entries, votersOnly, j) ==>
      entries[i].replicaId != entries[j].replicaId
  }

  /** The ids listed before place `n`. */
  lemma EarlierMember(entries: seq<VehicleEntry>, votersOnly: bool, n: nat, id: int32)
    requires n <= |entries|
    ensures id as int in MemberIds(entries[..n], votersOnly) <==>
      exists i: nat :: i < n && MemberAt(entries, votersOnly, i) && entries[i].replicaId == id
  {
    var t := entries[..n];
    MemberIdsElements(t, votersOnly);
    if e :| e in t && e.replicaId == id && (votersOnly ==> IsVoter(e)) {
      var i: nat :| i < n && t[i] == e;
      assert MemberAt(entries, votersOnly, i);
    }
    if i: nat :| i < n && MemberAt(entries, votersOnly, i) && entries[i].replicaId == id {
      assert t[i] in t;
    }
  }

  lemma DistinctMembersPush(entries: seq<VehicleEntry>, votersOnly: bool, n: nat)
    requires |entries| == n + 1
    ensures DistinctMembers(entries, votersOnly) <==> (DistinctMembers(entries[..n], votersOnly)
      && (MemberAt(entries, votersOnly, n) ==> entries[n].replicaId as int !in MemberIds(entries[..n], votersOnly)))
  {
    EarlierMember(entries, votersOnly, n, entries[n].replicaId);
    var t := entries[..n];
    assert forall i: nat :: i < n ==> t[i] == entries[i];
    assert forall i: nat :: i < n ==> MemberAt(t, votersOnly, i) == MemberAt(entries, votersOnly, i);
  }

  lemma {:induction false} MembersDistinct(entries: seq<VehicleEntry>, votersOnly: bool)
    ensures NoRepeats(MemberIds(entries, votersOnly)) <==> DistinctMembers(entries, votersOnly)
  {
    if entries != [] {
      var n := |entries| - 1;
      MembersDistinct(entries[..n], votersOnly);
      DistinctMembersPush(entries, votersOnly, n);
      NoRepeatsPush(MemberIds(entries[..n], votersOnly), entries[n].replicaId as int);
      MemberIdsStep(entries, votersOnly);
    }
  }

  lemma MemberIdsStep(entries: seq<VehicleEntry>, votersOnly: bool)
    requires entries != []
    ensures var n := |entries| - 1;
      MemberIds(entries, votersOnly)
        == if MemberAt(entries, votersOnly, n) then MemberIds(entries[..n], votersOnly) + [entries[n].replicaId as int]
           else MemberIds(entries[..n], votersOnly)
  {
  }

  lemma NoRepeatsPush(s: seq<int>, x: int)
    ensures NoRepeats(s + [x]) <==> NoRepeats(s) && x !in s
  {
    var t := s + [x];
    assert forall i :: 0 <= i < |s| ==> t[i] == s[i];
    if NoRepeats(t) {
      forall i | 0 <= i < |s| ensures s[i] != x {
        assert t[i] != t[|s|];
      }
    }
  }

  /** The ids of the entries, or of the voters among them. */
  ghost function MemberIdSet(entries: seq<VehicleEntry>, votersOnly: bool): set<int32> {
    set e | e in entries && (votersOnly ==> IsVoter(e)) :: e.replicaId
  }

  lemma MemberIdSetStep(entries: seq<VehicleEntry>, votersOnly: bool, n: nat)
    requires |entries| == n + 1
    ensures MemberIdSet(entries, votersOnly)
      == if MemberAt(entries, votersOnly, n) then MemberIdSet(entries[..n], votersOnly) + {entries[n].replicaId}
         else MemberIdSet(entries[..n], votersOnly)
  {
    assert entries == entries[..n] + [entries[n]];
    assert forall e :: e in entries <==> e in entries[..n] || e == entries[n];
  }

  lemma {:induction false} MembersCounted(entries: seq<VehicleEntry>, votersOnly: bool)
    requires NoRepeats(MemberIds(entries, votersOnly))
    ensures |MemberIds(entries, votersOnly)| == |MemberIdSet(entries, votersOnly)|
  {
    if entries != [] {
      var n := |entries| - 1;
      var id := entries[n].replicaId;
      MemberIdsStep(entries, votersOnly);
      MemberIdSetStep(entries, votersOnly, n);
      NoRepeatsPush(MemberIds(entries[..n], votersOnly), id);
      MembersCounted(entries[..n], votersOnly);
      NotYetListed(entries[..n], votersOnly, id);
    }
  }

  lemma NotYetListed(entries: seq<VehicleEntry>, votersOnly: bool, id: int32)
    ensures id in MemberIdSet(entries, votersOnly) <==> id as int in MemberIds(entries, votersOnly)
  {
    MemberIdsElements(entries, votersOnly);
  }

  // ----- the order builders

  /** What the order builders demand of the membership: a sane count, all ids in range, no member
      listed twice, and a leader that is a member and, as far as the sender is known, the sender. */
  lemma MembershipIff(hdr: ProposeHdr, entries: seq<VehicleEntry>, votersOnly: bool, expected: int, meta: RequestMeta)
    ensures MembershipAdmissible(hdr, entries, votersOnly, expected, Some(meta)) <==>
      && 0 < hdr.nVehicles <= expected
      && (forall e :: e in entries ==> 0 <= e.replicaId < expected)
      && (forall i, j :: 0 <= i < j < |entries| && (votersOnly ==> IsVoter(entries[i]) && IsVoter(entries[j])) ==>
            entries[i].replicaId != entries[j].replicaId)
      && (exists e :: e in entries && (votersOnly ==> IsVoter(e)) && e.replicaId == hdr.leaderId)
      && (meta.senderId <= 0 || (meta.senderId - 1) % 0x1_0000_0000 >= 0x8000_0000
          || (meta.senderId - 1) % 0x1_0000_0000 == hdr.leaderId)
  {
    MembersDistinct(entries, votersOnly);
    DistinctMeans(entries, votersOnly);
    MemberIdsElements(entries, votersOnly);
    if hdr.leaderId >= 0 { SenderMeans(meta, hdr.leaderId); }
    if e :| e in entries && (votersOnly ==> IsVoter(e)) && e.replicaId == hdr.leaderId {
      assert hdr.leaderId as int in MemberIds(entries, votersOnly);
    }
  }

  lemma DistinctMeans(entries: seq<VehicleEntry>, votersOnly: bool)
    ensures DistinctMembers(entries, votersOnly) <==>
      forall i, j :: 0 <= i < j < |entries| && (votersOnly ==> IsVoter(entries[i]) && IsVoter(entries[j])) ==>
        entries[i].replicaId != entries[j].replicaId
  {
    forall i: nat ensures MemberAt(entries, votersOnly, i) <==> i < |entries| && (votersOnly ==> IsVoter(entries[i])) {}
  }

  /** The members of a view: each listed once, in increasing order. */
  lemma SortedMemberIds(entries: seq<VehicleEntry>, votersOnly: bool)
    requires NoRepeats(MemberIds(entries, votersOnly))
    ensures var members := SortInts(MemberIds(entries, votersOnly));
      && |members| == |MemberIds(entries, votersOnly)| == |MemberIdSet(entries, votersOnly)|
      && (forall i, j :: 0 <= i < j < |members| ==> members[i] < members[j])
      && (forall m :: m in members <==>
            exists e :: e in entries && (votersOnly ==> IsVoter(e)) && e.replicaId as int == m)
  {
    SortedMembers(MemberIds(entries, votersOnly));
    MembersCounted(entries, votersOnly);
    MemberIdsElements(entries, votersOnly);
  }

  /** From epoch 1 on, a view is built for an order if and only if faults are configured, its
      voters form a membership, and with an anchored bound f there are at least 3f + 1 of them. */
  lemma OrderViewIff(hdr: ProposeHdr, entries: seq<VehicleEntry>, expected: int, faults: FaultMode, meta: RequestMeta)
    requires hdr.epoch > 0
    ensures EpochOrderView(hdr, entries, expected, faults, Some(meta)).Some? <==>
      && faults.enabled && faults.toleratedF >= 0
      && MembershipAdmissible(hdr, entries, true, expected, Some(meta))
      && (faults.rollbackPerEpoch || |set e | e in entries && IsVoter(e) :: e.replicaId| >= 3 * faults.toleratedF + 1)
  {
    if MembershipAdmissible(hdr, entries, true, expected, Some(meta)) {
      SortedMemberIds(entries, true);
      assert MemberIdSet(entries, true) == set e | e in entries && IsVoter(e) :: e.replicaId;
    }
  }

  /** In epoch 0 every listed vehicle is a member, and they must be at least 3f + 1 in either mode. */
  lemma FirstOrderViewIff(hdr: ProposeHdr, entries: seq<VehicleEntry>, expected: int, faults: FaultMode,
                          meta: RequestMeta)
    requires hdr.epoch == 0
    ensures EpochOrderView(hdr, entries, expected, faults, Some(meta)).Some? <==>
      && faults.enabled && faults.toleratedF >= 0
      && MembershipAdmissible(hdr, entries, false, expected, Some(meta))
      && |set e | e in entries :: e.replicaId| >= 3 * faults.toleratedF + 1
  {
    if MembershipAdmissible(hdr, entries, false, expected, Some(meta)) {
      SortedMemberIds(entries, false);
      assert MemberIdSet(entries, false) == set e | e in entries :: e.replicaId;
    }
  }

  /** The view built for an order: epoch and leader of the order, the request's sequence number and
      hash, the members in increasing order, and as `f` the configured bound, which in per-epoch
      mode is cut to what the voters support. */
  lemma OrderViewContents(hdr: ProposeHdr, entries: seq<VehicleEntry>, expected: int, faults: FaultMode,
                          meta: RequestMeta, v: ForcedView)
    requires EpochOrderView(hdr, entries, expected, faults, Some(meta)) == Some(v)
    ensures v.epoch == hdr.epoch && v.primary == hdr.leaderId && v.seqNo == meta.seqNo && v.requestHash == meta.hash
    ensures forall i, j :: 0 <= i < j < |v.members| ==> v.members[i] < v.members[j]
    ensures forall m :: m in v.members <==>
      exists e :: e in entries && (hdr.epoch > 0 ==> IsVoter(e)) && e.replicaId as int == m
    ensures var most := (|v.members| - 1) / 3;
      v.fOverride
      && v.f == if hdr.epoch > 0 && faults.rollbackPerEpoch && most < faults.toleratedF then most else faults.toleratedF
  {
    SortedMemberIds(entries, hdr.epoch > 0);
    MembersNotEmpty(hdr, entries, hdr.epoch > 0, expected, Some(meta));
  }

  lemma MembersNotEmpty(hdr: ProposeHdr, entries: seq<VehicleEntry>, votersOnly: bool, expected: int,
                        req: Option<RequestMeta>)
    requires MembershipAdmissible(hdr, entries, votersOnly, expected, req)
    ensures |SortInts(MemberIds(entries, votersOnly))| > 0
  {
    SortedMembers(MemberIds(entries, votersOnly));
  }

  // ----- the rollback builder

  /** A view is built for a rollback if and only if faults are configured, its voters form a
      membership, and there are at least four of them in per-epoch mode, else at least 3f + 1. */
  lemma RollbackViewIff(hdr: ProposeHdr, entries: seq<VehicleEntry>, expected: int, faults: FaultMode,
                        meta: RequestMeta)
    ensures RollbackView(hdr, entries, expected, faults, Some(meta)).Some? <==>
      && faults.enabled && faults.toleratedF >= 0
      && MembershipAdmissible(hdr, entries, true, expected, Some(meta))
      && |set e | e in entries && IsVoter(e) :: e.replicaId|
         >= (if faults.rollbackPerEpoch then 4 else 3 * faults.toleratedF + 1)
  {
    if MembershipAdmissible(hdr, entries, true, expected, Some(meta)) {
      SortedMemberIds(entries, true);
      assert MemberIdSet(entries, true) == set e | e in entries && IsVoter(e) :: e.replicaId;
    }
  }

  /** The view built for a rollback; in per-epoch mode it leaves `f` to the registry. */
  lemma RollbackViewContents(hdr: ProposeHdr, entries: seq<VehicleEntry>, expected: int, faults: FaultMode,
                             meta: RequestMeta, v: ForcedView)
    requires RollbackView(hdr, entries, expected, faults, Some(meta)) == Some(v)
    ensures v.epoch == hdr.epoch && v.primary == hdr.leaderId && v.seqNo == meta.seqNo && v.requestHash == meta.hash
    ensures forall i, j :: 0 <= i < j < |v.members| ==> v.members[i] < v.members[j]
    ensures forall m :: m in v.members <==> exists e :: e in entries && IsVoter(e) && e.replicaId as int == m
    ensures v.fOverride <==> !faults.rollbackPerEpoch
    ensures !faults.rollbackPerEpoch ==> v.f == faults.toleratedF
  {
    SortedMemberIds(entries, true);
  }

  // ----- the cancel builder

  /** A view is built for a cancel if and only if faults are configured, its electors are distinct,
      in range and at least 3f + 1, and the leader is one of them and, as far as the sender is known,
      the sender. */
  lemma CancelViewIff(c: CancelHdr, leaderId: int32, electors: seq<int32>, expected: int, faults: FaultMode,
                      meta: RequestMeta)
    ensures CancelView(c, leaderId, electors, expected, faults, Some(meta)).Some? <==>
      && faults.enabled && faults.toleratedF >= 0
      && (forall r :: r in electors ==> 0 <= r < expected)
      && (forall i, j :: 0 <= i < j < |electors| ==> electors[i] != electors[j])
      && |electors| >= 3 * faults.toleratedF + 1 && leaderId in electors
      && (meta.senderId <= 0 || (meta.senderId - 1) % 0x1_0000_0000 >= 0x8000_0000
          || (meta.senderId - 1) % 0x1_0000_0000 == leaderId)
  {
    if leaderId >= 0 { SenderMeans(meta, leaderId); }
  }

  /** The view built for a cancel. */
  lemma CancelViewContents(c: CancelHdr, leaderId: int32, electors: seq<int32>, expected: int, faults: FaultMode,
                           meta: RequestMeta, v: ForcedView)
    requires CancelView(c, leaderId, electors, expected, faults, Some(meta)) == Some(v)
    ensures v.epoch == c.cancelledEpoch && v.primary == leaderId && v.seqNo == meta.seqNo && v.requestHash == meta.hash
    ensures forall i, j :: 0 <= i < j < |v.members| ==> v.members[i] < v.members[j]
    ensures forall r: int32 :: r as int in v.members <==> r in electors
    ensures |v.members| == |electors| && v.fOverride && v.f == faults.toleratedF
  {
    SortedMembers(AsInts(electors));
    ElectorsAsInts(electors);
  }

  // ----- the leader's own proposals

  lemma OwnMembership(hdr: ProposeHdr, entries: seq<VehicleEntry>, votersOnly: bool, expected: int, meta: RequestMeta)
    requires meta.senderId == hdr.leaderId as int + 1
    ensures MembershipAdmissible(hdr, entries, votersOnly, expected, Some(meta))
      <==> MembershipAdmissible(hdr, entries, votersOnly, expected, None)
  {
    MembershipIff(hdr, entries, votersOnly, expected, meta);
    MemberIdsElements(entries, votersOnly);
    if MembershipAdmissible(hdr, entries, votersOnly, expected, None) { SenderMeans(meta, hdr.leaderId); }
  }

  /** No builder refuses the leader's own request for its sender: it builds a view exactly when it
      would for an unknown sender. */
  lemma LeaderMayPropose(hdr: ProposeHdr, entries: seq<VehicleEntry>, expected: int, faults: FaultMode,
                         meta: RequestMeta)
    requires meta.senderId == hdr.leaderId as int + 1
    ensures EpochOrderView(hdr, entries, expected, faults, Some(meta)).Some?
      <==> EpochOrderView(hdr, entries, expected, faults, None).Some?
    ensures RollbackView(hdr, entries, expected, faults, Some(meta)).Some?
      <==> RollbackView(hdr, entries, expected, faults, None).Some?
  {
    OwnMembership(hdr, entries, true, expected, meta);
    OwnMembership(hdr, entries, false, expected, meta);
  }

  lemma LeaderMayCancel(c: CancelHdr, leaderId: int32, electors: seq<int32>, expected: int, faults: FaultMode,
                        meta: RequestMeta)
    requires meta.senderId == leaderId as int + 1
    ensures CancelView(c, leaderId, electors, expected, faults, Some(meta)).Some?
      <==> CancelView(c, leaderId, electors, expected, faults, None).Some?
  {
    CancelViewIff(c, leaderId, electors, expected, faults, meta);
    if leaderId >= 0 { SenderMeans(meta, leaderId); }
  }
}
