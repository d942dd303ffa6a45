/** The scheduler as the executor calls it: queue, batches, decision bytes.
    Line numbers refer to bridge/resdb_intersection_scheduler.cc. */
module IntersectionScheduler {
  import opened BridgeTypes
  import opened WireFormat
  import opened QueueOrder
  import opened BatchPacker
  import opened ScheduleTheorems

  datatype ScheduleResult = ScheduleResult(orderBytes: bytes, nBatches: nat, ambulanceLane: int)

  /** The batch an id was placed in. */
  ghost function IdSlot(batches: seq<seq<VehicleEntry>>, id: int32): (k: nat)
    requires id in Placed(batches)
    ensures k < |batches| && id in Ids(batches[k])
  {
    var n := |batches| - 1;
    IdsConcat(Flatten(batches[..n]), batches[n]);
    if id in Ids(batches[n]) then n else IdSlot(batches[..n], id)
  }

  lemma {:induction false} IdSlotIsBatchIndex(view: seq<VehicleEntry>, batches: seq<seq<VehicleEntry>>, e: VehicleEntry)
    requires DistinctIds(view) && e in view && (forall x :: x in Flatten(batches) ==> x in view)
    requires e in Flatten(batches) && e.replicaId in Placed(batches)
    ensures IdSlot(batches, e.replicaId) == BatchIndex(batches, e)
  {
    var n := |batches| - 1;
    if e.replicaId in Ids(batches[n]) {
      var x :| x in batches[n] && x.replicaId == e.replicaId;
      InFlatten(batches, n, x);
      assert x == e;
    } else {
      assert e in Flatten(batches[..n]);
      IdSlotIsBatchIndex(view, batches[..n], e);
    }
  }

  lemma PlacedStep(batches: seq<seq<VehicleEntry>>, k: nat, id: int32)
    requires k < |batches| && id in Placed(batches[..k + 1])
    ensures id in Ids(batches[k]) || id in Placed(batches[..k])
    ensures IdSlot(batches[..k + 1], id) == if id in Ids(batches[k]) then k else IdSlot(batches[..k], id)
  {
    FlattenSplit(batches, k);
    assert batches[..k + 1][..k] == batches[..k];
  }

  /** One decision per entry, in payload order: the batch that holds the entry's id. */
  ghost function DecisionsOf(entries: seq<VehicleEntry>, batches: seq<seq<VehicleEntry>>): (ds: seq<VehicleDecision>)
    requires |batches| < 0x1_0000_0000
    requires forall e :: e in entries ==> e.replicaId in Placed(batches)
    ensures |ds| == |entries|
    ensures forall i :: 0 <= i < |entries| ==>
      ds[i] == VehicleDecision(entries[i].replicaId, IdSlot(batches, entries[i].replicaId))
  {
    seq(|entries|, i requires 0 <= i < |entries| =>
      VehicleDecision(entries[i].replicaId, IdSlot(batches, entries[i].replicaId)))
  }

  /** Lines 195-198: every entry with the vehicle's id. */
  method MarkVehicle(entries: seq<VehicleEntry>, out: array<VehicleDecision>, b: VehicleEntry, bi: uint32)
    requires out.Length == |entries|
    modifies out
    ensures forall k :: 0 <= k < |entries| ==>
      out[k] == if entries[k].replicaId == b.replicaId then VehicleDecision(entries[k].replicaId, bi) else old(out[k])
  {
    for i := 0 to |entries|
      invariant forall k :: 0 <= k < |entries| ==>
        out[k] == if k < i && entries[k].replicaId == b.replicaId then VehicleDecision(entries[k].replicaId, bi)
          else old(out[k])
    {
      if entries[i].replicaId == b.replicaId { out[i] := VehicleDecision(b.replicaId, bi); }
    }
  }

  /** Lines 194-199. */
  method MarkBatch(entries: seq<VehicleEntry>, out: array<VehicleDecision>, batch: seq<VehicleEntry>, bi: uint32)
    requires out.Length == |entries|
    modifies out
    ensures forall k :: 0 <= k < |entries| ==>
      out[k] == if entries[k].replicaId in Ids(batch) then VehicleDecision(entries[k].replicaId, bi) else old(out[k])
  {
    for j := 0 to |batch|
      invariant forall k :: 0 <= k < |entries| ==>
        out[k] == if entries[k].replicaId in Ids(batch[..j]) then VehicleDecision(entries[k].replicaId, bi)
          else old(out[k])
    {
      assert batch[..j + 1] == batch[..j] + [batch[j]];
      IdsConcat(batch[..j], [batch[j]]);
      assert Ids([batch[j]]) == {batch[j].replicaId};
      MarkVehicle(entries, out, batch[j], bi);
    }
    assert batch[..|batch|] == batch;
  }

  /** Lines 193-200. */
  method FillDecisions(entries: seq<VehicleEntry>, batches: seq<seq<VehicleEntry>>)
    returns (decisions: seq<VehicleDecision>)
    requires |batches| < 0x1_0000_0000
    requires forall e :: e in entries ==> e.replicaId in Placed(batches)
    ensures decisions == DecisionsOf(entries, batches)
  {
    var out := new VehicleDecision[|entries|](_ => VehicleDecision(0, 0));
    for bi := 0 to |batches|
      invariant forall i :: 0 <= i < |entries| && entries[i].replicaId in Placed(batches[..bi]) ==>
        out[i] == VehicleDecision(entries[i].replicaId, IdSlot(batches[..bi], entries[i].replicaId))
    {
      MarkBatch(entries, out, batches[bi], bi);
      forall i | 0 <= i < |entries| && entries[i].replicaId in Placed(batches[..bi + 1])
        ensures out[i] == VehicleDecision(entries[i].replicaId, IdSlot(batches[..bi + 1], entries[i].replicaId))
      {
        PlacedStep(batches, bi, entries[i].replicaId);
      }
    }
    assert batches[..|batches|] == batches;
    decisions := out[..];
  }

  /** Lines 202-212. */
  method EmitOrder(epoch: uint32, nBatches: uint32, decisions: seq<VehicleDecision>) returns (out: bytes)
    requires |decisions| < 0x1_0000_0000
    ensures out == EncodeOrder(OrderDecision(epoch, nBatches, decisions))
  {
    var w0 := PutWord(epoch);
    var w1 := PutWord(|decisions|);
    var w2 := PutWord(nBatches);
    out := w0 + w1 + w2;
    ghost var hdr := out;
    for i := 0 to |decisions|
      invariant out == hdr + EncodeDecisions(decisions[..i])
    {
      var id := PutWord(AsUnsigned(decisions[i].replicaId));
      var slot := PutWord(decisions[i].batchIndex);
      assert decisions[..i + 1][..i] == decisions[..i];
      out := out + (id + slot);
    }
    assert decisions[..|decisions|] == decisions;
  }

  /** The batches of `s` are the greedy ones and, with repeated ids, the fallback's. */
  ghost predicate FollowsPlan(s: Schedule, closed: nat) {
    match s
    case Schedule(view, queue, allSingleton, batches) =>
      IsFullPlan(view, queue, allSingleton, batches, closed, !DistinctIds(view))
  }

  /** Lines 75-80: the lane of the first signed ambulance of the payload, or -1. */
  method FirstAmbulanceLane(entries: seq<VehicleEntry>) returns (ambulanceLane: int)
    ensures ambulanceLane == -1 <==> forall e :: e in entries ==> !(e.isAmbulance != 0 && e.cyberStatus == 1)
    ensures ambulanceLane != -1 ==>
      exists i :: 0 <= i < |entries| && entries[i].isAmbulance != 0 && entries[i].cyberStatus == 1
        && ambulanceLane == entries[i].lane
        && forall k :: 0 <= k < i ==> !(entries[k].isAmbulance != 0 && entries[k].cyberStatus == 1)
  {
    for i := 0 to |entries|
      invariant forall k :: 0 <= k < i ==> !HasPriority(entries[k])
    {
      if HasPriority(entries[i]) { return entries[i].lane; }
    }
    ambulanceLane := -1;
  }

  /** The whole scheduler.  For any entries it terminates and every entry's decision names
      the one batch that holds its id; with distinct ids the batches are a schedule. */
  method BuildIntersectionSchedule(hdr: ProposeHdr, entries: seq<VehicleEntry>, allSingleton: bool)
    returns (result: ScheduleResult, ghost schedule: Schedule, ghost closed: nat)
    requires |entries| < 0x1_0000_0000
    ensures schedule.view == entries && schedule.allSingleton == allSingleton
    ensures result.nBatches == |schedule.batches| <= |entries|
    ensures Placed(schedule.batches) == Ids(entries) && DistinctIds(Flatten(schedule.batches))
    ensures forall e :: e in entries ==> e.replicaId in Placed(schedule.batches)
    ensures result.orderBytes ==
      EncodeOrder(OrderDecision(hdr.epoch, result.nBatches, DecisionsOf(entries, schedule.batches)))
    ensures forall b :: b in schedule.batches ==> b != [] && SafeBatch(b, allSingleton)
    ensures FollowsPlan(schedule, closed)
    ensures DistinctIds(entries) ==> IsSchedule(schedule)
    ensures result.ambulanceLane == -1 <==> forall e :: e in entries ==> !(e.isAmbulance != 0 && e.cyberStatus == 1)
    ensures result.ambulanceLane != -1 ==>
      exists i :: 0 <= i < |entries| && entries[i].isAmbulance != 0 && entries[i].cyberStatus == 1
        && result.ambulanceLane == entries[i].lane
        && forall k :: 0 <= k < i ==> !(entries[k].isAmbulance != 0 && entries[k].cyberStatus == 1)
  {
    var ambulanceLane := FirstAmbulanceLane(entries);
    var workQueue;
    ghost var served;
    workQueue, served := BuildWorkQueue(entries);
    var batches, noHead;
    batches, noHead, closed := PackBatches(entries, workQueue, allSingleton);
    schedule := Schedule(entries, workQueue, allSingleton, batches);
    NonEmptyBatches(batches);
    IdsCardinality(entries);
    IdsCardinality(Flatten(batches));
    forall e | e in entries ensures e.replicaId in Placed(batches) {
      assert e.replicaId in Ids(entries);
    }
    var decisions := FillDecisions(entries, batches);
    var orderBytes := EmitOrder(hdr.epoch, |batches|, decisions);
    result := ScheduleResult(orderBytes, |batches|, ambulanceLane);
  }
}
