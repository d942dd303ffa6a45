/** Packing the work queue into batches that cross the intersection together.
    Line numbers refer to bridge/resdb_intersection_scheduler.cc. */
module BatchPacker {
  import opened BridgeTypes
  import opened Sorting
  import opened QueueOrder

  /** Pairs of (lane, direction) movements that never conflict.
      Lanes 0=N, 1=S, 2=E, 3=W; directions 0=straight, 1=left, 2=right, 3=unknown. */
  const K_SAFE: set<(byte, byte, byte, byte)> :=
    {(0, 0, 1, 0), (2, 0, 3, 0), (0, 2, 1, 2), (0, 2, 2, 2),
     (0, 2, 3, 2), (1, 2, 2, 2), (1, 2, 3, 2), (2, 2, 3, 2),
     (0, 2, 1, 0), (1, 2, 0, 0), (2, 2, 3, 0), (3, 2, 2, 0)}

  predicate IsSafeToBatch(laneA: byte, dirA: byte, laneB: byte, dirB: byte) {
    laneA != laneB && ((laneA, dirA, laneB, dirB) in K_SAFE || (laneB, dirB, laneA, dirA) in K_SAFE)
  }

  predicate SafePair(a: VehicleEntry, b: VehicleEntry) {
    IsSafeToBatch(a.lane, a.direction, b.lane, b.direction)
  }

  predicate IsQuietEntry(e: VehicleEntry) {
    e.cyberStatus == 0 || e.simTimeUs == UINT64_MAX
  }

  predicate AllSameLaneFrontPlaced(c: VehicleEntry, view: seq<VehicleEntry>, placed: set<int32>) {
    forall v | v in view :: AheadInLane(v, c) ==> v.replicaId in placed
  }

  predicate SafeWithWholeBatch(e: VehicleEntry, batch: seq<VehicleEntry>) {
    !IsQuietEntry(e) && forall b | b in batch :: SafePair(e, b)
  }

  /** `c` may head a batch. */
  predicate Schedulable(c: VehicleEntry, view: seq<VehicleEntry>, placed: set<int32>) {
    c.replicaId !in placed && AllSameLaneFrontPlaced(c, view, placed)
  }

  /** `c` may join a batch that is being filled. */
  predicate CanJoin(c: VehicleEntry, view: seq<VehicleEntry>, placed: set<int32>, batch: seq<VehicleEntry>) {
    Schedulable(c, view, placed) && SafeWithWholeBatch(c, batch)
  }

  // ----- the schedule, independently of the packing loops

  ghost function Flatten(batches: seq<seq<VehicleEntry>>): seq<VehicleEntry> {
    if batches == [] then [] else Flatten(batches[..|batches| - 1]) + batches[|batches| - 1]
  }

  ghost function Placed(batches: seq<seq<VehicleEntry>>): set<int32> {
    Ids(Flatten(batches))
  }

  /** The first queued vehicle that may head a batch; |q| if there is none. */
  ghost function HeadFrom(view: seq<VehicleEntry>, q: seq<VehicleEntry>, placed: set<int32>, i: nat): (h: nat)
    requires i <= |q|
    ensures i <= h <= |q|
    ensures h < |q| ==> Schedulable(q[h], view, placed)
    ensures forall k :: i <= k < h ==> !Schedulable(q[k], view, placed)
    decreases |q| - i
  {
    if i == |q| || Schedulable(q[i], view, placed) then i else HeadFrom(view, q, placed, i + 1)
  }

  /** One pass over the queue from position `i`, adding every vehicle that may join.
      `before` are the ids placed in earlier batches. */
  ghost function Scan(view: seq<VehicleEntry>, q: seq<VehicleEntry>, before: set<int32>,
                      batch: seq<VehicleEntry>, i: nat): seq<VehicleEntry>
    requires i <= |q|
    decreases |q| - i
  {
    if i == |q| then batch
    else if CanJoin(q[i], view, before + Ids(batch), batch) then Scan(view, q, before, batch + [q[i]], i + 1)
    else Scan(view, q, before, batch, i + 1)
  }

  /** `batch` is what a single greedy pass puts together once `before` are placed. */
  ghost predicate IsNextBatch(view: seq<VehicleEntry>, q: seq<VehicleEntry>, before: set<int32>,
                              allSingleton: bool, batch: seq<VehicleEntry>)
  {
    var h := HeadFrom(view, q, before, 0);
    h < |q| &&
    batch == if allSingleton || IsQuietEntry(q[h]) then [q[h]] else Scan(view, q, before, [q[h]], 0)
  }

  ghost predicate IsPlan(view: seq<VehicleEntry>, q: seq<VehicleEntry>, allSingleton: bool,
                         batches: seq<seq<VehicleEntry>>)
  {
    forall k :: 0 <= k < |batches| ==> IsNextBatch(view, q, Placed(batches[..k]), allSingleton, batches[k])
  }

  // ----- the schedule of arbitrary entries, repeated ids included

  /** The batch after `n` passes over the queue. */
  ghost function Passes(view: seq<VehicleEntry>, q: seq<VehicleEntry>, before: set<int32>,
                        batch: seq<VehicleEntry>, n: nat): seq<VehicleEntry>
  {
    if n == 0 then batch else Scan(view, q, before, Passes(view, q, before, batch, n - 1), 0)
  }

  /** `batch` is grown from the first vehicle that may head it, by passes until one adds nothing. */
  ghost predicate IsGreedyBatch(view: seq<VehicleEntry>, q: seq<VehicleEntry>, before: set<int32>,
                                allSingleton: bool, batch: seq<VehicleEntry>)
  {
    var h := HeadFrom(view, q, before, 0);
    h < |q| &&
    if allSingleton || IsQuietEntry(q[h]) then batch == [q[h]]
    else
      Scan(view, q, before, batch, 0) == batch && exists n: nat :: batch == Passes(view, q, before, [q[h]], n)
  }

  ghost predicate IsGreedyPlan(view: seq<VehicleEntry>, q: seq<VehicleEntry>, allSingleton: bool,
                               batches: seq<seq<VehicleEntry>>)
  {
    forall k :: 0 <= k < |batches| ==> IsGreedyBatch(view, q, Placed(batches[..k]), allSingleton, batches[k])
  }

  ghost function Singles(s: seq<VehicleEntry>): seq<seq<VehicleEntry>> {
    seq(|s|, i requires 0 <= i < |s| => [s[i]])
  }

  /** The first `closed` batches are greedy; if that leaves vehicles of which none may head a
      batch, the rest are batches of one, in payload order. */
  ghost predicate IsFullPlan(view: seq<VehicleEntry>, q: seq<VehicleEntry>, allSingleton: bool,
                             batches: seq<seq<VehicleEntry>>, closed: nat, noHead: bool)
  {
    closed <= |batches| &&
    var before := Placed(batches[..closed]);
    && IsGreedyPlan(view, q, allSingleton, batches[..closed])
    && (!noHead ==> closed == |batches|)
    && (noHead ==> HeadFrom(view, q, before, 0) == |q| && batches[closed..] == Singles(FirstNew(view, before)))
  }

  // ----- small facts about ids and concatenation

  lemma FlattenAppend(batches: seq<seq<VehicleEntry>>, b: seq<VehicleEntry>)
    ensures Flatten(batches + [b]) == Flatten(batches) + b
    ensures Placed(batches + [b]) == Placed(batches) + Ids(b)
  {
    assert (batches + [b])[..|batches|] == batches;
    IdsConcat(Flatten(batches), b);
  }

  lemma DistinctAppend(s: seq<VehicleEntry>, e: VehicleEntry)
    requires DistinctIds(s) && e.replicaId !in Ids(s)
    ensures DistinctIds(s + [e]) && Ids(s + [e]) == Ids(s) + {e.replicaId}
  {
    IdsConcat(s, [e]);
    forall i | 0 <= i < |s| ensures s[i].replicaId != e.replicaId {
      assert s[i].replicaId in Ids(s);
    }
  }

  /** The ids of a sequence are as many as its elements exactly when they are distinct. */
  lemma {:induction false} IdsCardinality(s: seq<VehicleEntry>)
    ensures |Ids(s)| <= |s|
    ensures |Ids(s)| == |s| <==> DistinctIds(s)
  {
    if s != [] {
      var t, e := s[..|s| - 1], s[|s| - 1];
      assert s == t + [e];
      IdsConcat(t, [e]);
      assert Ids([e]) == {e.replicaId};
      IdsCardinality(t);
      if e.replicaId in Ids(t) {
        var x :| x in t && x.replicaId == e.replicaId;
        var i :| 0 <= i < |t| && t[i] == x;
        assert s[i].replicaId == s[|s| - 1].replicaId;
        assert Ids(s) == Ids(t);
      } else {
        if DistinctIds(t) { DistinctAppend(t, e); }
        assert DistinctIds(s) ==> DistinctIds(t);
      }
    }
  }

  // ----- a schedulable head exists while something is unplaced

  /** Position and id of a vehicle as one number that grows along a lane. */
  ghost function LaneKey(e: VehicleEntry): nat {
    e.positionInLane * 0x1_0000_0000 + e.replicaId + 0x8000_0000
  }

  lemma {:induction false} SomeSchedulable(view: seq<VehicleEntry>, placed: set<int32>, e: VehicleEntry)
    returns (c: VehicleEntry)
    requires e in view && e.replicaId !in placed
    ensures c in view && Schedulable(c, view, placed)
    decreases LaneKey(e)
  {
    if AllSameLaneFrontPlaced(e, view, placed) {
      c := e;
    } else {
      var v :| v in view && AheadInLane(v, e) && v.replicaId !in placed;
      c := SomeSchedulable(view, placed, v);
    }
  }

  lemma HeadExists(view: seq<VehicleEntry>, q: seq<VehicleEntry>, placed: set<int32>, e: VehicleEntry)
    requires forall x :: x in q <==> x in view
    requires e in view && e.replicaId !in placed
    ensures HeadFrom(view, q, placed, 0) < |q|
  {
    var c := SomeSchedulable(view, placed, e);
    assert c in q;
  }

  /** With distinct ids a head exists as long as fewer than |view| ids are placed. */
  lemma NeverStuck(view: seq<VehicleEntry>, q: seq<VehicleEntry>, placed: set<int32>)
    requires DistinctIds(view) && multiset(q) == multiset(view)
    requires placed <= Ids(view) && |placed| < |view|
    ensures HeadFrom(view, q, placed, 0) < |q|
  {
    IdsCardinality(view);
    SameElements(q, view);
    assert placed != Ids(view);
    var id :| id in Ids(view) && id !in placed;
    var e :| e in view && e.replicaId == id;
    HeadExists(view, q, placed, e);
  }

  // ----- a single pass saturates the batch

  /** Batch members are pairwise safe, none is QUIET, and all come from the queue. */
  ghost predicate Compatible(batch: seq<VehicleEntry>) {
    && (forall i, j :: 0 <= i < j < |batch| ==> SafePair(batch[j], batch[i]))
    && (forall i :: 0 <= i < |batch| ==> !IsQuietEntry(batch[i]))
  }

  /** What `Scan` returns extends the batch by queued vehicles not placed before. */
  lemma {:induction false} ScanExtends(view: seq<VehicleEntry>, q: seq<VehicleEntry>, before: set<int32>,
                                       batch: seq<VehicleEntry>, i: nat)
    requires i <= |q|
    ensures var r := Scan(view, q, before, batch, i);
      batch <= r && forall k :: |batch| <= k < |r| ==> r[k] in q && r[k].replicaId !in before
    decreases |q| - i
  {
    if i < |q| {
      if CanJoin(q[i], view, before + Ids(batch), batch) {
        ScanExtends(view, q, before, batch + [q[i]], i + 1);
      } else {
        ScanExtends(view, q, before, batch, i + 1);
      }
    }
  }

  lemma CompatibleAppend(batch: seq<VehicleEntry>, c: VehicleEntry)
    requires Compatible(batch) && SafeWithWholeBatch(c, batch)
    ensures Compatible(batch + [c])
  {
    assert forall k :: 0 <= k < |batch| ==> batch[k] in batch;
  }

  lemma {:induction false} ScanCompatible(view: seq<VehicleEntry>, q: seq<VehicleEntry>, before: set<int32>,
                                          batch: seq<VehicleEntry>, i: nat)
    requires i <= |q| && Compatible(batch)
    ensures Compatible(Scan(view, q, before, batch, i))
    decreases |q| - i
  {
    if i < |q| {
      if CanJoin(q[i], view, before + Ids(batch), batch) {
        CompatibleAppend(batch, q[i]);
        ScanCompatible(view, q, before, batch + [q[i]], i + 1);
      } else {
        ScanCompatible(view, q, before, batch, i + 1);
      }
    }
  }

  /** Vehicles of a lane that already has a member in the batch cannot join. */
  lemma LaneTaken(c: VehicleEntry, batch: seq<VehicleEntry>, m: VehicleEntry)
    requires m in batch && m.lane == c.lane
    ensures !SafeWithWholeBatch(c, batch)
  {
  }

  /** Once a queued vehicle has been passed over in a scan, it cannot join the finished batch. */
  lemma PassedOver(view: seq<VehicleEntry>, q: seq<VehicleEntry>, before: set<int32>,
                   batch: seq<VehicleEntry>, final: seq<VehicleEntry>, c: VehicleEntry)
    requires DistinctIds(view) && (forall x :: x in final ==> x in view)
    requires batch <= final
    requires !CanJoin(c, view, before + Ids(batch), batch)
    ensures !CanJoin(c, view, before + Ids(final), final)
  {
    assert final == batch + final[|batch|..];
    IdsConcat(batch, final[|batch|..]);
    assert forall b :: b in batch ==> b in final;
    if !(c.replicaId in before + Ids(batch)) && !AllSameLaneFrontPlaced(c, view, before + Ids(batch)) {
      var u :| u in view && AheadInLane(u, c) && u.replicaId !in before + Ids(batch);
      if u.replicaId in Ids(final) {
        var m :| m in final && m.replicaId == u.replicaId;
        SameIdSameEntry(view, u, m);
        LaneTaken(c, final, m);
      }
    }
  }

  lemma ScanWithinView(view: seq<VehicleEntry>, q: seq<VehicleEntry>, before: set<int32>,
                       batch: seq<VehicleEntry>, i: nat)
    requires (forall x :: x in q ==> x in view) && (forall x :: x in batch ==> x in view) && i <= |q|
    ensures forall x :: x in Scan(view, q, before, batch, i) ==> x in view
  {
    var r := Scan(view, q, before, batch, i);
    ScanExtends(view, q, before, batch, i);
    forall x | x in r ensures x in view {
      var k :| 0 <= k < |r| && r[k] == x;
      assert k < |batch| ==> batch[k] == x;
    }
  }

  lemma {:induction false} ScanSaturates(view: seq<VehicleEntry>, q: seq<VehicleEntry>, before: set<int32>,
                                         batch: seq<VehicleEntry>, i: nat)
    requires DistinctIds(view) && (forall x :: x in q ==> x in view) && (forall x :: x in batch ==> x in view)
    requires i <= |q|
    ensures var r := Scan(view, q, before, batch, i);
      forall k :: i <= k < |q| ==> !CanJoin(q[k], view, before + Ids(r), r)
    decreases |q| - i
  {
    if i < |q| {
      var r := Scan(view, q, before, batch, i);
      ScanExtends(view, q, before, batch, i);
      ScanWithinView(view, q, before, batch, i);
      if CanJoin(q[i], view, before + Ids(batch), batch) {
        var grown := batch + [q[i]];
        ScanSaturates(view, q, before, grown, i + 1);
        ScanExtends(view, q, before, grown, i + 1);
        assert q[i] in grown;
        assert q[i] in r;
      } else {
        ScanSaturates(view, q, before, batch, i + 1);
        PassedOver(view, q, before, batch, r, q[i]);
      }
    }
  }

  /** A scan of a batch nobody can join changes nothing. */
  lemma {:induction false} ScanIdle(view: seq<VehicleEntry>, q: seq<VehicleEntry>, before: set<int32>,
                                    batch: seq<VehicleEntry>, i: nat)
    requires i <= |q|
    requires forall k :: i <= k < |q| ==> !CanJoin(q[k], view, before + Ids(batch), batch)
    ensures Scan(view, q, before, batch, i) == batch
    decreases |q| - i
  {
    if i < |q| { ScanIdle(view, q, before, batch, i + 1); }
  }

  /** Whoever joins in a scan comes from the queue behind `i`, and in queue order. */
  lemma {:induction false} ScanPlaces(view: seq<VehicleEntry>, q: seq<VehicleEntry>, before: set<int32>,
                                      batch: seq<VehicleEntry>, i: nat) returns (at: seq<nat>)
    requires i <= |q|
    ensures var r := Scan(view, q, before, batch, i);
      && |r| == |batch| + |at| && batch <= r
      && (forall x :: 0 <= x < |at| ==> i <= at[x] < |q| && r[|batch| + x] == q[at[x]])
      && (forall x, y :: 0 <= x < y < |at| ==> at[x] < at[y])
    decreases |q| - i
  {
    if i == |q| {
      at := [];
    } else if CanJoin(q[i], view, before + Ids(batch), batch) {
      var rest := ScanPlaces(view, q, before, batch + [q[i]], i + 1);
      at := [i] + rest;
    } else {
      at := ScanPlaces(view, q, before, batch, i + 1);
    }
  }

  lemma JoinerIsIn(view: seq<VehicleEntry>, q: seq<VehicleEntry>, before: set<int32>, batch: seq<VehicleEntry>, i: nat)
    requires i < |q| && CanJoin(q[i], view, before + Ids(batch), batch)
    ensures q[i].replicaId in Ids(Scan(view, q, before, batch, i))
  {
    ScanExtends(view, q, before, batch + [q[i]], i + 1);
    IdsOfPrefix(batch + [q[i]], Scan(view, q, before, batch, i));
    assert q[i] in batch + [q[i]];
  }

  /** A vehicle that a scan passes over although its lane is clear conflicts with one that was
      in the batch already or stands in front of it in the queue. */
  lemma {:induction false} ScanPassed(view: seq<VehicleEntry>, q: seq<VehicleEntry>, before: set<int32>,
                                      batch: seq<VehicleEntry>, i: nat, j: nat) returns (m: VehicleEntry)
    requires i <= j < |q| && !IsQuietEntry(q[j]) && AllSameLaneFrontPlaced(q[j], view, before)
    requires q[j].replicaId !in before + Ids(Scan(view, q, before, batch, i))
    ensures m in Scan(view, q, before, batch, i) && !SafePair(q[j], m)
    ensures m in batch || m in q[i..j]
    decreases |q| - i
  {
    ScanExtends(view, q, before, batch, i);
    var joins := CanJoin(q[i], view, before + Ids(batch), batch);
    if i < j {
      m := ScanPassed(view, q, before, if joins then batch + [q[i]] else batch, i + 1, j);
      assert q[i..j] == [q[i]] + q[i + 1..j];
    } else {
      if joins { JoinerIsIn(view, q, before, batch, i); }
      IdsOfPrefix(batch, Scan(view, q, before, batch, i));
      m :| m in batch && !SafePair(q[j], m);
    }
  }

  lemma IdsOfPrefix(a: seq<VehicleEntry>, b: seq<VehicleEntry>)
    requires a <= b
    ensures Ids(a) <= Ids(b) && forall e :: e in a ==> e in b
  {
    assert b == a + b[|a|..];
    IdsConcat(a, b[|a|..]);
  }

  // ----- the packing loops

  /** The bookkeeping of the outer loop: closed batches, and the ids in them. */
  ghost predicate Packing(view: seq<VehicleEntry>, batches: seq<seq<VehicleEntry>>, batch: seq<VehicleEntry>,
                          placed: set<int32>)
  {
    && DistinctIds(Flatten(batches) + batch)
    && placed == Placed(batches) + Ids(batch)
    && (forall e :: e in Flatten(batches) + batch ==> e in view)
    && (forall b :: b in batches ==> b != [])
  }

  lemma PackingPush(view: seq<VehicleEntry>, batches: seq<seq<VehicleEntry>>, batch: seq<VehicleEntry>,
                    placed: set<int32>, e: VehicleEntry)
    requires Packing(view, batches, batch, placed)
    requires e in view && e.replicaId !in placed
    ensures Packing(view, batches, batch + [e], placed + {e.replicaId})
  {
    var s := Flatten(batches) + batch;
    IdsConcat(Flatten(batches), batch);
    DistinctAppend(s, e);
    assert s + [e] == Flatten(batches) + (batch + [e]);
    IdsConcat(batch, [e]);
    assert Ids([e]) == {e.replicaId};
  }

  lemma PackingClose(view: seq<VehicleEntry>, batches: seq<seq<VehicleEntry>>, batch: seq<VehicleEntry>,
                     placed: set<int32>)
    requires Packing(view, batches, batch, placed) && batch != []
    ensures Packing(view, batches + [batch], [], placed)
    ensures Placed(batches + [batch]) == placed
  {
    FlattenAppend(batches, batch);
    assert Flatten(batches + [batch]) + [] == Flatten(batches) + batch;
    assert Ids([]) == {};
  }

  lemma PlacedWithinView(view: seq<VehicleEntry>, batches: seq<seq<VehicleEntry>>,
                         batch: seq<VehicleEntry>, placed: set<int32>)
    requires Packing(view, batches, batch, placed)
    ensures placed <= Ids(view)
  {
    IdsConcat(Flatten(batches), batch);
  }

  /** Whatever the entries, nobody crosses next to a conflicting movement. */
  ghost predicate SafeBatch(batch: seq<VehicleEntry>, allSingleton: bool) {
    |batch| == 1 || (!allSingleton && Compatible(batch))
  }

  /** If a pass adds nothing, nobody in the queue can join. */
  lemma {:induction false} IdlePass(view: seq<VehicleEntry>, q: seq<VehicleEntry>, before: set<int32>,
                                    batch: seq<VehicleEntry>, i: nat)
    requires i <= |q| && Scan(view, q, before, batch, i) == batch
    ensures forall k :: i <= k < |q| ==> !CanJoin(q[k], view, before + Ids(batch), batch)
    decreases |q| - i
  {
    if i < |q| {
      if CanJoin(q[i], view, before + Ids(batch), batch) {
        ScanExtends(view, q, before, batch + [q[i]], i + 1);
        assert |Scan(view, q, before, batch + [q[i]], i + 1)| > |batch|;
      } else {
        IdlePass(view, q, before, batch, i + 1);
      }
    }
  }

  /** With distinct ids every pass after the first is idle. */
  lemma {:induction false} PassesSettle(view: seq<VehicleEntry>, q: seq<VehicleEntry>, before: set<int32>,
                                        batch: seq<VehicleEntry>, n: nat)
    requires DistinctIds(view) && (forall x :: x in q ==> x in view) && (forall x :: x in batch ==> x in view)
    requires n > 0
    ensures Passes(view, q, before, batch, n) == Scan(view, q, before, batch, 0)
  {
    if n > 1 {
      PassesSettle(view, q, before, batch, n - 1);
      ScanSaturates(view, q, before, batch, 0);
      ScanIdle(view, q, before, Scan(view, q, before, batch, 0), 0);
    }
  }

  /** Lines 171-186: one pass over the queue. */
  method Pass(view: seq<VehicleEntry>, workQueue: seq<VehicleEntry>, ghost batches: seq<seq<VehicleEntry>>,
              batch0: seq<VehicleEntry>, placed0: set<int32>)
    returns (batch: seq<VehicleEntry>, placed: set<int32>, grew: bool)
    requires forall e :: e in workQueue ==> e in view
    requires Packing(view, batches, batch0, placed0) && batch0 != []
    ensures Packing(view, batches, batch, placed) && batch != []
    ensures placed0 <= placed && (grew ==> placed0 < placed)
    ensures batch == Scan(view, workQueue, Placed(batches), batch0, 0)
    ensures !grew ==> batch == batch0
  {
    batch, placed, grew := batch0, placed0, false;
    for i := 0 to |workQueue|
      invariant Packing(view, batches, batch, placed) && batch != []
      invariant placed0 <= placed && (grew ==> placed0 < placed)
      invariant !grew ==> batch == batch0
      invariant Scan(view, workQueue, Placed(batches), batch, i) == Scan(view, workQueue, Placed(batches), batch0, 0)
    {
      if CanJoin(workQueue[i], view, placed, batch) {
        PackingPush(view, batches, batch, placed, workQueue[i]);
        batch := batch + [workQueue[i]];
        placed := placed + {workQueue[i].replicaId};
        grew := true;
      }
    }
  }

  /** Lines 168-187: repeat passes over the queue until one adds nothing.  With
      distinct ids the first pass already reaches that point. */
  method FillBatch(view: seq<VehicleEntry>, workQueue: seq<VehicleEntry>, ghost batches: seq<seq<VehicleEntry>>,
                   head: VehicleEntry, placed0: set<int32>)
    returns (batch: seq<VehicleEntry>, placed: set<int32>)
    requires forall e :: e in workQueue ==> e in view
    requires head in view && Packing(view, batches, [head], placed0)
    ensures Packing(view, batches, batch, placed) && batch != [] && placed0 <= placed
    ensures !IsQuietEntry(head) ==> Compatible(batch)
    ensures forall c :: c in workQueue ==> !CanJoin(c, view, placed, batch)
    ensures Scan(view, workQueue, Placed(batches), batch, 0) == batch
    ensures exists n: nat :: batch == Passes(view, workQueue, Placed(batches), [head], n)
    ensures DistinctIds(view) ==> batch == Scan(view, workQueue, Placed(batches), [head], 0)
  {
    ghost var before := Placed(batches);
    batch, placed := [head], placed0;
    var grew := true;
    ghost var n: nat := 0;
    while grew
      invariant Packing(view, batches, batch, placed) && batch != [] && placed0 <= placed
      invariant !IsQuietEntry(head) ==> Compatible(batch)
      invariant batch == Passes(view, workQueue, before, [head], n)
      invariant !grew ==> n > 0 && Scan(view, workQueue, before, batch, 0) == batch
      decreases Ids(view) - placed, grew
    {
      if !IsQuietEntry(head) { ScanCompatible(view, workQueue, before, batch, 0); }
      batch, placed, grew := Pass(view, workQueue, batches, batch, placed);
      n := n + 1;
      PlacedWithinView(view, batches, batch, placed);
    }
    IdlePass(view, workQueue, before, batch, 0);
    if DistinctIds(view) { PassesSettle(view, workQueue, before, [head], n); }
  }

  lemma PackingSingle(view: seq<VehicleEntry>, batches: seq<seq<VehicleEntry>>, placed: set<int32>, e: VehicleEntry)
    requires Packing(view, batches, [], placed) && e in view
    ensures Packing(view, if e.replicaId in placed then batches else batches + [[e]], [], placed + {e.replicaId})
  {
    if e.replicaId in placed {
      assert placed + {e.replicaId} == placed;
    } else {
      PackingPush(view, batches, [], placed, e);
      assert [] + [e] == [e];
      PackingClose(view, batches, [e], placed + {e.replicaId});
    }
  }

  lemma SinglesPush(bs: seq<seq<VehicleEntry>>, s: seq<VehicleEntry>, e: VehicleEntry)
    ensures bs + Singles(s + [e]) == bs + Singles(s) + [[e]]
  {
  }

  /** Opening a batch for each new id among the first `i` vehicles keeps the bookkeeping. */
  lemma {:induction false} LeftoversPack(view: seq<VehicleEntry>, batches: seq<seq<VehicleEntry>>, placed: set<int32>,
                                         i: nat)
    requires Packing(view, batches, [], placed) && i <= |view|
    ensures Packing(view, batches + Singles(FirstNew(view[..i], placed)), [], placed + Ids(view[..i]))
  {
    if i == 0 {
      assert batches + Singles([]) == batches;
      assert placed + Ids([]) == placed;
    } else {
      var e, rest := view[i - 1], FirstNew(view[..i - 1], placed);
      LeftoversPack(view, batches, placed, i - 1);
      PackingSingle(view, batches + Singles(rest), placed + Ids(view[..i - 1]), e);
      FirstNewStep(view, i - 1, placed);
      SinglesPush(batches, rest, e);
      assert placed + Ids(view[..i]) == placed + Ids(view[..i - 1]) + {e.replicaId};
    }
  }

  lemma LeftoversDone(view: seq<VehicleEntry>, batches: seq<seq<VehicleEntry>>, placed: set<int32>)
    requires Packing(view, batches, [], placed)
    ensures placed + Ids(view) == Ids(view)
    ensures Packing(view, batches + Singles(FirstNew(view, placed)), [], Ids(view))
  {
    PlacedWithinView(view, batches, [], placed);
    LeftoversPack(view, batches, placed, |view|);
    assert view[..|view|] == view;
  }

  /** The "no schedulable head" fallback: every unplaced vehicle gets a batch of its own. */
  method PlaceLeftovers(view: seq<VehicleEntry>, batches0: seq<seq<VehicleEntry>>, placed0: set<int32>)
    returns (batches: seq<seq<VehicleEntry>>, placed: set<int32>)
    ensures batches == batches0 + Singles(FirstNew(view, placed0))
    ensures placed == placed0 + Ids(view)
  {
    batches, placed := batches0, placed0;
    for i := 0 to |view|
      invariant placed == placed0 + Ids(view[..i])
      invariant batches == batches0 + Singles(FirstNew(view[..i], placed0))
    {
      FirstNewStep(view, i, placed0);
      SinglesPush(batches0, FirstNew(view[..i], placed0), view[i]);
      if view[i].replicaId !in placed {
        batches := batches + [[view[i]]];
        placed := placed + {view[i].replicaId};
      }
    }
    assert view[..|view|] == view;
  }

  lemma SinglesBehind(bs: seq<seq<VehicleEntry>>, s: seq<VehicleEntry>, all: seq<seq<VehicleEntry>>)
    requires all == bs + Singles(s)
    ensures all[..|bs|] == bs && all[|bs|..] == Singles(s)
    ensures forall b :: b in all ==> b in bs || |b| == 1
  {
  }

  lemma PlanAppend(view: seq<VehicleEntry>, q: seq<VehicleEntry>, allSingleton: bool,
                   batches: seq<seq<VehicleEntry>>, batch: seq<VehicleEntry>)
    requires IsPlan(view, q, allSingleton, batches)
    requires IsNextBatch(view, q, Placed(batches), allSingleton, batch)
    ensures IsPlan(view, q, allSingleton, batches + [batch])
  {
    var bs := batches + [batch];
    forall k | 0 <= k < |bs| ensures IsNextBatch(view, q, Placed(bs[..k]), allSingleton, bs[k]) {
      assert k < |batches| ==> batches[..k] == bs[..k];
      assert bs[..|batches|] == batches;
    }
  }

  lemma GreedyAppend(view: seq<VehicleEntry>, q: seq<VehicleEntry>, allSingleton: bool,
                     batches: seq<seq<VehicleEntry>>, batch: seq<VehicleEntry>)
    requires IsGreedyPlan(view, q, allSingleton, batches)
    requires IsGreedyBatch(view, q, Placed(batches), allSingleton, batch)
    ensures IsGreedyPlan(view, q, allSingleton, batches + [batch])
  {
    var bs := batches + [batch];
    forall k | 0 <= k < |bs| ensures IsGreedyBatch(view, q, Placed(bs[..k]), allSingleton, bs[k]) {
      assert k < |batches| ==> batches[..k] == bs[..k];
      assert bs[..|batches|] == batches;
    }
  }

  /** Lines 135-141. */
  method FindHead(view: seq<VehicleEntry>, workQueue: seq<VehicleEntry>, placed: set<int32>) returns (i: nat)
    ensures i == HeadFrom(view, workQueue, placed, 0)
  {
    i := 0;
    while i < |workQueue| && !Schedulable(workQueue[i], view, placed)
      invariant i <= |workQueue|
      invariant HeadFrom(view, workQueue, placed, i) == HeadFrom(view, workQueue, placed, 0)
    {
      i := i + 1;
    }
  }

  /** Lines 153-187: the batch that the vehicle at the head of the line opens. */
  method FormBatch(view: seq<VehicleEntry>, workQueue: seq<VehicleEntry>, allSingleton: bool,
                   ghost batches: seq<seq<VehicleEntry>>, head: VehicleEntry, placed0: set<int32>)
    returns (batch: seq<VehicleEntry>, placed: set<int32>)
    requires forall e :: e in workQueue ==> e in view
    requires Packing(view, batches, [], placed0) && placed0 == Placed(batches)
    requires HeadFrom(view, workQueue, placed0, 0) < |workQueue|
    requires head == workQueue[HeadFrom(view, workQueue, placed0, 0)]
    ensures Packing(view, batches, batch, placed) && batch != [] && placed0 < placed
    ensures SafeBatch(batch, allSingleton)
    ensures IsGreedyBatch(view, workQueue, placed0, allSingleton, batch)
    ensures DistinctIds(view) ==> IsNextBatch(view, workQueue, placed0, allSingleton, batch)
  {
    batch := [head];
    PackingPush(view, batches, [], placed0, head);
    assert [] + [head] == [head];
    placed := placed0 + {head.replicaId};
    if !allSingleton && !IsQuietEntry(head) {
      batch, placed := FillBatch(view, workQueue, batches, head, placed);
    }
  }

  /** The outer loop between two batches. */
  datatype Progress = Progress(view: seq<VehicleEntry>, queue: seq<VehicleEntry>, allSingleton: bool,
                               batches: seq<seq<VehicleEntry>>, placed: set<int32>)

  ghost predicate InProgress(x: Progress) {
    match x
    case Progress(view, q, allSingleton, batches, placed) =>
      && Packing(view, batches, [], placed) && placed == Placed(batches) && placed <= Ids(view)
      && (forall b :: b in batches ==> SafeBatch(b, allSingleton))
      && IsGreedyPlan(view, q, allSingleton, batches)
      && (DistinctIds(view) ==> IsPlan(view, q, allSingleton, batches))
  }

  lemma CloseBatch(x: Progress, batch: seq<VehicleEntry>, placed: set<int32>)
    requires InProgress(x) && Packing(x.view, x.batches, batch, placed) && batch != []
    requires SafeBatch(batch, x.allSingleton)
    requires IsGreedyBatch(x.view, x.queue, x.placed, x.allSingleton, batch)
    requires DistinctIds(x.view) ==> IsNextBatch(x.view, x.queue, x.placed, x.allSingleton, batch)
    ensures InProgress(x.(batches := x.batches + [batch], placed := placed))
  {
    PackingClose(x.view, x.batches, batch, placed);
    GreedyAppend(x.view, x.queue, x.allSingleton, x.batches, batch);
    PlacedWithinView(x.view, x.batches + [batch], [], placed);
    if DistinctIds(x.view) { PlanAppend(x.view, x.queue, x.allSingleton, x.batches, batch); }
  }

  /** What the packer promises of its batches. */
  ghost predicate Packed(x: Progress, closed: nat, noHead: bool) {
    match x
    case Progress(view, q, allSingleton, batches, placed) =>
      && DistinctIds(Flatten(batches)) && Placed(batches) == Ids(view)
      && (forall e :: e in Flatten(batches) ==> e in view)
      && (forall b :: b in batches ==> b != [] && SafeBatch(b, allSingleton))
      && IsFullPlan(view, q, allSingleton, batches, closed, noHead)
  }

  lemma EverythingPacked(view: seq<VehicleEntry>, all: seq<seq<VehicleEntry>>)
    requires Packing(view, all, [], Ids(view))
    ensures DistinctIds(Flatten(all)) && Placed(all) == Ids(view)
    ensures (forall e :: e in Flatten(all) ==> e in view) && forall b :: b in all ==> b != []
  {
    assert Flatten(all) + [] == Flatten(all);
    assert Placed(all) + Ids([]) == Placed(all);
  }

  lemma FallbackIsFull(x: Progress, all: seq<seq<VehicleEntry>>)
    requires InProgress(x) && HeadFrom(x.view, x.queue, x.placed, 0) == |x.queue|
    requires |all| >= |x.batches| && all[..|x.batches|] == x.batches
    requires all[|x.batches|..] == Singles(FirstNew(x.view, x.placed))
    ensures IsFullPlan(x.view, x.queue, x.allSingleton, all, |x.batches|, true)
  {
  }

  /** The plan once the fallback has appended the vehicles that none may head. */
  lemma FallbackPlan(x: Progress, all: seq<seq<VehicleEntry>>)
    requires InProgress(x) && HeadFrom(x.view, x.queue, x.placed, 0) == |x.queue|
    requires all == x.batches + Singles(FirstNew(x.view, x.placed))
    ensures Packed(x.(batches := all), |x.batches|, true)
  {
    LeftoversDone(x.view, x.batches, x.placed);
    EverythingPacked(x.view, all);
    SinglesBehind(x.batches, FirstNew(x.view, x.placed), all);
    FallbackIsFull(x, all);
  }

  /** The plan when the loop has placed as many ids as there are vehicles. */
  lemma CompletePlan(x: Progress)
    requires InProgress(x) && |x.placed| >= |x.view|
    ensures Packed(x, |x.batches|, false) && DistinctIds(x.view)
  {
    AllPlaced(x.view, x.placed);
    EverythingPacked(x.view, x.batches);
    assert x.batches[..|x.batches|] == x.batches;
  }

  /** Lines 129-190.  Terminates on every input, places every id exactly once, and
      takes the "no schedulable head" exit exactly when two entries share an id. */
  method PackBatches(view: seq<VehicleEntry>, workQueue: seq<VehicleEntry>, allSingleton: bool)
    returns (batches: seq<seq<VehicleEntry>>, noHead: bool, ghost closed: nat)
    requires (forall e :: e in workQueue ==> e in view) && Ids(workQueue) == Ids(view)
    requires DistinctIds(view) ==> multiset(workQueue) == multiset(view)
    ensures DistinctIds(Flatten(batches)) && Placed(batches) == Ids(view)
    ensures forall e :: e in Flatten(batches) ==> e in view
    ensures forall b :: b in batches ==> b != [] && SafeBatch(b, allSingleton)
    ensures noHead <==> !DistinctIds(view)
    ensures IsFullPlan(view, workQueue, allSingleton, batches, closed, noHead)
    ensures DistinctIds(view) ==> IsPlan(view, workQueue, allSingleton, batches)
  {
    batches := [];
    var placed: set<int32> := {};
    IdsCardinality(view);
    while |placed| < |view|
      invariant InProgress(Progress(view, workQueue, allSingleton, batches, placed))
      decreases Ids(view) - placed
    {
      ghost var x := Progress(view, workQueue, allSingleton, batches, placed);
      var i := FindHead(view, workQueue, placed);
      if i == |workQueue| {
        if DistinctIds(view) { NeverStuck(view, workQueue, placed); }
        noHead, closed := true, |batches|;
        batches, placed := PlaceLeftovers(view, batches, placed);
        FallbackPlan(x, batches);
        return;
      }
      var batch;
      batch, placed := FormBatch(view, workQueue, allSingleton, batches, workQueue[i], placed);
      CloseBatch(x, batch, placed);
      batches := batches + [batch];
    }
    noHead, closed := false, |batches|;
    CompletePlan(Progress(view, workQueue, allSingleton, batches, placed));
  }

  // ----- repeated ids

  lemma {:induction false} PassesGrow(view: seq<VehicleEntry>, q: seq<VehicleEntry>, before: set<int32>,
                                      batch: seq<VehicleEntry>, n: nat)
    requires n > 0
    ensures batch <= Scan(view, q, before, batch, 0) <= Passes(view, q, before, batch, n)
  {
    ScanExtends(view, q, before, batch, 0);
    if n > 1 {
      PassesGrow(view, q, before, batch, n - 1);
      ScanExtends(view, q, before, Passes(view, q, before, batch, n - 1), 0);
    } else {
      assert Passes(view, q, before, batch, 0) == batch;
    }
  }

  /** Ids repeated or not: a vehicle of another id that is not QUIET and whose lane is clear is kept
      out of a greedy batch that is open to others only by its head or by a member queued before it. */
  lemma GreedyConflict(view: seq<VehicleEntry>, q: seq<VehicleEntry>, before: set<int32>, batch: seq<VehicleEntry>,
                       j: nat) returns (m: VehicleEntry)
    requires IsGreedyBatch(view, q, before, false, batch) && j < |q| && !IsQuietEntry(q[j])
    requires q[j].replicaId !in before + Ids(batch) && AllSameLaneFrontPlaced(q[j], view, before)
    ensures batch != [] && (!IsQuietEntry(batch[0]) ==> m in batch && !SafePair(q[j], m))
    ensures m == batch[0] || m in q[..j]
  {
    var head := q[HeadFrom(view, q, before, 0)];
    m := head;
    if !IsQuietEntry(head) {
      var n: nat :| batch == Passes(view, q, before, [head], n);
      if n > 0 { PassesGrow(view, q, before, [head], n); }
      IdsOfPrefix(Scan(view, q, before, [head], 0), batch);
      m := ScanPassed(view, q, before, [head], 0, j);
    }
  }

  /** When no vehicle may head a batch, the rest cross alone: in payload order, the first entry of
      each id that is not placed. */
  lemma FallbackBatches(view: seq<VehicleEntry>, q: seq<VehicleEntry>, allSingleton: bool,
                        batches: seq<seq<VehicleEntry>>, closed: nat) returns (at: seq<nat>)
    requires IsFullPlan(view, q, allSingleton, batches, closed, true)
    ensures |batches| == closed + |at|
    ensures forall x :: 0 <= x < |at| ==> at[x] < |view| && batches[closed + x] == [view[at[x]]]
    ensures forall x, y :: 0 <= x < y < |at| ==> at[x] < at[y]
    ensures forall i: nat :: i in at <==> (i < |view| && view[i].replicaId !in Placed(batches[..closed])
      && forall k :: 0 <= k < i ==> view[k].replicaId != view[i].replicaId)
  {
    var before := Placed(batches[..closed]);
    at := FirstNewPlaces(view, before);
    forall x | 0 <= x < |at| ensures batches[closed + x] == [view[at[x]]] {
      assert batches[closed..][x] == Singles(FirstNew(view, before))[x];
    }
    forall i: nat ensures i in at <==> IsNewAt(view, before, i) {}
  }

  lemma SubsetOfSameSize(a: set<int32>, b: set<int32>)
    requires a <= b && |a| >= |b|
    ensures a == b
  {
    assert b == a + (b - a);
    assert |b - a| == |b| - |a|;
  }

  lemma AllPlaced(view: seq<VehicleEntry>, placed: set<int32>)
    requires placed <= Ids(view) && |placed| >= |view|
    ensures placed == Ids(view) && DistinctIds(view)
  {
    IdsCardinality(view);
    SubsetOfSameSize(placed, Ids(view));
  }
}
