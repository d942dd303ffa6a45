/** What every schedule the packer produces satisfies, for all sets of vehicles
    with distinct replica ids. */
module ScheduleTheorems {
  import opened BridgeTypes
  import opened Sorting
  import opened QueueOrder
  import opened BatchPacker

  /** The vehicles, the work queue, the mode switch and the batches of one run. */
  datatype Schedule = Schedule(view: seq<VehicleEntry>, queue: seq<VehicleEntry>, allSingleton: bool,
                               batches: seq<seq<VehicleEntry>>)

  /** `s` is what the scheduler makes of vehicles with distinct ids. */
  ghost predicate IsSchedule(s: Schedule) {
    match s
    case Schedule(view, queue, allSingleton, batches) =>
      && DistinctIds(view)
      && IsWorkQueue(view, queue)
      && IsPlan(view, queue, allSingleton, batches)
      && DistinctIds(Flatten(batches))
      && Placed(batches) == Ids(view)
      && (forall e :: e in Flatten(batches) ==> e in view)
      && (forall b :: b in batches ==> b != [])
  }

  /** The crossing slot of a vehicle. */
  ghost function BatchIndex(batches: seq<seq<VehicleEntry>>, e: VehicleEntry): (k: nat)
    requires e in Flatten(batches)
    ensures k < |batches| && e in batches[k]
  {
    if e in batches[|batches| - 1] then |batches| - 1 else BatchIndex(batches[..|batches| - 1], e)
  }

  // ----- membership in flattened batches

  lemma {:induction false} InFlatten(batches: seq<seq<VehicleEntry>>, k: nat, e: VehicleEntry)
    requires k < |batches| && e in batches[k]
    ensures e in Flatten(batches)
  {
    if k < |batches| - 1 { InFlatten(batches[..|batches| - 1], k, e); }
  }

  lemma FlattenSplit(batches: seq<seq<VehicleEntry>>, k: nat)
    requires k < |batches|
    ensures Flatten(batches[..k + 1]) == Flatten(batches[..k]) + batches[k]
    ensures Placed(batches[..k + 1]) == Placed(batches[..k]) + Ids(batches[k])
  {
    assert batches[..k + 1] == batches[..k] + [batches[k]];
    FlattenAppend(batches[..k], batches[k]);
  }

  lemma {:induction false} FlattenPrefix(batches: seq<seq<VehicleEntry>>, k: nat)
    requires k <= |batches|
    ensures Flatten(batches[..k]) <= Flatten(batches)
    decreases |batches| - k
  {
    if k < |batches| {
      FlattenSplit(batches, k);
      FlattenPrefix(batches, k + 1);
    } else {
      assert batches[..k] == batches;
    }
  }

  lemma ConcatDistinct(a: seq<VehicleEntry>, b: seq<VehicleEntry>, e: VehicleEntry)
    requires DistinctIds(a + b) && e in b
    ensures e.replicaId !in Ids(a)
  {
    var f := a + b;
    var j :| 0 <= j < |b| && b[j] == e;
    assert f[|a| + j] == e;
    forall x | x in a ensures x.replicaId != e.replicaId {
      var i :| 0 <= i < |a| && a[i] == x;
      assert f[i] == x;
    }
  }

  lemma PrefixDistinct(p: seq<VehicleEntry>, s: seq<VehicleEntry>)
    requires DistinctIds(s) && p <= s
    ensures DistinctIds(p)
  {
    assert forall i :: 0 <= i < |p| ==> p[i] == s[i];
  }

  /** A vehicle of batch `k` is not placed before batch `k`. */
  lemma NotPlacedBefore(batches: seq<seq<VehicleEntry>>, k: nat, e: VehicleEntry)
    requires DistinctIds(Flatten(batches)) && k < |batches| && e in batches[k]
    ensures e.replicaId !in Placed(batches[..k])
  {
    FlattenSplit(batches, k);
    FlattenPrefix(batches, k + 1);
    PrefixDistinct(Flatten(batches[..k + 1]), Flatten(batches));
    ConcatDistinct(Flatten(batches[..k]), batches[k], e);
  }

  lemma PlacedAfter(batches: seq<seq<VehicleEntry>>, j: nat, k: nat, e: VehicleEntry)
    requires j < k <= |batches| && e in batches[j]
    ensures e.replicaId in Placed(batches[..k])
  {
    InFlatten(batches[..k], j, e);
  }

  /** Each vehicle has exactly one slot. */
  lemma SlotUnique(batches: seq<seq<VehicleEntry>>, k: nat, e: VehicleEntry)
    requires DistinctIds(Flatten(batches)) && k < |batches| && e in batches[k]
    ensures e in Flatten(batches) && BatchIndex(batches, e) == k
  {
    InFlatten(batches, k, e);
    var j := BatchIndex(batches, e);
    NotPlacedBefore(batches, j, e);
    NotPlacedBefore(batches, k, e);
    if k < j { PlacedAfter(batches, k, j, e); }
    if j < k { PlacedAfter(batches, j, k, e); }
  }

  lemma PlacedIffEarlier(batches: seq<seq<VehicleEntry>>, k: nat, e: VehicleEntry)
    requires DistinctIds(Flatten(batches)) && k <= |batches| && e in Flatten(batches)
    ensures e.replicaId in Placed(batches[..k]) <==> BatchIndex(batches, e) < k
  {
    var j := BatchIndex(batches, e);
    if j < k {
      InFlatten(batches[..k], j, e);
    } else {
      NotPlacedBefore(batches, j, e);
      FlattenPrefix(batches[..j], k);
      assert batches[..j][..k] == batches[..k];
    }
  }

  /** Every vehicle has a slot. */
  lemma EveryoneScheduled(s: Schedule, e: VehicleEntry)
    requires IsSchedule(s) && e in s.view
    ensures e in Flatten(s.batches)
  {
    assert e.replicaId in Placed(s.batches);
    var f :| f in Flatten(s.batches) && f.replicaId == e.replicaId;
    SameIdSameEntry(s.view, e, f);
  }

  // ----- strict FIFO

  /** Everybody in front of a vehicle that joins in a scan was placed in an earlier batch. */
  lemma {:induction false} ScanRespectsLanes(view: seq<VehicleEntry>, q: seq<VehicleEntry>, before: set<int32>,
                                             batch: seq<VehicleEntry>, i: nat, k: nat)
    requires DistinctIds(view) && (forall x :: x in q ==> x in view) && (forall x :: x in batch ==> x in view)
    requires i <= |q| && |batch| <= k < |Scan(view, q, before, batch, i)|
    ensures AllSameLaneFrontPlaced(Scan(view, q, before, batch, i)[k], view, before)
    decreases |q| - i
  {
    if i < |q| {
      var c := q[i];
      if CanJoin(c, view, before + Ids(batch), batch) {
        ScanExtends(view, q, before, batch + [c], i + 1);
        if k == |batch| {
          forall u | u in view && AheadInLane(u, c) ensures u.replicaId in before {
            if u.replicaId in Ids(batch) {
              var m :| m in batch && m.replicaId == u.replicaId;
              SameIdSameEntry(view, m, u);
              LaneTaken(c, batch, m);
            }
          }
        } else {
          ScanRespectsLanes(view, q, before, batch + [c], i + 1, k);
        }
      } else {
        ScanRespectsLanes(view, q, before, batch, i + 1, k);
      }
    }
  }

  /** The vehicle that heads batch `k`. */
  lemma HeadOf(s: Schedule, k: nat) returns (h: nat)
    requires IsSchedule(s) && k < |s.batches|
    ensures h == HeadFrom(s.view, s.queue, Placed(s.batches[..k]), 0) < |s.queue|
    ensures s.batches[k] == [s.queue[h]]
      || (!s.allSingleton && !IsQuietEntry(s.queue[h])
          && s.batches[k] == Scan(s.view, s.queue, Placed(s.batches[..k]), [s.queue[h]], 0))
    ensures !s.allSingleton && !IsQuietEntry(s.queue[h]) ==>
      s.batches[k] == Scan(s.view, s.queue, Placed(s.batches[..k]), [s.queue[h]], 0)
    ensures s.batches[k] != [] && s.batches[k][0] == s.queue[h]
  {
    var before := Placed(s.batches[..k]);
    assert IsNextBatch(s.view, s.queue, before, s.allSingleton, s.batches[k]);
    h := HeadFrom(s.view, s.queue, before, 0);
    ScanExtends(s.view, s.queue, before, [s.queue[h]], 0);
  }

  lemma BatchRespectsLanes(s: Schedule, k: nat, v: VehicleEntry)
    requires IsSchedule(s) && k < |s.batches| && v in s.batches[k]
    ensures AllSameLaneFrontPlaced(v, s.view, Placed(s.batches[..k]))
  {
    SameElements(s.queue, s.view);
    var h := HeadOf(s, k);
    var j :| 0 <= j < |s.batches[k]| && s.batches[k][j] == v;
    if j > 0 { ScanRespectsLanes(s.view, s.queue, Placed(s.batches[..k]), [s.queue[h]], 0, j); }
  }

  /** Vehicles of one lane cross in strictly increasing batches, front-most first. */
  lemma StrictFifo(s: Schedule, u: VehicleEntry, v: VehicleEntry)
    requires IsSchedule(s) && u in s.view && v in s.view && AheadInLane(u, v)
    ensures u in Flatten(s.batches) && v in Flatten(s.batches)
    ensures BatchIndex(s.batches, u) < BatchIndex(s.batches, v)
  {
    EveryoneScheduled(s, u);
    EveryoneScheduled(s, v);
    var k := BatchIndex(s.batches, v);
    BatchRespectsLanes(s, k, v);
    PlacedIffEarlier(s.batches, k, u);
  }

  // ----- batch shape

  /** What the table allows: exactly the straight and right movements of different lanes, a
      straight one only with the lane opposite (0 faces 1, and 2 faces 3). */
  lemma SafePairFacts(a: VehicleEntry, b: VehicleEntry)
    ensures SafePair(a, b) <==>
      && a.lane < 4 && b.lane < 4 && a.lane != b.lane
      && (a.direction == 0 || a.direction == 2) && (b.direction == 0 || b.direction == 2)
      && (a.direction == 0 || b.direction == 0 ==> a.lane / 2 == b.lane / 2)
    ensures SafePair(a, b) == SafePair(b, a)
  {
  }

  lemma PairwiseSafe(b: seq<VehicleEntry>, i: nat, j: nat)
    requires Compatible(b) && i < |b| && j < |b| && i != j
    ensures SafePair(b[i], b[j])
  {
    if i < j { SafePairFacts(b[j], b[i]); }
  }

  /** Pairwise-safe vehicles: at most four, and a group of three or more only turns right. */
  lemma CompatibleShape(b: seq<VehicleEntry>)
    requires Compatible(b)
    ensures |b| <= 4
    ensures |b| >= 3 ==> forall i :: 0 <= i < |b| ==> b[i].direction == 2
    ensures |b| >= 2 ==> forall i :: 0 <= i < |b| ==> b[i].direction == 0 || b[i].direction == 2
  {
    if |b| >= 2 {
      forall i | 0 <= i < |b| ensures b[i].direction == 0 || b[i].direction == 2 {
        var j := if i == 0 then 1 else 0;
        PairwiseSafe(b, i, j);
        SafePairFacts(b[i], b[j]);
      }
    }
    if |b| >= 3 {
      forall i | 0 <= i < |b| ensures b[i].direction == 2 {
        TwoPartners(b, i);
      }
    }
    AtMostFour(b);
  }

  lemma AtMostFour(b: seq<VehicleEntry>)
    requires Compatible(b)
    ensures |b| <= 4
  {
    forall i, j | 0 <= i < |b| && 0 <= j < |b| && i != j ensures b[i].lane != b[j].lane && b[i].lane < 4 {
      PairwiseSafe(b, i, j);
      SafePairFacts(b[i], b[j]);
    }
    if |b| >= 5 { FiveLanes(b[0].lane, b[1].lane, b[2].lane, b[3].lane, b[4].lane); }
  }

  lemma FiveLanes(l0: byte, l1: byte, l2: byte, l3: byte, l4: byte)
    requires l0 < 4 && l1 < 4 && l2 < 4 && l3 < 4 && l4 < 4
    ensures l0 == l1 || l0 == l2 || l0 == l3 || l0 == l4 || l1 == l2 || l1 == l3 || l1 == l4
      || l2 == l3 || l2 == l4 || l3 == l4
  {
  }

  lemma TwoPartners(b: seq<VehicleEntry>, i: nat)
    requires Compatible(b) && |b| >= 3 && i < |b|
    ensures b[i].direction == 2
  {
    var j := if i == 0 then 1 else 0;
    var k := if i == 2 then 1 else 2;
    PairwiseSafe(b, i, j);
    PairwiseSafe(b, i, k);
    PairwiseSafe(b, j, k);
    SafePairFacts(b[i], b[j]);
    SafePairFacts(b[i], b[k]);
    SafePairFacts(b[j], b[k]);
  }

  lemma SharedBatch(s: Schedule, k: nat)
    requires IsSchedule(s) && k < |s.batches|
    ensures s.batches[k] != []
    ensures |s.batches[k]| > 1 ==> Compatible(s.batches[k]) && !s.allSingleton
  {
    var h := HeadOf(s, k);
    if !IsQuietEntry(s.queue[h]) {
      ScanCompatible(s.view, s.queue, Placed(s.batches[..k]), [s.queue[h]], 0);
    }
  }

  /** Members of a batch are pairwise kSafe, at most four, all right turns from three
      on; QUIET, left-turning and unknown-direction vehicles cross alone. */
  lemma BatchShape(s: Schedule, k: nat)
    requires IsSchedule(s) && k < |s.batches|
    ensures var b := s.batches[k];
      && 1 <= |b| <= 4
      && (forall i, j :: 0 <= i < |b| && 0 <= j < |b| && i != j ==> SafePair(b[i], b[j]))
      && (|b| >= 3 ==> forall i :: 0 <= i < |b| ==> b[i].direction == 2)
      && (forall i :: 0 <= i < |b| && (b[i].direction == 1 || b[i].direction >= 3) ==> |b| == 1)
      && (forall i :: 0 <= i < |b| && (b[i].cyberStatus == 0 || b[i].simTimeUs == 0xFFFF_FFFF_FFFF_FFFF) ==> |b| == 1)
      && (s.allSingleton ==> |b| == 1)
  {
    var b := s.batches[k];
    SharedBatch(s, k);
    if |b| > 1 {
      CompatibleShape(b);
      forall i, j | 0 <= i < |b| && 0 <= j < |b| && i != j ensures SafePair(b[i], b[j]) {
        PairwiseSafe(b, i, j);
      }
    }
  }

  // ----- greedy saturation

  lemma ClosedBatchSaturated(s: Schedule, k: nat, c: VehicleEntry)
    requires IsSchedule(s) && !s.allSingleton && k < |s.batches|
    requires s.batches[k] != [] && !IsQuietEntry(s.batches[k][0])
    requires c in s.view
    ensures !CanJoin(c, s.view, Placed(s.batches[..k + 1]), s.batches[k])
  {
    SameElements(s.queue, s.view);
    FlattenSplit(s.batches, k);
    var h := HeadOf(s, k);
    ScanSaturates(s.view, s.queue, Placed(s.batches[..k]), [s.queue[h]], 0);
    var i :| 0 <= i < |s.queue| && s.queue[i] == c;
  }

  /** Nobody could have joined a closed batch: a later vehicle that is not QUIET and
      whose lane predecessors have all been placed conflicts with a member. */
  lemma ClosedBatchesAreMaximal(s: Schedule, k: nat, c: VehicleEntry) returns (m: VehicleEntry)
    requires IsSchedule(s) && !s.allSingleton && k < |s.batches|
    requires s.batches[k] != [] && !IsQuietEntry(s.batches[k][0])
    requires c in s.view && !IsQuietEntry(c)
    requires Schedulable(c, s.view, Placed(s.batches[..k + 1]))
    ensures m in s.batches[k] && !SafePair(c, m)
  {
    ClosedBatchSaturated(s, k, c);
    m :| m in s.batches[k] && !SafePair(c, m);
  }

  // ----- who makes up a batch, read off the queue

  /** The placed ids are those of the vehicles in the earlier batches. */
  lemma PlacedMeans(batches: seq<seq<VehicleEntry>>, k: nat, id: int32)
    requires k <= |batches|
    ensures id in Placed(batches[..k]) <==> exists j, e :: 0 <= j < k && e in batches[j] && e.replicaId == id
  {
    if id in Placed(batches[..k]) {
      var e :| e in Flatten(batches[..k]) && e.replicaId == id;
      var j := BatchIndex(batches[..k], e);
      assert e in batches[j];
    }
    if j, e :| 0 <= j < k && e in batches[j] && e.replicaId == id { PlacedAfter(batches, j, k, e); }
  }

  /** A batch is headed by the first queued vehicle that is not placed and has everybody in
      front of it in its lane placed in earlier batches. */
  lemma HeadIsFirst(s: Schedule, k: nat) returns (h: nat)
    requires IsSchedule(s) && k < |s.batches|
    ensures h < |s.queue| && s.batches[k] != [] && s.batches[k][0] == s.queue[h]
    ensures var before := Placed(s.batches[..k]);
      forall i :: 0 <= i <= h ==>
        (i == h <==> (s.queue[i].replicaId !in before
          && forall v :: v in s.view && AheadInLane(v, s.queue[i]) ==> v.replicaId in before))
  {
    h := HeadOf(s, k);
  }

  /** Behind the head, the members of a batch stand in queue order. */
  lemma JoinOrder(s: Schedule, k: nat, x: nat, y: nat, i: nat, j: nat)
    requires IsSchedule(s) && k < |s.batches| && 1 <= x < y < |s.batches[k]|
    requires i < |s.queue| && s.queue[i] == s.batches[k][x]
    requires j < |s.queue| && s.queue[j] == s.batches[k][y]
    ensures i < j
  {
    var h := HeadOf(s, k);
    PermutationDistinct(s.view, s.queue);
    ScanOrder(s.view, s.queue, Placed(s.batches[..k]), s.queue[h], s.batches[k], x, i, y, j);
  }

  lemma ScanOrder(view: seq<VehicleEntry>, q: seq<VehicleEntry>, before: set<int32>, head: VehicleEntry,
                  b: seq<VehicleEntry>, x: nat, i: nat, y: nat, j: nat)
    requires DistinctIds(q) && b == Scan(view, q, before, [head], 0) && 1 <= x < y < |b|
    requires i < |q| && q[i] == b[x] && j < |q| && q[j] == b[y]
    ensures i < j
  {
    var at := ScanPlaces(view, q, before, [head], 0);
    OnePlace(q, at[x - 1], i);
    OnePlace(q, at[y - 1], j);
  }

  lemma OnePlace(q: seq<VehicleEntry>, i: nat, j: nat)
    requires DistinctIds(q) && i < |q| && j < |q| && q[i] == q[j]
    ensures i == j
  {
  }

  /** A waiting vehicle whose lane is clear, and which is not QUIET, is kept out of a batch that
      is open to others only by its head or by a member queued before it. */
  lemma EarlierConflict(s: Schedule, k: nat, j: nat) returns (m: VehicleEntry)
    requires IsSchedule(s) && !s.allSingleton && k < |s.batches| && j < |s.queue|
    requires s.batches[k] != [] && !IsQuietEntry(s.batches[k][0])
    requires !IsQuietEntry(s.queue[j]) && AllSameLaneFrontPlaced(s.queue[j], s.view, Placed(s.batches[..k]))
    requires s.queue[j].replicaId !in Placed(s.batches[..k + 1])
    ensures m in s.batches[k] && !SafePair(s.queue[j], m)
    ensures m == s.batches[k][0] || m in s.queue[..j]
  {
    FlattenSplit(s.batches, k);
    var h := HeadOf(s, k);
    m := ScanPassed(s.view, s.queue, Placed(s.batches[..k]), [s.queue[h]], 0, j);
  }

  lemma MemberFacts(s: Schedule, k: nat, c: VehicleEntry)
    requires IsSchedule(s) && k < |s.batches| && s.batches[k] != [] && c in s.batches[k] && c != s.batches[k][0]
    ensures !IsQuietEntry(c) && c.replicaId !in Placed(s.batches[..k])
    ensures AllSameLaneFrontPlaced(c, s.view, Placed(s.batches[..k]))
    ensures forall m :: m in s.batches[k] && m != c ==> SafePair(c, m)
  {
    NotPlacedBefore(s.batches, k, c);
    BatchRespectsLanes(s, k, c);
    SharedBatch(s, k);
    SafeAmong(s.batches[k], c);
  }

  lemma SafeAmong(b: seq<VehicleEntry>, c: VehicleEntry)
    requires b != [] && c in b && c != b[0] && (|b| > 1 ==> Compatible(b))
    ensures !IsQuietEntry(c) && forall m :: m in b && m != c ==> SafePair(c, m)
  {
    var y :| 0 <= y < |b| && b[y] == c;
    forall m | m in b && m != c ensures SafePair(c, m) {
      var x :| 0 <= x < |b| && b[x] == m;
      PairwiseSafe(b, y, x);
    }
  }

  /** Exactly who joins: a queued vehicle other than the head is a member of a batch that is open
      to others if and only if it is not QUIET, not placed before, everybody in front of it in its
      lane is, and its movement is safe with that of the head and of every member queued before it. */
  lemma JoinsIff(s: Schedule, k: nat, j: nat)
    requires IsSchedule(s) && !s.allSingleton && k < |s.batches| && j < |s.queue| && s.batches[k] != []
    requires s.batches[k][0].cyberStatus != 0 && s.batches[k][0].simTimeUs != 0xFFFF_FFFF_FFFF_FFFF
    requires s.queue[j] != s.batches[k][0]
    ensures var before, c := Placed(s.batches[..k]), s.queue[j];
      c in s.batches[k] <==>
        && c.cyberStatus != 0 && c.simTimeUs != 0xFFFF_FFFF_FFFF_FFFF
        && c.replicaId !in before
        && (forall v :: v in s.view && AheadInLane(v, c) ==> v.replicaId in before)
        && SafePair(c, s.batches[k][0])
        && (forall i :: 0 <= i < j && s.queue[i] in s.batches[k] ==> SafePair(c, s.queue[i]))
  {
    SameElements(s.queue, s.view);
    if s.queue[j] in s.batches[k] {
      JoinsOnlyIf(s, k, j);
    } else if MayJoin(s, k, j) {
      JoinsIf(s, k, j);
    }
  }

  /** What the theorem asks of a joiner. */
  ghost predicate MayJoin(s: Schedule, k: nat, j: nat)
    requires k < |s.batches| && j < |s.queue| && s.batches[k] != []
  {
    && !IsQuietEntry(s.queue[j]) && s.queue[j].replicaId !in Placed(s.batches[..k])
    && AllSameLaneFrontPlaced(s.queue[j], s.view, Placed(s.batches[..k]))
    && SafePair(s.queue[j], s.batches[k][0])
    && forall i :: 0 <= i < j && s.queue[i] in s.batches[k] ==> SafePair(s.queue[j], s.queue[i])
  }

  lemma JoinsOnlyIf(s: Schedule, k: nat, j: nat)
    requires IsSchedule(s) && k < |s.batches| && j < |s.queue| && s.batches[k] != []
    requires s.queue[j] in s.batches[k] && s.queue[j] != s.batches[k][0]
    ensures MayJoin(s, k, j)
  {
    MemberFacts(s, k, s.queue[j]);
    PermutationDistinct(s.view, s.queue);
    assert s.batches[k][0] in s.batches[k];
    forall i | 0 <= i < j && s.queue[i] in s.batches[k] ensures SafePair(s.queue[j], s.queue[i]) {
      assert s.queue[i].replicaId != s.queue[j].replicaId;
    }
  }

  lemma JoinsIf(s: Schedule, k: nat, j: nat)
    requires IsSchedule(s) && !s.allSingleton && k < |s.batches| && j < |s.queue| && s.batches[k] != []
    requires !IsQuietEntry(s.batches[k][0]) && s.queue[j] in s.view && MayJoin(s, k, j)
    ensures s.queue[j] in s.batches[k]
  {
    if s.queue[j] !in s.batches[k] {
      NotAMember(s, k, s.queue[j]);
      var m := EarlierConflict(s, k, j);
      SafeWithEarlier(s, k, j, m);
    }
  }

  lemma SafeWithEarlier(s: Schedule, k: nat, j: nat, m: VehicleEntry)
    requires k < |s.batches| && j < |s.queue| && s.batches[k] != [] && MayJoin(s, k, j)
    requires m in s.batches[k] && (m == s.batches[k][0] || m in s.queue[..j])
    ensures SafePair(s.queue[j], m)
  {
  }

  lemma NotAMember(s: Schedule, k: nat, c: VehicleEntry)
    requires IsSchedule(s) && k < |s.batches| && c in s.view && c !in s.batches[k]
    requires c.replicaId !in Placed(s.batches[..k])
    ensures c.replicaId !in Placed(s.batches[..k + 1])
  {
    FlattenSplit(s.batches, k);
    if c.replicaId in Ids(s.batches[k]) {
      var e :| e in s.batches[k] && e.replicaId == c.replicaId;
      InFlatten(s.batches, k, e);
      SameIdSameEntry(s.view, e, c);
    }
  }

  // ----- length of the schedule

  ghost function LaneAhead(view: seq<VehicleEntry>, a: VehicleEntry): set<VehicleEntry> {
    set u | u in view && AheadInLane(u, a)
  }

  /** A rear-most element. */
  lemma {:induction false} RearMost(s: set<VehicleEntry>) returns (m: VehicleEntry)
    requires s != {}
    ensures m in s && forall x :: x in s ==> !Ahead(m, x)
    decreases |s|
  {
    m :| m in s;
    var rest := s - {m};
    if rest != {} {
      var r := RearMost(rest);
      assert forall x :: x in s ==> x == m || x in rest;
      if Ahead(m, r) { m := r; }
    }
  }

  /** Of a set of same-lane vehicles, all but the rear-most stand in front of it. */
  lemma AllButRearMost(view: seq<VehicleEntry>, s: set<VehicleEntry>, lane: byte, m: VehicleEntry)
    requires DistinctIds(view) && m in s
    requires forall x :: x in s ==> x in view && x.lane == lane
    requires forall x :: x in view && x.lane == lane && !Ahead(m, x) ==> x in s
    requires forall x :: x in s ==> !Ahead(m, x)
    ensures LaneAhead(view, m) == s - {m}
  {
    forall x | x in s && x != m ensures AheadInLane(x, m) {
      if x.replicaId == m.replicaId { SameIdSameEntry(view, x, m); }
    }
  }

  /** Whatever assigns increasing slots along lanes gives `a` at least as many slots
      in front as there are vehicles in front. */
  lemma {:induction false} LaneDepthBound(view: seq<VehicleEntry>, slot: VehicleEntry -> nat, a: VehicleEntry)
    requires DistinctIds(view) && a in view
    requires forall u, v :: u in view && v in view && AheadInLane(u, v) ==> slot(u) < slot(v)
    ensures |LaneAhead(view, a)| <= slot(a)
    decreases LaneKey(a)
  {
    var s := LaneAhead(view, a);
    if s != {} {
      var m := RearMost(s);
      AllButRearMost(view, s, a.lane, m);
      LaneDepthBound(view, slot, m);
    }
  }

  /** The slots a schedule assigns. */
  ghost function SlotOf(batches: seq<seq<VehicleEntry>>): VehicleEntry -> nat {
    (e: VehicleEntry) => if e in Flatten(batches) then BatchIndex(batches, e) else 0
  }

  lemma SlotsAreFifo(s: Schedule)
    requires IsSchedule(s)
    ensures forall u, v :: u in s.view && v in s.view && AheadInLane(u, v) ==>
      SlotOf(s.batches)(u) < SlotOf(s.batches)(v)
  {
    forall u, v | u in s.view && v in s.view && AheadInLane(u, v)
      ensures SlotOf(s.batches)(u) < SlotOf(s.batches)(v)
    {
      StrictFifo(s, u, v);
    }
  }

  lemma {:induction false} NonEmptyBatches(batches: seq<seq<VehicleEntry>>)
    requires forall b :: b in batches ==> b != []
    ensures |batches| <= |Flatten(batches)|
  {
    if batches != [] {
      var n := |batches| - 1;
      assert batches[n] in batches && batches[n] != [];
      assert forall b :: b in batches[..n] ==> b in batches;
      NonEmptyBatches(batches[..n]);
    }
  }

  /** The longest lane is a lower bound on the number of batches, the vehicle count an upper one. */
  lemma ScheduleLength(s: Schedule, lane: byte)
    requires IsSchedule(s)
    ensures |set e | e in s.view && e.lane == lane| <= |s.batches| <= |s.view|
  {
    NonEmptyBatches(s.batches);
    IdsCardinality(Flatten(s.batches));
    IdsCardinality(s.view);
    var members := set e | e in s.view && e.lane == lane;
    if members != {} {
      var m := RearMost(members);
      SlotsAreFifo(s);
      LaneDepthBound(s.view, SlotOf(s.batches), m);
      EveryoneScheduled(s, m);
      AllButRearMost(s.view, members, lane, m);
    }
  }
}
