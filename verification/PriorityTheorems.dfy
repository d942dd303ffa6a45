/** Emergency priority, and independence of the schedule from the payload order. */
module PriorityTheorems {
  import opened BridgeTypes
  import opened Sorting
  import opened QueueOrder
  import opened BatchPacker
  import opened ScheduleTheorems

  // ----- does the work queue keep lane order?

  /** Nobody is queued before a vehicle standing in front of it. */
  ghost predicate RespectsLanes(q: seq<VehicleEntry>) {
    forall i, j :: 0 <= i < j < |q| ==> !AheadInLane(q[j], q[i])
  }

  /** An ambulance that is not signed stands in front of a signed one. */
  ghost predicate UnsignedInFront(u: VehicleEntry, a: VehicleEntry) {
    a.isAmbulance != 0 && a.cyberStatus == 1 && u.isAmbulance != 0 && u.cyberStatus != 1 && AheadInLane(u, a)
  }

  lemma PriorityGroup(entries: seq<VehicleEntry>, a: VehicleEntry)
    requires a in entries && HasPriority(a)
    ensures Group(Ambulances(entries), a) < |Ambulances(entries)|
  {
    AmbulancesSorted(entries);
    var i :| 0 <= i < |Ambulances(entries)| && Ambulances(entries)[i] == a;
    assert Covers(Ambulances(entries)[i], a);
  }

  /** A certified ambulance in front of `v`, which group `g` covers, is in group `g` or earlier. */
  lemma CertifiedInFront(entries: seq<VehicleEntry>, u: VehicleEntry, g: nat)
    requires g < |Ambulances(entries)| && u in entries && HasPriority(u)
    requires AheadInLane(u, Ambulances(entries)[g])
    ensures Group(Ambulances(entries), u) < g
  {
    var ambs := Ambulances(entries);
    AmbulancesSorted(entries);
    assert u in ambs;
    var h :| 0 <= h < |ambs| && ambs[h] == u;
    assert Covers(ambs[h], u);
  }

  /** A vehicle ranked behind one it stands in front of is an unsigned ambulance in front of a
      signed one. */
  lemma OutOfOrder(entries: seq<VehicleEntry>, u: VehicleEntry, v: VehicleEntry) returns (a: VehicleEntry)
    requires u in entries && v in entries && AheadInLane(u, v)
    requires QueueBefore(Ambulances(entries), v, u)
    ensures a in entries && UnsignedInFront(u, a)
  {
    var ambs := Ambulances(entries);
    AmbulancesSorted(entries);
    var g := Group(ambs, v);
    a := ambs[g];
    assert Covers(a, v) && AheadInLane(u, a);
    assert !Covers(a, u);
    if HasPriority(u) { CertifiedInFront(entries, u, g); }
  }

  lemma UncertifiedRanksLast(entries: seq<VehicleEntry>, u: VehicleEntry)
    requires u.isAmbulance != 0 && !HasPriority(u)
    ensures Group(Ambulances(entries), u) == |Ambulances(entries)|
  {
    AmbulancesSorted(entries);
    var ambs := Ambulances(entries);
    forall k | 0 <= k < |ambs| ensures !Covers(ambs[k], u) {
      assert ambs[k] in ambs;
    }
  }

  /** Rank decides the place in the queue. */
  lemma QueuePosition(ambs: seq<VehicleEntry>, q: seq<VehicleEntry>, i: nat, j: nat)
    requires i < |q| && j < |q| && RankSorted(ambs, q) && QueueBefore(ambs, q[i], q[j])
    ensures i < j
  {
  }

  lemma NoUnsignedInFront(entries: seq<VehicleEntry>, q: seq<VehicleEntry>)
    requires DistinctIds(entries) && IsWorkQueue(entries, q)
    requires forall u, a :: u in entries && a in entries ==> !UnsignedInFront(u, a)
    ensures RespectsLanes(q)
  {
    SameElements(q, entries);
    forall i, j | 0 <= i < j < |q| ensures !AheadInLane(q[j], q[i]) {
      assert QueueBefore(Ambulances(entries), q[i], q[j]);
      if AheadInLane(q[j], q[i]) { var a := OutOfOrder(entries, q[j], q[i]); }
    }
  }

  lemma UnsignedBreaksLane(entries: seq<VehicleEntry>, q: seq<VehicleEntry>, u: VehicleEntry, a: VehicleEntry)
    requires DistinctIds(entries) && IsWorkQueue(entries, q)
    requires u in entries && a in entries && UnsignedInFront(u, a)
    ensures !RespectsLanes(q)
  {
    SameElements(q, entries);
    PriorityGroup(entries, a);
    UncertifiedRanksLast(entries, u);
    var i :| 0 <= i < |q| && q[i] == a;
    var j :| 0 <= j < |q| && q[j] == u;
    QueuePosition(Ambulances(entries), q, i, j);
    assert AheadInLane(q[j], q[i]);
  }

  /** The work queue keeps lane order exactly when no unsigned ambulance stands in front of a
      signed one; proposals checked against a certificate snapshot contain no unsigned
      ambulance at all. */
  lemma QueueRespectsLanes(entries: seq<VehicleEntry>, q: seq<VehicleEntry>)
    requires DistinctIds(entries) && IsWorkQueue(entries, q)
    ensures (forall i, j :: 0 <= i < j < |q| ==> !AheadInLane(q[j], q[i])) <==>
      forall u, a :: (u in entries && a in entries && u.isAmbulance != 0 && u.cyberStatus != 1
        && a.isAmbulance != 0 && a.cyberStatus == 1) ==> !AheadInLane(u, a)
  {
    if u, a :| u in entries && a in entries && UnsignedInFront(u, a) {
      UnsignedBreaksLane(entries, q, u, a);
    } else {
      NoUnsignedInFront(entries, q);
    }
  }

  // ----- batches follow the queue

  /** Everybody standing in front of one of the first `n` queued vehicles is queued before it. */
  ghost predicate PrefixClosed(s: Schedule, n: nat) {
    match s
    case Schedule(view, q, _, _) =>
      n <= |q| && forall i, u :: 0 <= i < n && u in view && AheadInLane(u, q[i]) ==> u in q[..i]
  }

  lemma QueuedInFront(q: seq<VehicleEntry>, i: nat, u: VehicleEntry)
    requires RespectsLanes(q) && i < |q| && u in q && AheadInLane(u, q[i])
    ensures u in q[..i]
  {
    var j :| 0 <= j < |q| && q[j] == u;
    assert j < i ==> q[..i][j] == u;
  }

  lemma RespectsLanesClosed(s: Schedule)
    requires multiset(s.queue) == multiset(s.view) && RespectsLanes(s.queue)
    ensures PrefixClosed(s, |s.queue|)
  {
    var view, q := s.view, s.queue;
    SameElements(q, view);
    forall i, u | 0 <= i < |q| && u in view && AheadInLane(u, q[i]) ensures u in q[..i] {
      QueuedInFront(q, i, u);
    }
  }

  lemma IdsTake(q: seq<VehicleEntry>, k: nat)
    requires k < |q|
    ensures Ids(q[..k + 1]) == Ids(q[..k]) + {q[k].replicaId}
  {
    assert q[..k + 1] == q[..k] + [q[k]];
    IdsConcat(q[..k], [q[k]]);
    assert Ids([q[k]]) == {q[k].replicaId};
  }

  /** After `k` batches the first `k` queued vehicles have crossed. */
  ghost predicate OnTime(s: Schedule, k: nat) {
    match s
    case Schedule(_, q, _, batches) =>
      k <= |q| && k <= |batches| && Ids(q[..k]) <= Placed(batches[..k])
  }

  /** If the first `k` queued vehicles are placed, the next one heads the next batch. */
  lemma NextQueuedHeads(s: Schedule, n: nat, k: nat)
    requires IsSchedule(s) && PrefixClosed(s, n)
    requires k < n && k < |s.batches| && OnTime(s, k)
    requires s.queue[k].replicaId !in Placed(s.batches[..k])
    ensures s.queue[k] in s.batches[k]
  {
    var before := Placed(s.batches[..k]);
    var h := HeadOf(s, k);
    forall i | 0 <= i < k ensures !Schedulable(s.queue[i], s.view, before) {
      assert s.queue[i] in s.queue[..k];
    }
    assert Schedulable(s.queue[k], s.view, before);
    assert h == k;
    assert s.batches[k][0] in s.batches[k];
  }

  lemma OnTimeStep(s: Schedule, n: nat, k: nat)
    requires IsSchedule(s) && PrefixClosed(s, n) && k < n && k < |s.batches| && OnTime(s, k)
    ensures OnTime(s, k + 1)
  {
    IdsTake(s.queue, k);
    FlattenSplit(s.batches, k);
    if s.queue[k].replicaId !in Placed(s.batches[..k]) {
      NextQueuedHeads(s, n, k);
      assert s.queue[k].replicaId in Ids(s.batches[k]);
    }
  }

  lemma {:induction false} OnTimeInduction(s: Schedule, k: nat)
    requires forall j :: 0 <= j < k && OnTime(s, j) ==> OnTime(s, j + 1)
    ensures OnTime(s, k)
  {
    if k == 0 {
      assert Ids(s.queue[..0]) == {};
    } else {
      OnTimeInduction(s, k - 1);
    }
  }

  lemma PrefixOnTime(s: Schedule, n: nat, k: nat)
    requires IsSchedule(s) && PrefixClosed(s, n) && k <= n && k <= |s.batches|
    ensures OnTime(s, k)
  {
    forall j | 0 <= j < k && OnTime(s, j) ensures OnTime(s, j + 1) {
      OnTimeStep(s, n, j);
    }
    OnTimeInduction(s, k);
  }

  /** The i-th queued vehicle crosses in batch `i` or earlier. */
  lemma QueueIndexBound(s: Schedule, n: nat, i: nat)
    requires IsSchedule(s) && PrefixClosed(s, n) && i < n
    ensures s.queue[i] in Flatten(s.batches) && BatchIndex(s.batches, s.queue[i]) <= i
  {
    SameElements(s.queue, s.view);
    EveryoneScheduled(s, s.queue[i]);
    if i < |s.batches| {
      PrefixOnTime(s, n, i + 1);
      IdsTake(s.queue, i);
      PlacedIffEarlier(s.batches, i + 1, s.queue[i]);
    }
  }

  lemma FirstUnplaced(s: Schedule, before: set<int32>, j: nat) returns (f: nat)
    requires PrefixClosed(s, |s.queue|) && j < |s.queue| && s.queue[j].replicaId !in before
    ensures f <= j && Schedulable(s.queue[f], s.view, before)
  {
    var view, q := s.view, s.queue;
    f := 0;
    while q[f].replicaId in before
      invariant f <= j && forall i :: 0 <= i < f ==> q[i].replicaId in before
      decreases j - f
    {
      f := f + 1;
    }
    forall u | u in view && AheadInLane(u, q[f]) ensures u.replicaId in before {
      assert u in q[..f];
    }
  }

  lemma HeadNotLater(s: Schedule, k: nat, j: nat) returns (h: nat)
    requires IsSchedule(s) && RespectsLanes(s.queue) && k < |s.batches|
    requires j < |s.queue| && s.queue[j].replicaId !in Placed(s.batches[..k])
    ensures h <= j && s.batches[k] != [] && s.batches[k][0] == s.queue[h]
  {
    RespectsLanesClosed(s);
    h := HeadOf(s, k);
    var f := FirstUnplaced(s, Placed(s.batches[..k]), j);
  }

  lemma QueueRanks(s: Schedule, h: nat, j: nat)
    requires IsSchedule(s) && h <= j < |s.queue|
    ensures h == j || QueueBefore(Ambulances(s.view), s.queue[h], s.queue[j])
  {
    assert RankSorted(Ambulances(s.view), s.queue);
  }

  lemma HeadRank(s: Schedule, k: nat, v: VehicleEntry)
    requires IsSchedule(s) && RespectsLanes(s.queue) && k < |s.batches|
    requires v in s.view && v.replicaId !in Placed(s.batches[..k])
    ensures s.batches[k] != []
    ensures v == s.batches[k][0] || QueueBefore(Ambulances(s.view), s.batches[k][0], v)
  {
    SameElements(s.queue, s.view);
    var j :| 0 <= j < |s.queue| && s.queue[j] == v;
    var h := HeadNotLater(s, k, j);
    QueueRanks(s, h, j);
  }

  /** Every batch is headed by the highest-ranked vehicle still waiting: while a signed ambulance
      or a vehicle it waits for is not placed, the head is served with that ambulance or an earlier
      one, and no vehicle waiting with the same ambulances stands in front of the head. */
  lemma HeadsByRank(s: Schedule, k: nat, v: VehicleEntry)
    requires IsSchedule(s) && k < |s.batches|
    requires forall i, j :: 0 <= i < j < |s.queue| ==> !AheadInLane(s.queue[j], s.queue[i])
    requires v in s.view && v.replicaId !in Placed(s.batches[..k])
    ensures s.batches[k] != []
    ensures var head := s.batches[k][0];
      head == v ||
      (&& (forall b :: ServedWith(s.view, v, b) ==>
             exists a :: ServedWith(s.view, head, a) && (a == b || Ahead(a, b)))
       && (!Ahead(head, v) ==>
             exists a :: ServedWith(s.view, head, a) && forall b :: ServedWith(s.view, v, b) ==> Ahead(a, b)))
  {
    HeadRank(s, k, v);
    if s.batches[k][0] != v { RankByAmbulance(s.view, s.batches[k][0], v); }
  }

  // ----- the first ambulance

  lemma DistinctSetSize(s: seq<VehicleEntry>)
    requires DistinctIds(s)
    ensures |set e | e in s| == |s|
  {
    if s != [] {
      var t := s[..|s| - 1];
      DistinctSetSize(t);
      assert (set e | e in s) == (set e | e in t) + {s[|s| - 1]};
      assert s[|s| - 1] !in t;
    }
  }

  /** The vehicles in front of the front-most ambulance are served with it. */
  lemma FrontOfFirst(view: seq<VehicleEntry>, u: VehicleEntry)
    requires Ambulances(view) != [] && u in view && AheadInLane(u, Ambulances(view)[0])
    requires !UnsignedInFront(u, Ambulances(view)[0])
    ensures Group(Ambulances(view), u) == 0 && Group(Ambulances(view), Ambulances(view)[0]) == 0
  {
    AmbulancesSorted(view);
    assert Ambulances(view)[0] in Ambulances(view);
    if HasPriority(u) { CertifiedInFront(view, u, 0); }
    assert Covers(Ambulances(view)[0], u);
    assert Covers(Ambulances(view)[0], Ambulances(view)[0]);
  }

  /** The vehicles queued before the front-most ambulance are those in front of it in its lane. */
  lemma QueuedBeforeFirst(view: seq<VehicleEntry>, q: seq<VehicleEntry>, p: nat)
    requires IsWorkQueue(view, q) && Ambulances(view) != []
    requires p < |q| && q[p] == Ambulances(view)[0]
    requires forall u :: u in view ==> !UnsignedInFront(u, q[p])
    ensures (set e | e in q[..p]) == LaneAhead(view, q[p])
  {
    var ambs := Ambulances(view);
    SameElements(q, view);
    forall u | u in LaneAhead(view, q[p]) ensures u in q[..p] {
      FrontOfFirst(view, u);
      var j :| 0 <= j < |q| && q[j] == u;
      QueuePosition(ambs, q, j, p);
      assert q[..p][j] == u;
    }
    assert Covers(ambs[0], q[p]);
    forall e | e in q[..p] ensures e in LaneAhead(view, q[p]) {
      var j :| 0 <= j < p && q[j] == e;
      assert QueueBefore(ambs, q[j], q[p]);
      assert Covers(ambs[Group(ambs, e)], e);
    }
  }

  lemma FirstAmbulancePrefix(s: Schedule, p: nat)
    requires IsSchedule(s) && Ambulances(s.view) != []
    requires p < |s.queue| && s.queue[p] == Ambulances(s.view)[0]
    requires forall u :: u in s.view ==> !UnsignedInFront(u, s.queue[p])
    ensures PrefixClosed(s, p + 1) && p == |LaneAhead(s.view, s.queue[p])|
  {
    var view, q := s.view, s.queue;
    var ambs := Ambulances(view);
    QueuedBeforeFirst(view, q, p);
    SameElements(q, view);
    PermutationDistinct(view, q);
    assert DistinctIds(q[..p]);
    DistinctSetSize(q[..p]);
    forall i, u | 0 <= i < p + 1 && u in view && AheadInLane(u, q[i]) ensures u in q[..i] {
      if i < p {
        assert q[i] in q[..p];
        assert q[i] in LaneAhead(view, q[p]);
        FrontOfFirst(view, q[i]);
      }
      FrontOfFirst(view, u);
      var j :| 0 <= j < |q| && q[j] == u;
      QueuePosition(ambs, q, j, i);
      assert q[..i][j] == u;
    }
  }

  /** A signed ambulance that no other precedes is the first to be served. */
  lemma FirstAmbulance(view: seq<VehicleEntry>, a: VehicleEntry)
    requires DistinctIds(view) && a in view && a.isAmbulance != 0 && a.cyberStatus == 1
    requires forall b :: b in view && b.isAmbulance != 0 && b.cyberStatus == 1 ==> a == b || Ahead(a, b)
    ensures Ambulances(view) != [] && Ambulances(view)[0] == a
  {
    var ambs := Ambulances(view);
    AmbulancesSorted(view);
    StrictlyAhead(ambs);
    var i :| 0 <= i < |ambs| && ambs[i] == a;
    assert ambs[0] in ambs;
  }

  /** The signed ambulance of least position and id crosses after exactly as many batches as
      vehicles stand in front of it in its lane, in either mode, and no assignment of
      slots that keeps lane order could let it cross earlier. */
  lemma AmbulanceOptimal(s: Schedule, a: VehicleEntry, slot: VehicleEntry -> nat)
    requires IsSchedule(s) && a in s.view && a.isAmbulance != 0 && a.cyberStatus == 1
    requires forall b :: b in s.view && b.isAmbulance != 0 && b.cyberStatus == 1 ==> a == b || Ahead(a, b)
    requires forall u :: u in s.view && u.isAmbulance != 0 && u.cyberStatus != 1 ==> !AheadInLane(u, a)
    requires forall u, v :: u in s.view && v in s.view && AheadInLane(u, v) ==> slot(u) < slot(v)
    ensures a in Flatten(s.batches)
    ensures BatchIndex(s.batches, a) == |set u | u in s.view && AheadInLane(u, a)|
    ensures BatchIndex(s.batches, a) <= slot(a)
  {
    FirstAmbulance(s.view, a);
    SameElements(s.queue, s.view);
    var p :| 0 <= p < |s.queue| && s.queue[p] == a;
    FirstAmbulancePrefix(s, p);
    QueueIndexBound(s, p + 1, p);
    SlotsAreFifo(s);
    LaneDepthBound(s.view, SlotOf(s.batches), a);
    LaneDepthBound(s.view, slot, a);
    assert LaneAhead(s.view, a) == set u | u in s.view && AheadInLane(u, a);
  }

  /** No vehicle crosses before as many batches as there are vehicles ahead of it in its lane. */
  lemma NeverEarly(s: Schedule, e: VehicleEntry)
    requires IsSchedule(s) && e in s.view
    ensures e in Flatten(s.batches) && |set u | u in s.view && AheadInLane(u, e)| <= BatchIndex(s.batches, e)
  {
    EveryoneScheduled(s, e);
    SlotsAreFifo(s);
    LaneDepthBound(s.view, SlotOf(s.batches), e);
    assert LaneAhead(s.view, e) == set u | u in s.view && AheadInLane(u, e);
  }

  // ----- the schedule does not depend on the order of the payload

  ghost function RankLE(ambs: seq<VehicleEntry>): (VehicleEntry, VehicleEntry) -> bool {
    (a: VehicleEntry, b: VehicleEntry) => a == b || QueueBefore(ambs, a, b)
  }

  lemma WorkQueueUnique(v1: seq<VehicleEntry>, q1: seq<VehicleEntry>, v2: seq<VehicleEntry>, q2: seq<VehicleEntry>)
    requires DistinctIds(v1) && multiset(v1) == multiset(v2)
    requires IsWorkQueue(v1, q1) && IsWorkQueue(v2, q2)
    ensures q1 == q2
  {
    SelectPermutes(v1, v2, HasPriority);
    AmbulancesSorted(v1);
    AmbulancesSorted(v2);
    SortedUnique(Ambulances(v1), Ambulances(v2));
    var le := RankLE(Ambulances(v1));
    assert SortedBy(q1, le) && SortedBy(q2, le) && NoTies(q1, le);
    SortedPermutationUnique(q1, q2, le);
  }

  lemma SchedulableSame(v1: seq<VehicleEntry>, v2: seq<VehicleEntry>, c: VehicleEntry, placed: set<int32>)
    requires forall e :: e in v1 <==> e in v2
    ensures Schedulable(c, v1, placed) == Schedulable(c, v2, placed)
  {
  }

  lemma {:induction false} HeadSame(v1: seq<VehicleEntry>, v2: seq<VehicleEntry>, q: seq<VehicleEntry>,
                                    placed: set<int32>, i: nat)
    requires (forall e :: e in v1 <==> e in v2) && i <= |q|
    ensures HeadFrom(v1, q, placed, i) == HeadFrom(v2, q, placed, i)
    decreases |q| - i
  {
    if i < |q| {
      SchedulableSame(v1, v2, q[i], placed);
      HeadSame(v1, v2, q, placed, i + 1);
    }
  }

  lemma {:induction false} ScanSame(v1: seq<VehicleEntry>, v2: seq<VehicleEntry>, q: seq<VehicleEntry>,
                                    before: set<int32>, batch: seq<VehicleEntry>, i: nat)
    requires (forall e :: e in v1 <==> e in v2) && i <= |q|
    ensures Scan(v1, q, before, batch, i) == Scan(v2, q, before, batch, i)
    decreases |q| - i
  {
    if i < |q| {
      SchedulableSame(v1, v2, q[i], before + Ids(batch));
      ScanSame(v1, v2, q, before, batch + [q[i]], i + 1);
      ScanSame(v1, v2, q, before, batch, i + 1);
    }
  }

  /** Same vehicles, same queue, same mode. */
  ghost predicate SameInput(s1: Schedule, s2: Schedule) {
    && (forall e :: e in s1.view <==> e in s2.view)
    && s1.queue == s2.queue && s1.allSingleton == s2.allSingleton
  }

  lemma SameBatch(s1: Schedule, s2: Schedule, k: nat)
    requires IsSchedule(s1) && IsSchedule(s2) && SameInput(s1, s2)
    requires k < |s1.batches| && k < |s2.batches| && s1.batches[..k] == s2.batches[..k]
    ensures s1.batches[k] == s2.batches[k]
  {
    var before := Placed(s1.batches[..k]);
    HeadSame(s1.view, s2.view, s1.queue, before, 0);
    var h1 := HeadOf(s1, k);
    var h2 := HeadOf(s2, k);
    ScanSame(s1.view, s2.view, s1.queue, before, [s1.queue[h1]], 0);
  }

  lemma ExtendPrefix(b1: seq<seq<VehicleEntry>>, b2: seq<seq<VehicleEntry>>, k: nat)
    requires k < |b1| && k < |b2| && b1[..k] == b2[..k] && b1[k] == b2[k]
    ensures b1[..k + 1] == b2[..k + 1]
  {
    assert b1[..k + 1] == b1[..k] + [b1[k]];
    assert b2[..k + 1] == b2[..k] + [b2[k]];
  }

  lemma {:induction false} PrefixInduction(b1: seq<seq<VehicleEntry>>, b2: seq<seq<VehicleEntry>>, k: nat)
    requires k <= |b1| && k <= |b2|
    requires forall j :: 0 <= j < k && b1[..j] == b2[..j] ==> b1[j] == b2[j]
    ensures b1[..k] == b2[..k]
  {
    if k > 0 {
      PrefixInduction(b1, b2, k - 1);
      ExtendPrefix(b1, b2, k - 1);
    }
  }

  lemma SamePrefix(s1: Schedule, s2: Schedule, k: nat)
    requires IsSchedule(s1) && IsSchedule(s2) && SameInput(s1, s2)
    requires k <= |s1.batches| && k <= |s2.batches|
    ensures s1.batches[..k] == s2.batches[..k]
  {
    forall j | 0 <= j < k && s1.batches[..j] == s2.batches[..j] ensures s1.batches[j] == s2.batches[j] {
      SameBatch(s1, s2, j);
    }
    PrefixInduction(s1.batches, s2.batches, k);
  }

  lemma QueuedIsPlaced(s: Schedule, i: nat)
    requires IsSchedule(s) && i < |s.queue|
    ensures s.queue[i].replicaId in Placed(s.batches)
  {
    SameElements(s.queue, s.view);
    assert s.queue[i] in s.view;
  }

  lemma NoLonger(s1: Schedule, s2: Schedule)
    requires IsSchedule(s1) && IsSchedule(s2) && SameInput(s1, s2)
    ensures |s2.batches| <= |s1.batches|
  {
    var n := |s1.batches|;
    if n < |s2.batches| {
      SamePrefix(s1, s2, n);
      assert s1.batches[..n] == s1.batches;
      var h := HeadOf(s2, n);
      QueuedIsPlaced(s1, h);
    }
  }

  /** Two replicas that list the same entries in any order compute the same schedule. */
  lemma ScheduleAgreement(s1: Schedule, s2: Schedule)
    requires IsSchedule(s1) && IsSchedule(s2)
    requires multiset(s1.view) == multiset(s2.view) && s1.allSingleton == s2.allSingleton
    ensures s1.batches == s2.batches
  {
    WorkQueueUnique(s1.view, s1.queue, s2.view, s2.queue);
    SameElements(s1.view, s2.view);
    NoLonger(s1, s2);
    NoLonger(s2, s1);
    SamePrefix(s1, s2, |s1.batches|);
    assert s1.batches[..|s1.batches|] == s1.batches;
    assert s2.batches[..|s2.batches|] == s2.batches;
  }
}
