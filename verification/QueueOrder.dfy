/** The order in which the intersection scheduler considers vehicles.
    Line numbers refer to bridge/resdb_intersection_scheduler.cc. */
module QueueOrder {
  import opened BridgeTypes
  import opened Sorting

  function CompareLaneQueueOrder(a: VehicleEntry, b: VehicleEntry): int {
    if a.positionInLane != b.positionInLane then a.positionInLane - b.positionInLane
    else if a.replicaId < b.replicaId then -1
    else if a.replicaId > b.replicaId then 1
    else 0
  }

  predicate Ahead(a: VehicleEntry, b: VehicleEntry) {
    CompareLaneQueueOrder(a, b) < 0
  }

  /** `v` stands in front of `c` in the same lane. */
  predicate AheadInLane(v: VehicleEntry, c: VehicleEntry) {
    v.lane == c.lane && Ahead(v, c)
  }

  /** Vehicles stand by position and, at one position, by id: of two with different ids, one
      stands in front. */
  lemma PlaceOrder(a: VehicleEntry, b: VehicleEntry)
    ensures Ahead(a, b) <==> (a.positionInLane < b.positionInLane
      || (a.positionInLane == b.positionInLane && a.replicaId < b.replicaId))
    ensures AheadInLane(a, b) <==> a.lane == b.lane && Ahead(a, b)
    ensures a.replicaId != b.replicaId ==> (Ahead(a, b) <==> !Ahead(b, a))
  {
  }

  /** Comparator of the first two sorts: position, then replica id. */
  predicate QueueLE(a: VehicleEntry, b: VehicleEntry) {
    !Ahead(b, a)
  }

  /** Comparator of the last sort: position, replica id, then arrival time. */
  predicate RemainingLE(a: VehicleEntry, b: VehicleEntry) {
    if a.positionInLane != b.positionInLane then a.positionInLane < b.positionInLane
    else if a.replicaId != b.replicaId then a.replicaId < b.replicaId
    else a.simTimeUs <= b.simTimeUs
  }

  lemma ComparatorsAreOrders()
    ensures TotalPreorder(QueueLE) && TotalPreorder(RemainingLE)
  {
  }

  /** An ambulance whose status is SIGNED: the only kind the scheduler favours. */
  predicate HasPriority(e: VehicleEntry) {
    e.isAmbulance != 0 && e.cyberStatus == 1
  }

  /** `v` is a non-ambulance that must clear before ambulance `a` can cross. */
  predicate Blocks(v: VehicleEntry, a: VehicleEntry) {
    v.lane == a.lane && v.isAmbulance == 0 && Ahead(v, a)
  }

  function Blocking(a: VehicleEntry): VehicleEntry -> bool {
    (v: VehicleEntry) => Blocks(v, a)
  }

  function NotIn(ids: set<int32>): VehicleEntry -> bool {
    (v: VehicleEntry) => v.replicaId !in ids
  }

  /** Serving ambulance `a` puts `v` on the priority part of the queue. */
  predicate Covers(a: VehicleEntry, v: VehicleEntry) {
    v == a || Blocks(v, a)
  }

  /** The elements of `s` that satisfy `p`, in order. */
  function Select(s: seq<VehicleEntry>, p: VehicleEntry -> bool): seq<VehicleEntry> {
    if s == [] then []
    else Select(s[..|s| - 1], p) + (if p(s[|s| - 1]) then [s[|s| - 1]] else [])
  }

  lemma {:induction false} SelectCounts(s: seq<VehicleEntry>, p: VehicleEntry -> bool, e: VehicleEntry)
    ensures multiset(Select(s, p))[e] == if p(e) then multiset(s)[e] else 0
  {
    if s != [] {
      SelectCounts(s[..|s| - 1], p, e);
      assert s == s[..|s| - 1] + [s[|s| - 1]];
    }
  }

  lemma SelectElements(s: seq<VehicleEntry>, p: VehicleEntry -> bool)
    ensures forall e :: e in Select(s, p) <==> e in s && p(e)
  {
    forall e ensures e in Select(s, p) <==> e in s && p(e) {
      SelectCounts(s, p, e);
      assert e in Select(s, p) <==> e in multiset(Select(s, p));
      assert e in s <==> e in multiset(s);
    }
  }

  lemma {:induction false} DistinctCounts(s: seq<VehicleEntry>, e: VehicleEntry)
    requires DistinctIds(s)
    ensures multiset(s)[e] == if e in s then 1 else 0
  {
    if s != [] {
      var t := s[..|s| - 1];
      DistinctCounts(t, e);
      assert s == t + [s[|s| - 1]];
    }
  }

  lemma SelectDistinct(s: seq<VehicleEntry>, p: VehicleEntry -> bool)
    requires DistinctIds(s)
    ensures DistinctIds(Select(s, p))
  {
    if s != [] {
      var t := s[..|s| - 1];
      SelectDistinct(t, p);
      SelectElements(t, p);
      var r := Select(t, p);
      forall i | 0 <= i < |r| ensures r[i].replicaId != s[|s| - 1].replicaId {
        assert r[i] in t;
      }
    }
  }

  lemma SelectPermutes(s: seq<VehicleEntry>, t: seq<VehicleEntry>, p: VehicleEntry -> bool)
    requires multiset(s) == multiset(t)
    ensures multiset(Select(s, p)) == multiset(Select(t, p))
  {
    forall e ensures multiset(Select(s, p))[e] == multiset(Select(t, p))[e] {
      SelectCounts(s, p, e);
      SelectCounts(t, p, e);
    }
  }

  /** In a sequence with distinct ids, an id names its entry. */
  lemma SameIdSameEntry(s: seq<VehicleEntry>, a: VehicleEntry, b: VehicleEntry)
    requires DistinctIds(s) && a in s && b in s && a.replicaId == b.replicaId
    ensures a == b
  {
  }

  lemma DistinctPermutation(s: seq<VehicleEntry>, t: seq<VehicleEntry>)
    requires DistinctIds(s) && DistinctIds(t)
    requires forall e :: e in s <==> e in t
    ensures multiset(s) == multiset(t)
  {
    forall e ensures multiset(s)[e] == multiset(t)[e] {
      DistinctCounts(s, e);
      DistinctCounts(t, e);
    }
  }

  lemma PermutationDistinct(s: seq<VehicleEntry>, t: seq<VehicleEntry>)
    requires multiset(s) == multiset(t) && DistinctIds(s)
    ensures DistinctIds(t)
  {
    SameElements(s, t);
    forall i, j | 0 <= i < j < |t| ensures t[i].replicaId != t[j].replicaId {
      assert t[i] in s && t[j] in s;
      DistinctCounts(s, t[i]);
      if t[i] == t[j] { RepeatedElement(t, i, j); }
    }
  }

  lemma SortedUnique(s: seq<VehicleEntry>, t: seq<VehicleEntry>)
    requires multiset(s) == multiset(t) && DistinctIds(s)
    requires SortedBy(s, QueueLE) && SortedBy(t, QueueLE)
    ensures s == t
  {
    assert NoTies(s, QueueLE) by {
      forall i, j | 0 <= i < |s| && 0 <= j < |s| && QueueLE(s[i], s[j]) && QueueLE(s[j], s[i]) ensures s[i] == s[j] {
        assert s[i].replicaId == s[j].replicaId;
        SameIdSameEntry(s, s[i], s[j]);
      }
    }
    SortedPermutationUnique(s, t, QueueLE);
  }

  /** The certified ambulances, front-most first. */
  ghost function Ambulances(entries: seq<VehicleEntry>): seq<VehicleEntry> {
    Sort(Select(entries, HasPriority), QueueLE)
  }

  lemma AmbulancesSorted(entries: seq<VehicleEntry>)
    ensures SortedBy(Ambulances(entries), QueueLE)
    ensures multiset(Ambulances(entries)) == multiset(Select(entries, HasPriority))
    ensures forall e :: e in Ambulances(entries) <==> e in entries && e.isAmbulance != 0 && e.cyberStatus == 1
    ensures DistinctIds(entries) ==> DistinctIds(Ambulances(entries))
  {
    ComparatorsAreOrders();
    SortIsSortedPermutation(Select(entries, HasPriority), QueueLE);
    SameElements(Ambulances(entries), Select(entries, HasPriority));
    SelectElements(entries, HasPriority);
    if DistinctIds(entries) {
      SelectDistinct(entries, HasPriority);
      PermutationDistinct(Select(entries, HasPriority), Ambulances(entries));
    }
  }

  /** The first ambulance, from `i` on, whose service covers `v`; |ambs| if there is none. */
  ghost function GroupFrom(ambs: seq<VehicleEntry>, v: VehicleEntry, i: nat): (g: nat)
    requires i <= |ambs|
    ensures i <= g <= |ambs|
    ensures forall k :: i <= k < g ==> !Covers(ambs[k], v)
    ensures g < |ambs| ==> Covers(ambs[g], v)
    decreases |ambs| - i
  {
    if i == |ambs| then i else if Covers(ambs[i], v) then i else GroupFrom(ambs, v, i + 1)
  }

  ghost function Group(ambs: seq<VehicleEntry>, v: VehicleEntry): nat {
    GroupFrom(ambs, v, 0)
  }

  /** The service rank: by covering ambulance first, then by place in lane. */
  ghost predicate QueueBefore(ambs: seq<VehicleEntry>, u: VehicleEntry, v: VehicleEntry) {
    Group(ambs, u) < Group(ambs, v) || (Group(ambs, u) == Group(ambs, v) && Ahead(u, v))
  }

  ghost predicate RankSorted(ambs: seq<VehicleEntry>, q: seq<VehicleEntry>) {
    forall i, j :: 0 <= i < j < |q| ==> QueueBefore(ambs, q[i], q[j])
  }

  /** `a` is a signed ambulance among the entries, and `v` is that ambulance, or no ambulance at all
      and in front of it in its lane. */
  ghost predicate ServedWith(entries: seq<VehicleEntry>, v: VehicleEntry, a: VehicleEntry) {
    && a in entries && a.isAmbulance != 0 && a.cyberStatus == 1
    && (v == a || (v.isAmbulance == 0 && v.lane == a.lane && Ahead(v, a)))
  }

  /** What the service rank means, on the entries: whoever ranks behind is served with no earlier
      ambulance, and with a later one or none if it stands no further back. */
  lemma RankByAmbulance(entries: seq<VehicleEntry>, u: VehicleEntry, v: VehicleEntry)
    requires DistinctIds(entries) && QueueBefore(Ambulances(entries), u, v)
    ensures forall b :: ServedWith(entries, v, b) ==>
      exists a :: ServedWith(entries, u, a) && (a == b || Ahead(a, b))
    ensures !Ahead(u, v) ==>
      exists a :: ServedWith(entries, u, a) && forall b :: ServedWith(entries, v, b) ==> Ahead(a, b)
  {
    var ambs := Ambulances(entries);
    AmbulancesSorted(entries);
    StrictlyAhead(ambs);
    forall b | ServedWith(entries, v, b)
      ensures exists k :: Group(ambs, v) <= k < |ambs| && ambs[k] == b
    {
      var k :| 0 <= k < |ambs| && ambs[k] == b;
      assert Covers(ambs[k], v);
    }
    var g := Group(ambs, u);
    if g < |ambs| { assert ambs[g] in ambs && ServedWith(entries, u, ambs[g]); }
  }

  /** What the work queue is: all the entries, in strictly increasing service rank. */
  ghost predicate IsWorkQueue(entries: seq<VehicleEntry>, q: seq<VehicleEntry>) {
    multiset(q) == multiset(entries) && RankSorted(Ambulances(entries), q)
  }

  /** The work queue on the entries: whoever is queued later is served with no earlier ambulance,
      and with a later one or none if it stands no further back.  So only signed ambulances in
      front, and the ordinary vehicles they wait for, are queued before a signed ambulance. */
  lemma QueueByAmbulance(entries: seq<VehicleEntry>, q: seq<VehicleEntry>, i: nat, j: nat)
    requires DistinctIds(entries) && IsWorkQueue(entries, q) && i < j < |q|
    ensures forall b :: ServedWith(entries, q[j], b) ==>
      exists a :: ServedWith(entries, q[i], a) && (a == b || Ahead(a, b))
    ensures !Ahead(q[i], q[j]) ==>
      exists a :: ServedWith(entries, q[i], a) && forall b :: ServedWith(entries, q[j], b) ==> Ahead(a, b)
    ensures q[j].isAmbulance != 0 && q[j].cyberStatus == 1 ==>
      exists a :: a in entries && a.isAmbulance != 0 && a.cyberStatus == 1 && (a == q[j] || Ahead(a, q[j]))
        && (q[i] == a || (q[i].isAmbulance == 0 && q[i].lane == a.lane && Ahead(q[i], a)))
  {
    RankByAmbulance(entries, q[i], q[j]);
    SameElements(q, entries);
    if q[j].isAmbulance != 0 && q[j].cyberStatus == 1 {
      assert q[j] in entries && ServedWith(entries, q[j], q[j]);
    }
  }

  /** The queue while the first `i` ambulances have been served. */
  ghost predicate ServedUpTo(entries: seq<VehicleEntry>, ambs: seq<VehicleEntry>, q: seq<VehicleEntry>, i: nat) {
    && DistinctIds(q)
    && (forall e :: e in q <==> e in entries && Group(ambs, e) < i)
    && RankSorted(ambs, q)
  }

  lemma AppendGroup(entries: seq<VehicleEntry>, ambs: seq<VehicleEntry>, q: seq<VehicleEntry>,
                    served: seq<VehicleEntry>, i: nat)
    requires DistinctIds(entries) && ServedUpTo(entries, ambs, q, i)
    requires forall e :: e in served <==> e in entries && Group(ambs, e) == i
    requires InOrder(served)
    ensures ServedUpTo(entries, ambs, q + served, i + 1)
  {
    var r := q + served;
    forall a, b | 0 <= a < b < |r|
      ensures QueueBefore(ambs, r[a], r[b]) && r[a].replicaId != r[b].replicaId
    {
      if b < |q| {
      } else if a < |q| {
        assert r[a] in q && r[b] in served;
      } else {
        assert Ahead(served[a - |q|], served[b - |q|]);
        assert r[a] in served && r[b] in served;
      }
    }
  }

  ghost predicate InOrder(s: seq<VehicleEntry>) {
    forall a, b :: 0 <= a < b < |s| ==> Ahead(s[a], s[b])
  }

  /** Among distinct ids, `QueueLE` orders strictly. */
  lemma StrictlyAhead(s: seq<VehicleEntry>)
    requires DistinctIds(s) && SortedBy(s, QueueLE)
    ensures InOrder(s)
  {
    forall a, b | 0 <= a < b < |s| ensures Ahead(s[a], s[b]) {
      assert QueueLE(s[a], s[b]);
      assert s[a].replicaId != s[b].replicaId;
    }
  }

  /** Selecting from a strictly ordered sequence keeps it strictly ordered. */
  lemma {:induction false} SelectAhead(s: seq<VehicleEntry>, p: VehicleEntry -> bool)
    requires InOrder(s)
    ensures InOrder(Select(s, p))
  {
    if s != [] {
      var t := s[..|s| - 1];
      SelectAhead(t, p);
      SelectElements(t, p);
      var r := Select(t, p);
      forall a | 0 <= a < |r| ensures Ahead(r[a], s[|s| - 1]) {
        assert r[a] in t;
      }
      assert Select(s, p) == r || Select(s, p) == r + [s[|s| - 1]];
    }
  }

  /** One round of the ambulance loop: the newly queued vehicles are group `i`. */
  lemma ServeGroup(entries: seq<VehicleEntry>, ambs: seq<VehicleEntry>, i: nat, q: seq<VehicleEntry>,
                   blockers: seq<VehicleEntry>, served: seq<VehicleEntry>)
    requires DistinctIds(entries) && ambs == Ambulances(entries) && i < |ambs|
    requires ServedUpTo(entries, ambs, q, i)
    requires multiset(blockers) == multiset(Select(entries, Blocking(ambs[i])))
    requires SortedBy(blockers, QueueLE)
    requires served == Select(blockers + [ambs[i]], NotIn(Ids(q)))
    ensures ServedUpTo(entries, ambs, q + served, i + 1)
  {
    var a := ambs[i];
    var sel := Select(entries, Blocking(a));
    SelectElements(entries, Blocking(a));
    SelectDistinct(entries, Blocking(a));
    SameElements(blockers, sel);
    PermutationDistinct(sel, blockers);
    StrictlyAhead(blockers);
    AmbulancesSorted(entries);
    assert a in entries by { assert a in ambs; }
    var line := blockers + [a];
    forall x, y | 0 <= x < y < |line| ensures Ahead(line[x], line[y]) {
      if y == |blockers| { assert line[x] in blockers; }
    }
    SelectAhead(line, NotIn(Ids(q)));
    SelectElements(line, NotIn(Ids(q)));
    forall e ensures e in served <==> e in entries && Group(ambs, e) == i {
      if e in entries && e.replicaId in Ids(q) {
        var e' :| e' in q && e'.replicaId == e.replicaId;
        SameIdSameEntry(entries, e, e');
      }
      assert e in line <==> e in entries && Covers(a, e);
    }
    AppendGroup(entries, ambs, q, served, i);
  }

  /** The tail of the queue: the vehicles no certified ambulance is waiting for. */
  lemma ServeRemaining(entries: seq<VehicleEntry>, ambs: seq<VehicleEntry>, q: seq<VehicleEntry>,
                       remaining: seq<VehicleEntry>)
    requires DistinctIds(entries) && ambs == Ambulances(entries)
    requires ServedUpTo(entries, ambs, q, |ambs|)
    requires multiset(remaining) == multiset(Select(entries, NotIn(Ids(q))))
    requires SortedBy(remaining, RemainingLE)
    ensures IsWorkQueue(entries, q + remaining)
  {
    var sel := Select(entries, NotIn(Ids(q)));
    SelectElements(entries, NotIn(Ids(q)));
    SelectDistinct(entries, NotIn(Ids(q)));
    SameElements(remaining, sel);
    PermutationDistinct(sel, remaining);
    forall a, b | 0 <= a < b < |remaining| ensures Ahead(remaining[a], remaining[b]) {
      assert RemainingLE(remaining[a], remaining[b]);
    }
    forall e ensures e in remaining <==> e in entries && Group(ambs, e) == |ambs| {
      if e in entries && e.replicaId in Ids(q) {
        var e' :| e' in q && e'.replicaId == e.replicaId;
        SameIdSameEntry(entries, e, e');
      }
    }
    AppendGroup(entries, ambs, q, remaining, |ambs|);
    DistinctPermutation(q + remaining, entries);
  }

  /** The loops that copy the entries satisfying `p`. */
  method Collect(entries: seq<VehicleEntry>, p: VehicleEntry -> bool) returns (r: seq<VehicleEntry>)
    ensures r == Select(entries, p)
    ensures forall e :: e in r ==> e in entries && p(e)
    ensures forall e :: e in entries && p(e) ==> e in r
  {
    r := [];
    for i := 0 to |entries|
      invariant r == Select(entries[..i], p)
    {
      assert entries[..i + 1][..i] == entries[..i];
      if p(entries[i]) { r := r + [entries[i]]; }
    }
    assert entries[..|entries|] == entries;
    SelectElements(entries, p);
  }

  lemma IdsConcat(a: seq<VehicleEntry>, b: seq<VehicleEntry>)
    ensures Ids(a + b) == Ids(a) + Ids(b)
  {
    assert forall e :: e in a + b <==> e in a || e in b;
  }

  lemma IdsPush(s: seq<VehicleEntry>, e: VehicleEntry)
    ensures Ids(s + [e]) == Ids(s) + {e.replicaId}
  {
    IdsConcat(s, [e]);
    assert Ids([e]) == {e.replicaId};
  }

  /** The vehicles of `line` whose id is not in `ids` and does not occur earlier in `line`. */
  ghost function FirstNew(line: seq<VehicleEntry>, ids: set<int32>): seq<VehicleEntry> {
    if line == [] then []
    else
      var n := |line| - 1;
      if line[n].replicaId in ids + Ids(line[..n]) then FirstNew(line[..n], ids)
      else FirstNew(line[..n], ids) + [line[n]]
  }

  lemma FirstNewStep(line: seq<VehicleEntry>, i: nat, ids: set<int32>)
    requires i < |line|
    ensures FirstNew(line[..i + 1], ids) == if line[i].replicaId in ids + Ids(line[..i]) then FirstNew(line[..i], ids)
                                            else FirstNew(line[..i], ids) + [line[i]]
    ensures Ids(line[..i + 1]) == Ids(line[..i]) + {line[i].replicaId}
  {
    assert line[..i + 1][..i] == line[..i];
    assert line[..i + 1] == line[..i] + [line[i]];
    IdsPush(line[..i], line[i]);
  }

  lemma {:induction false} FirstNewElements(line: seq<VehicleEntry>, ids: set<int32>)
    ensures Ids(FirstNew(line, ids)) == Ids(line) - ids
    ensures forall e :: e in FirstNew(line, ids) ==> e in line
    decreases line
  {
    if line != [] {
      var n := |line| - 1;
      FirstNewElements(line[..n], ids);
      assert line == line[..n] + [line[n]];
      IdsPush(line[..n], line[n]);
      IdsPush(FirstNew(line[..n], ids), line[n]);
      if line[n].replicaId in ids + Ids(line[..n]) {
        assert Ids(line) - ids == Ids(line[..n]) - ids;
      } else {
        assert Ids(line) - ids == (Ids(line[..n]) - ids) + {line[n].replicaId};
      }
    }
  }

  /** Place `i` of the line holds the first occurrence of an id that is not in `ids`. */
  ghost predicate IsNewAt(line: seq<VehicleEntry>, ids: set<int32>, i: nat) {
    i < |line| && line[i].replicaId !in ids && forall k :: 0 <= k < i ==> line[k].replicaId != line[i].replicaId
  }

  lemma NewAtPrefix(line: seq<VehicleEntry>, ids: set<int32>, i: nat, n: nat)
    requires i < n <= |line|
    ensures IsNewAt(line[..n], ids, i) <==> IsNewAt(line, ids, i)
  {
    assert forall k :: 0 <= k < n ==> line[..n][k] == line[k];
  }

  lemma NewAtEnd(line: seq<VehicleEntry>, ids: set<int32>, n: nat)
    requires n < |line|
    ensures IsNewAt(line, ids, n) <==> line[n].replicaId !in ids + Ids(line[..n])
  {
    forall k | 0 <= k < n ensures line[k].replicaId in Ids(line[..n]) {
      assert line[..n][k] in line[..n];
    }
  }

  /** `FirstNew` keeps, in order, exactly the first occurrences of the ids that are not in `ids`. */
  lemma {:induction false} FirstNewPlaces(line: seq<VehicleEntry>, ids: set<int32>) returns (at: seq<nat>)
    ensures |FirstNew(line, ids)| == |at|
    ensures forall x :: 0 <= x < |at| ==> at[x] < |line| && FirstNew(line, ids)[x] == line[at[x]]
    ensures forall x, y :: 0 <= x < y < |at| ==> at[x] < at[y]
    ensures forall i: nat :: i in at <==> IsNewAt(line, ids, i)
    decreases line
  {
    if line == [] {
      at := [];
    } else {
      var n := |line| - 1;
      at := FirstNewPlaces(line[..n], ids);
      ghost var rest := at;
      assert forall x :: 0 <= x < |rest| ==> rest[x] < n;
      NewAtEnd(line, ids, n);
      if line[n].replicaId !in ids + Ids(line[..n]) { at := at + [n]; }
      forall i: nat ensures i in at <==> IsNewAt(line, ids, i) {
        if i < n { NewAtPrefix(line, ids, i, n); }
        assert i in at <==> i in rest || (i == n && IsNewAt(line, ids, n));
      }
    }
  }

  lemma {:induction false} FirstNewOfDistinct(line: seq<VehicleEntry>, ids: set<int32>)
    requires DistinctIds(line)
    ensures FirstNew(line, ids) == Select(line, NotIn(ids))
  {
    if line != [] {
      FirstNewOfDistinct(line[..|line| - 1], ids);
    }
  }

  /** Lines 107-112: push the vehicles of `line` that are not queued yet. */
  method PushNew(line: seq<VehicleEntry>, workQueue: seq<VehicleEntry>, priorityIds: set<int32>)
    returns (queue: seq<VehicleEntry>, ids: set<int32>)
    requires priorityIds == Ids(workQueue)
    ensures queue == workQueue + FirstNew(line, Ids(workQueue))
    ensures ids == Ids(queue) == Ids(workQueue) + Ids(line)
  {
    queue, ids := workQueue, priorityIds;
    for k := 0 to |line|
      invariant queue == workQueue + FirstNew(line[..k], priorityIds)
      invariant ids == priorityIds + Ids(line[..k])
    {
      FirstNewStep(line, k, priorityIds);
      if line[k].replicaId !in ids {
        ids := ids + {line[k].replicaId};
        queue := queue + [line[k]];
      }
    }
    assert line[..|line|] == line;
    PushedIds(line, workQueue);
  }

  lemma PushedIds(line: seq<VehicleEntry>, q: seq<VehicleEntry>)
    ensures Ids(q + FirstNew(line, Ids(q))) == Ids(q) + Ids(line)
  {
    FirstNewElements(line, Ids(q));
    IdsConcat(q, FirstNew(line, Ids(q)));
  }

  lemma LineDistinct(entries: seq<VehicleEntry>, blockers: seq<VehicleEntry>, a: VehicleEntry)
    requires DistinctIds(entries) && a in entries
    requires multiset(blockers) == multiset(Select(entries, Blocking(a)))
    ensures DistinctIds(blockers + [a])
  {
    SelectElements(entries, Blocking(a));
    SelectDistinct(entries, Blocking(a));
    SameElements(Select(entries, Blocking(a)), blockers);
    PermutationDistinct(Select(entries, Blocking(a)), blockers);
    forall k | 0 <= k < |blockers| ensures blockers[k].replicaId != a.replicaId {
      assert blockers[k] in entries && Blocks(blockers[k], a);
    }
  }

  /** The vehicles to clear before ambulance `a`, front-most first. */
  ghost predicate IsLine(blockers: seq<VehicleEntry>, entries: seq<VehicleEntry>, a: VehicleEntry) {
    multiset(blockers) == multiset(Select(entries, Blocking(a))) && SortedBy(blockers, QueueLE)
  }

  /** Serving ambulance `a` queues some vehicle of this id. */
  ghost predicate CoveredId(entries: seq<VehicleEntry>, a: VehicleEntry, id: int32) {
    exists v :: v in entries && Covers(a, v) && v.replicaId == id
  }

  lemma LineIds(entries: seq<VehicleEntry>, blockers: seq<VehicleEntry>, a: VehicleEntry)
    requires a in entries && multiset(blockers) == multiset(Select(entries, Blocking(a)))
    ensures forall id :: id in Ids(blockers + [a]) <==> CoveredId(entries, a, id)
  {
    SelectElements(entries, Blocking(a));
    SameElements(Select(entries, Blocking(a)), blockers);
    assert forall e :: e in blockers + [a] <==> e in entries && Covers(a, e);
  }

  /** Lines 95-113: the blockers of one ambulance, then the ambulance itself,
      skipping vehicles that are already queued. */
  method ServeAmbulance(entries: seq<VehicleEntry>, ambulances: seq<VehicleEntry>, i: nat,
                        workQueue: seq<VehicleEntry>, priorityIds: set<int32>)
    returns (queue: seq<VehicleEntry>, ids: set<int32>)
    requires i < |ambulances| && ambulances[i] in entries
    requires priorityIds == Ids(workQueue)
    requires forall e :: e in workQueue ==> e in entries
    requires DistinctIds(entries) ==> ambulances == Ambulances(entries)
    requires DistinctIds(entries) ==> ServedUpTo(entries, ambulances, workQueue, i)
    ensures ids == Ids(queue)
    ensures forall e :: e in queue ==> e in entries
    ensures forall id :: id in ids <==> id in priorityIds || CoveredId(entries, ambulances[i], id)
    ensures exists blockers :: (IsLine(blockers, entries, ambulances[i])
      && queue == workQueue + FirstNew(blockers + [ambulances[i]], Ids(workQueue)))
    ensures DistinctIds(entries) ==> ServedUpTo(entries, ambulances, queue, i + 1)
  {
    ComparatorsAreOrders();
    var ambulance := ambulances[i];
    var blockers := Collect(entries, Blocking(ambulance));
    ghost var unsorted := blockers;
    blockers := StdSort(blockers, QueueLE);
    SameElements(unsorted, blockers);
    queue, ids := PushNew(blockers + [ambulance], workQueue, priorityIds);
    FirstNewElements(blockers + [ambulance], Ids(workQueue));
    LineIds(entries, blockers, ambulance);
    assert IsLine(blockers, entries, ambulance);
    if DistinctIds(entries) {
      LineDistinct(entries, blockers, ambulance);
      FirstNewOfDistinct(blockers + [ambulance], Ids(workQueue));
      ServeGroup(entries, ambulances, i, workQueue, blockers,
                 Select(blockers + [ambulance], NotIn(Ids(workQueue))));
    }
  }

  /** Lines 82-92: the certified ambulances, sorted. */
  method SortedAmbulances(entries: seq<VehicleEntry>) returns (ambulances: seq<VehicleEntry>)
    ensures forall e :: e in ambulances <==> e in entries && e.isAmbulance != 0 && e.cyberStatus == 1
    ensures DistinctIds(entries) ==> ambulances == Ambulances(entries)
  {
    ComparatorsAreOrders();
    var unsorted := Collect(entries, HasPriority);
    ambulances := StdSort(unsorted, QueueLE);
    SameElements(unsorted, ambulances);
    AmbulancesSorted(entries);
    if DistinctIds(entries) { SortedUnique(Ambulances(entries), ambulances); }
  }

  lemma QueueReachesEveryId(entries: seq<VehicleEntry>, q: seq<VehicleEntry>, rest: seq<VehicleEntry>)
    requires forall e :: e in q + rest ==> e in entries
    requires forall e :: e in entries && e.replicaId !in Ids(q) ==> e in rest
    ensures Ids(q + rest) == Ids(entries)
  {
    forall id | id in Ids(entries) ensures id in Ids(q + rest) {
      var e :| e in entries && e.replicaId == id;
      if id in Ids(q) {
        var e' :| e' in q && e'.replicaId == id;
        assert e' in q + rest;
      } else {
        assert e in q + rest;
      }
    }
  }

  /** The remaining vehicles, by position, id and arrival time. */
  lemma RemainingOrder(s: seq<VehicleEntry>)
    requires SortedBy(s, RemainingLE)
    ensures forall i, j :: 0 <= i < j < |s| ==>
      s[i].positionInLane < s[j].positionInLane || (s[i].positionInLane == s[j].positionInLane
        && (s[i].replicaId < s[j].replicaId || (s[i].replicaId == s[j].replicaId && s[i].simTimeUs <= s[j].simTimeUs)))
  {
    forall i, j | 0 <= i < j < |s| ensures RemainingLE(s[i], s[j]) {}
  }

  /** Serving one of the first `i` ambulances queues some vehicle of this id. */
  ghost predicate CoveredBefore(entries: seq<VehicleEntry>, ambulances: seq<VehicleEntry>, i: nat, id: int32) {
    i <= |ambulances| && exists k :: 0 <= k < i && CoveredId(entries, ambulances[k], id)
  }

  lemma CoveredStep(entries: seq<VehicleEntry>, ambulances: seq<VehicleEntry>, i: nat, before: set<int32>,
                    after: set<int32>)
    requires i < |ambulances|
    requires forall id :: id in before <==> CoveredBefore(entries, ambulances, i, id)
    requires forall id :: id in after <==> id in before || CoveredId(entries, ambulances[i], id)
    ensures forall id :: id in after <==> CoveredBefore(entries, ambulances, i + 1, id)
  {
  }

  lemma ServedMeans(entries: seq<VehicleEntry>, ambulances: seq<VehicleEntry>, ids: set<int32>)
    requires forall e :: e in ambulances <==> e in entries && e.isAmbulance != 0 && e.cyberStatus == 1
    requires forall id :: id in ids <==> CoveredBefore(entries, ambulances, |ambulances|, id)
    ensures forall id :: id in ids <==> exists v, a :: v in entries && ServedWith(entries, v, a) && v.replicaId == id
  {
    forall id ensures id in ids <==> exists v, a :: v in entries && ServedWith(entries, v, a) && v.replicaId == id {
      if id in ids {
        var k :| 0 <= k < |ambulances| && CoveredId(entries, ambulances[k], id);
        var v :| v in entries && Covers(ambulances[k], v) && v.replicaId == id;
        assert ambulances[k] in ambulances && ServedWith(entries, v, ambulances[k]);
      }
      if v, a :| v in entries && ServedWith(entries, v, a) && v.replicaId == id {
        var k :| 0 <= k < |ambulances| && ambulances[k] == a;
        assert CoveredId(entries, ambulances[k], id);
      }
    }
  }

  /** Lines 93-113: the ambulance loop. */
  method ServeAmbulances(entries: seq<VehicleEntry>, ambulances: seq<VehicleEntry>)
    returns (queue: seq<VehicleEntry>, ids: set<int32>)
    requires forall e :: e in ambulances <==> e in entries && e.isAmbulance != 0 && e.cyberStatus == 1
    requires DistinctIds(entries) ==> ambulances == Ambulances(entries)
    ensures ids == Ids(queue) && forall e :: e in queue ==> e in entries
    ensures forall id :: id in ids <==> exists v, a :: v in entries && ServedWith(entries, v, a) && v.replicaId == id
    ensures DistinctIds(entries) ==> ServedUpTo(entries, ambulances, queue, |ambulances|)
  {
    queue, ids := [], {};
    for i := 0 to |ambulances|
      invariant ids == Ids(queue)
      invariant forall e :: e in queue ==> e in entries
      invariant forall id :: id in ids <==> CoveredBefore(entries, ambulances, i, id)
      invariant DistinctIds(entries) ==> ServedUpTo(entries, ambulances, queue, i)
    {
      assert ambulances[i] in ambulances;
      ghost var before := ids;
      queue, ids := ServeAmbulance(entries, ambulances, i, queue, ids);
      CoveredStep(entries, ambulances, i, before, ids);
    }
    ServedMeans(entries, ambulances, ids);
  }

  /** Lines 82-127: signed ambulances with their blockers first, everyone else by place in lane.
      Whatever the entries, the first `served` places hold the ids served with some signed ambulance,
      and behind them stand the entries of all other ids, ordered by position, id and arrival. */
  method BuildWorkQueue(entries: seq<VehicleEntry>) returns (workQueue: seq<VehicleEntry>, ghost served: nat)
    ensures forall e :: e in workQueue ==> e in entries
    ensures Ids(workQueue) == Ids(entries)
    ensures DistinctIds(entries) ==> IsWorkQueue(entries, workQueue)
    ensures served <= |workQueue|
    ensures forall id :: id in Ids(workQueue[..served]) <==>
      exists v, a :: v in entries && ServedWith(entries, v, a) && v.replicaId == id
    ensures multiset(workQueue[served..]) == multiset(Select(entries, NotIn(Ids(workQueue[..served]))))
    ensures forall i, j :: served <= i < j < |workQueue| ==>
      workQueue[i].positionInLane < workQueue[j].positionInLane
      || (workQueue[i].positionInLane == workQueue[j].positionInLane
          && (workQueue[i].replicaId < workQueue[j].replicaId
              || (workQueue[i].replicaId == workQueue[j].replicaId
                  && workQueue[i].simTimeUs <= workQueue[j].simTimeUs)))
  {
    var ambulances := SortedAmbulances(entries);
    var queue, priorityIds := ServeAmbulances(entries, ambulances);
    ComparatorsAreOrders();
    var unsorted := Collect(entries, NotIn(priorityIds));
    var remaining := StdSort(unsorted, RemainingLE);
    SameElements(unsorted, remaining);
    if DistinctIds(entries) { ServeRemaining(entries, ambulances, queue, remaining); }
    QueueReachesEveryId(entries, queue, remaining);
    RemainingOrder(remaining);
    workQueue, served := queue + remaining, |queue|;
    assert workQueue[..served] == queue && workQueue[served..] == remaining;
  }
}
