/** The movement-conflict table and the audit of the safe-pair table against lane geometry. */
module MovementTable {
  import opened BridgeTypes
  import opened SegmentGeometry
  import opened BatchPacker
  import opened ScheduleTheorems

  datatype Approach = N | S | E | W
  datatype Turn = Straight | Left | Right
  datatype Movement = Movement(approach: Approach, turn: Turn)

  const MOVEMENTS: seq<Movement> :=
    [Movement(N, Straight), Movement(N, Left), Movement(N, Right),
     Movement(S, Straight), Movement(S, Left), Movement(S, Right),
     Movement(E, Straight), Movement(E, Left), Movement(E, Right),
     Movement(W, Straight), Movement(W, Left), Movement(W, Right)]

  function LaneCode(a: Approach): byte {
    match a
    case N => 0
    case S => 1
    case E => 2
    case W => 3
  }

  function DirectionCode(t: Turn): byte {
    match t
    case Straight => 0
    case Left => 1
    case Right => 2
  }

  type Path = seq<Point>

  predicate PathsIntersect(first: Path, second: Path) {
    exists i, j :: 0 <= i < |first| - 1 && 0 <= j < |second| - 1
      && SegmentsIntersect(first[i], first[i + 1], second[j], second[j + 1])
  }

  /** `p` lies on the polyline. */
  ghost predicate OnPath(p: Point, path: Path) {
    exists i :: 0 <= i < |path| - 1 && LiesOn(p, path[i], path[i + 1])
  }

  ghost predicate Disjoint(first: Path, second: Path) {
    forall p :: !(OnPath(p, first) && OnPath(p, second))
  }

  /** Disjoint polylines: no point lies on a segment of one and on a segment of the other. */
  lemma DisjointMeans(first: Path, second: Path, p: Point, i: nat, j: nat)
    requires Disjoint(first, second) && i < |first| - 1 && j < |second| - 1
    ensures !(LiesOn(p, first[i], first[i + 1]) && LiesOn(p, second[j], second[j + 1]))
  {
    if LiesOn(p, first[i], first[i + 1]) && LiesOn(p, second[j], second[j + 1]) { NotDisjoint(first, second, p, i, j); }
  }

  lemma NotDisjoint(first: Path, second: Path, p: Point, i: nat, j: nat)
    requires i < |first| - 1 && j < |second| - 1
    requires LiesOn(p, first[i], first[i + 1]) && LiesOn(p, second[j], second[j + 1])
    ensures !Disjoint(first, second)
  {
    assert OnPath(p, first) && OnPath(p, second);
  }

  lemma SharedSegmentPoint(first: Path, second: Path, i: nat, j: nat, p: Point)
    requires i < |first| - 1 && j < |second| - 1
    requires LiesOn(p, first[i], first[i + 1]) && LiesOn(p, second[j], second[j + 1])
    ensures PathsIntersect(first, second)
  {
    SharedPointIsReported(first[i], first[i + 1], second[j], second[j + 1], p, EPSILON);
  }

  lemma SharedPathPoint(first: Path, second: Path, p: Point)
    requires OnPath(p, first) && OnPath(p, second)
    ensures PathsIntersect(first, second)
  {
    var i :| 0 <= i < |first| - 1 && LiesOn(p, first[i], first[i + 1]);
    var j :| 0 <= j < |second| - 1 && LiesOn(p, second[j], second[j + 1]);
    SharedSegmentPoint(first, second, i, j, p);
  }

  /** A negative verdict on two centerlines means they share no point. */
  lemma NegativePathsAreDisjoint(first: Path, second: Path)
    requires !PathsIntersect(first, second)
    ensures Disjoint(first, second)
  {
    forall p ensures !(OnPath(p, first) && OnPath(p, second)) {
      if OnPath(p, first) && OnPath(p, second) { SharedPathPoint(first, second, p); }
    }
  }

  /** A positive verdict means that a segment of one and a segment of the other share a point, or that
      an endpoint of one is near the other. */
  lemma PathsIntersectMeans(first: Path, second: Path)
    ensures PathsIntersect(first, second) <==>
      exists i, j :: 0 <= i < |first| - 1 && 0 <= j < |second| - 1
        && SharedOrNear(first[i], first[i + 1], second[j], second[j + 1])
  {
    forall i, j | 0 <= i < |first| - 1 && 0 <= j < |second| - 1
      ensures SegmentsIntersect(first[i], first[i + 1], second[j], second[j + 1])
        <==> SharedOrNear(first[i], first[i + 1], second[j], second[j + 1])
    {
      PositiveMeansNear(first[i], first[i + 1], second[j], second[j + 1]);
    }
  }

  /** The segments share a point, or an endpoint of one is near the other. */
  ghost predicate SharedOrNear(a: Point, b: Point, c: Point, d: Point) {
    (exists p :: LiesOn(p, a, b) && LiesOn(p, c, d)) || Near(a, b, c) || Near(a, b, d) || Near(c, d, a) || Near(c, d, b)
  }

  lemma PathsIntersectSwap(first: Path, second: Path)
    requires PathsIntersect(first, second)
    ensures PathsIntersect(second, first)
  {
    var i, j :| 0 <= i < |first| - 1 && 0 <= j < |second| - 1
      && SegmentsIntersect(first[i], first[i + 1], second[j], second[j + 1]);
    VerdictSymmetric(first[i], first[i + 1], second[j], second[j + 1]);
  }

  lemma PathsIntersectSymmetric(first: Path, second: Path)
    ensures PathsIntersect(first, second) == PathsIntersect(second, first)
  {
    if PathsIntersect(first, second) { PathsIntersectSwap(first, second); }
    if PathsIntersect(second, first) { PathsIntersectSwap(second, first); }
  }

  // ----- the table

  datatype Rule = SameApproach | PathIntersection | DisjointPaths

  datatype Row = Row(movementA: Movement, movementB: Movement, conflict: bool, rule: Rule)

  predicate Conflict(paths: map<Movement, Path>, a: Movement, b: Movement)
    requires a in paths && b in paths
  {
    a.approach == b.approach || PathsIntersect(paths[a], paths[b])
  }

  /** Cell (i, j) tells whether movements i and j conflict. */
  ghost predicate IsTable(paths: map<Movement, Path>, ms: seq<Movement>, table: seq<seq<bool>>) {
    && (forall m :: m in ms ==> m in paths)
    && |table| == |ms|
    && (forall i :: 0 <= i < |ms| ==> IsTableRow(paths, ms, ms[i], table[i], |ms|))
  }

  ghost predicate IsTableRow(paths: map<Movement, Path>, ms: seq<Movement>, a: Movement, row: seq<bool>, n: nat)
    requires forall m :: m in ms ==> m in paths
    requires n <= |ms|
  {
    a in paths && |row| == n && forall j :: 0 <= j < n ==> (row[j] <==> Conflict(paths, a, ms[j]))
  }

  /** What a row says about its two movements. */
  ghost predicate RowFor(paths: map<Movement, Path>, r: Row, a: Movement, b: Movement) {
    && a in paths && b in paths
    && r.movementA == a && r.movementB == b
    && (r.conflict <==> Conflict(paths, a, b)) && (r.conflict <==> r.rule != DisjointPaths)
    && (r.rule == SameApproach <==> a.approach == b.approach)
  }

  /** The report: for each movement, a row for each movement. */
  ghost predicate AreRows(paths: map<Movement, Path>, ms: seq<Movement>, rows: seq<seq<Row>>) {
    |rows| == |ms| && forall i :: 0 <= i < |ms| ==> AreRowsOf(paths, ms, ms[i], rows[i])
  }

  ghost predicate AreRowsOf(paths: map<Movement, Path>, ms: seq<Movement>, a: Movement, report: seq<Row>) {
    |report| == |ms| && forall j :: 0 <= j < |ms| ==> RowFor(paths, report[j], a, ms[j])
  }

  /** The inner loop: one row of the table and its report lines. */
  method BuildTableRow(paths: map<Movement, Path>, ms: seq<Movement>, a: Movement)
    returns (tableRow: seq<bool>, report: seq<Row>)
    requires (forall m :: m in ms ==> m in paths) && a in paths
    ensures IsTableRow(paths, ms, a, tableRow, |ms|)
    ensures AreRowsOf(paths, ms, a, report)
  {
    tableRow, report := [], [];
    for j := 0 to |ms|
      invariant IsTableRow(paths, ms, a, tableRow, j)
      invariant |report| == j && forall k :: 0 <= k < j ==> RowFor(paths, report[k], a, ms[k])
    {
      var b := ms[j];
      var sameApproach := a.approach == b.approach;
      var intersects := PathsIntersect(paths[a], paths[b]);
      var conflict := sameApproach || intersects;
      tableRow := tableRow + [conflict];
      report := report + [Row(a, b, conflict,
                              if sameApproach then SameApproach
                              else if intersects then PathIntersection else DisjointPaths)];
    }
  }

  /** The table over the movements `ms`; the report is kept row by row rather than flat.
      None where the manifest does not list exactly these movements. */
  method BuildTable(paths: map<Movement, Path>, ms: seq<Movement>)
    returns (result: Option<(seq<seq<bool>>, seq<seq<Row>>)>)
    ensures result.Some? <==> paths.Keys == set m | m in ms
    ensures result.Some? ==> IsTable(paths, ms, result.value.0) && AreRows(paths, ms, result.value.1)
  {
    if paths.Keys != (set m | m in ms) { return None; }
    var table: seq<seq<bool>> := [];
    var rows: seq<seq<Row>> := [];
    for i := 0 to |ms|
      invariant |table| == i && |rows| == i
      invariant forall k :: 0 <= k < i ==> IsTableRow(paths, ms, ms[k], table[k], |ms|)
      invariant forall k :: 0 <= k < i ==> AreRowsOf(paths, ms, ms[k], rows[k])
    {
      var tableRow, report := BuildTableRow(paths, ms, ms[i]);
      table := table + [tableRow];
      rows := rows + [report];
    }
    result := Some((table, rows));
  }

  /** The generator's own checks never fail, and a safe cell means different approaches
      and centerlines without a common point. */
  lemma TableIsTrustworthy(paths: map<Movement, Path>, ms: seq<Movement>, table: seq<seq<bool>>, i: nat, j: nat)
    requires IsTable(paths, ms, table) && i < |ms| && j < |ms|
    ensures |table[i]| == |ms| && |table[j]| == |ms|
    ensures table[i][i] && table[i][j] == table[j][i]
    ensures ms[i] in paths && ms[j] in paths
    ensures table[i][j] <==> ms[i].approach == ms[j].approach || PathsIntersect(paths[ms[i]], paths[ms[j]])
    ensures !table[i][j] ==>
      && ms[i].approach != ms[j].approach
      && Disjoint(paths[ms[i]], paths[ms[j]])
  {
    assert IsTableRow(paths, ms, ms[i], table[i], |ms|) && IsTableRow(paths, ms, ms[j], table[j], |ms|);
    PathsIntersectSymmetric(paths[ms[i]], paths[ms[j]]);
    if !table[i][j] { NegativePathsAreDisjoint(paths[ms[i]], paths[ms[j]]); }
  }

  // ----- the audit of the scheduler's safe pairs

  predicate KSafeAllows(a: Movement, b: Movement) {
    IsSafeToBatch(LaneCode(a.approach), DirectionCode(a.turn), LaneCode(b.approach), DirectionCode(b.turn))
  }

  /** True when no pair the scheduler may batch has intersecting centerlines. */
  method AuditKSafe(paths: map<Movement, Path>, ms: seq<Movement>) returns (passed: bool)
    requires forall m :: m in ms ==> m in paths
    ensures passed <==> AuditPasses(paths, ms)
  {
    passed := true;
    for i := 0 to |ms|
      invariant passed <==> forall k, l :: 0 <= k < i && k < l < |ms| ==> PairPasses(paths, ms[k], ms[l])
    {
      ghost var before := passed;
      for j := i + 1 to |ms|
        invariant passed <==> before && forall l :: i < l < j ==> PairPasses(paths, ms[i], ms[l])
      {
        var a, b := ms[i], ms[j];
        var geometrySafe := !PathsIntersect(paths[a], paths[b]) && a.approach != b.approach;
        if KSafeAllows(a, b) && !geometrySafe { passed := false; }
      }
    }
  }

  ghost predicate PairPasses(paths: map<Movement, Path>, a: Movement, b: Movement) {
    a in paths && b in paths && (KSafeAllows(a, b) ==> !PathsIntersect(paths[a], paths[b]))
  }

  ghost predicate AuditPasses(paths: map<Movement, Path>, ms: seq<Movement>) {
    forall k, l :: 0 <= k < l < |ms| ==> PairPasses(paths, ms[k], ms[l])
  }

  function MovementOf(e: VehicleEntry): Movement {
    Movement(if e.lane == 0 then N else if e.lane == 1 then S else if e.lane == 2 then E else W,
             if e.direction == 0 then Straight else if e.direction == 1 then Left else Right)
  }

  function IndexOf(m: Movement): (i: nat)
    ensures i < |MOVEMENTS| && MOVEMENTS[i] == m
  {
    3 * (LaneCode(m.approach) as int) + (DirectionCode(m.turn) as int)
  }

  lemma DifferentMovements(k: nat, l: nat)
    requires k < l < |MOVEMENTS|
    ensures MOVEMENTS[k] != MOVEMENTS[l]
  {
  }

  /** A passed audit of the twelve movements covers any two of them. */
  lemma AuditCovers(paths: map<Movement, Path>, a: Movement, b: Movement)
    requires AuditPasses(paths, MOVEMENTS) && a != b
    ensures a in paths && b in paths && (KSafeAllows(a, b) ==> !PathsIntersect(paths[a], paths[b]))
  {
    var i, j := IndexOf(a), IndexOf(b);
    if i < j {
      assert PairPasses(paths, MOVEMENTS[i], MOVEMENTS[j]);
    } else {
      assert PairPasses(paths, MOVEMENTS[j], MOVEMENTS[i]);
      assert KSafeAllows(a, b) == KSafeAllows(b, a);
      PathsIntersectSymmetric(paths[a], paths[b]);
    }
  }

  /** A failed one has found two movements that the scheduler may batch although their centerlines
      intersect, unless a centerline is missing. */
  lemma AuditFinds(paths: map<Movement, Path>) returns (a: Movement, b: Movement)
    requires !AuditPasses(paths, MOVEMENTS)
    ensures a != b
    ensures a in paths && b in paths ==> KSafeAllows(a, b) && PathsIntersect(paths[a], paths[b])
  {
    var k, l :| 0 <= k < l < |MOVEMENTS| && !PairPasses(paths, MOVEMENTS[k], MOVEMENTS[l]);
    DifferentMovements(k, l);
    a, b := MOVEMENTS[k], MOVEMENTS[l];
  }

  /** Lanes 0 to 3 are the approaches N, S, E and W; directions 0 to 2 straight, left and right. */
  lemma MovementCodes(e: VehicleEntry)
    ensures e.lane < 4 ==> [N, S, E, W][e.lane] == MovementOf(e).approach && LaneCode(MovementOf(e).approach) == e.lane
    ensures e.direction < 3 ==>
      [Straight, Left, Right][e.direction] == MovementOf(e).turn && DirectionCode(MovementOf(e).turn) == e.direction
  {
  }

  lemma AuditedPairsAreDisjoint(paths: map<Movement, Path>, a: Movement, b: Movement)
    requires AuditPasses(paths, MOVEMENTS) && KSafeAllows(a, b)
    ensures a in paths && b in paths && Disjoint(paths[a], paths[b])
  {
    var i, j := IndexOf(a), IndexOf(b);
    if i < j {
      assert PairPasses(paths, MOVEMENTS[i], MOVEMENTS[j]);
      NegativePathsAreDisjoint(paths[a], paths[b]);
    } else if j < i {
      assert KSafeAllows(b, a);
      assert PairPasses(paths, MOVEMENTS[j], MOVEMENTS[i]);
      NegativePathsAreDisjoint(paths[b], paths[a]);
    }
  }

  lemma SharedMovementsAllowed(s: Schedule, k: nat, i: nat, j: nat)
    requires IsSchedule(s)
    requires k < |s.batches| && i < |s.batches[k]| && j < |s.batches[k]| && i != j
    ensures KSafeAllows(MovementOf(s.batches[k][i]), MovementOf(s.batches[k][j]))
  {
    BatchShape(s, k);
    assert SafePair(s.batches[k][i], s.batches[k][j]);
    AllowedMovement(s.batches[k][i], s.batches[k][j]);
  }

  lemma AllowedMovement(u: VehicleEntry, v: VehicleEntry)
    requires SafePair(u, v)
    ensures KSafeAllows(MovementOf(u), MovementOf(v))
  {
    SafePairFacts(u, v);
  }

  /** Once the audit passes, vehicles of one batch follow centerlines that nowhere meet. */
  lemma BatchesFollowDisjointPaths(s: Schedule, paths: map<Movement, Path>, k: nat, i: nat, j: nat)
    requires IsSchedule(s) && AuditPasses(paths, MOVEMENTS)
    requires k < |s.batches| && i < |s.batches[k]| && j < |s.batches[k]| && i != j
    ensures var a, b := MovementOf(s.batches[k][i]), MovementOf(s.batches[k][j]);
      a in paths && b in paths && Disjoint(paths[a], paths[b])
  {
    SharedMovementsAllowed(s, k, i, j);
    AuditedPairsAreDisjoint(paths, MovementOf(s.batches[k][i]), MovementOf(s.batches[k][j]));
  }
}
