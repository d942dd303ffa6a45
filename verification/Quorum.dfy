/** Quorum sizes for an arbitrary active membership. */
module Quorum {
  import opened BridgeTypes

  /** `BftQuorumSize`: 0 for no members, None where the code throws. */
  function BftQuorumSize(n: int, f: int): Option<int> {
    if n <= 0 then Some(0)
    else if f < 0 || f > (n - 1) / 3 then None
    else Some(if (n + f + 2) / 2 > 1 then (n + f + 2) / 2 else 1)
  }

  /** The experiments' sizing function; None stands for ValueError. */
  function Q(nActive: int, f: int): Option<int> {
    if nActive <= 0 || f < 0 || f > (nActive - 1) / 3 then None else Some((nActive + f + 2) / 2)
  }

  lemma SizingsAgree(n: int, f: int)
    requires n > 0
    ensures BftQuorumSize(n, f) == Q(n, f)
  {
  }

  /** The quorum is the least vote count whose doubled excess over the membership exceeds
      `f`, and honest members alone can still reach it. */
  lemma QuorumIsLeast(n: int, f: int, k: int)
    requires n > 0 && BftQuorumSize(n, f).Some?
    ensures 2 * k - n >= f + 1 <==> k >= BftQuorumSize(n, f).value
    ensures 1 <= BftQuorumSize(n, f).value <= n - f
  {
  }

  /** The quorum exists exactly for memberships that support `f`; without members it is 0. */
  lemma QuorumExists(n: int, f: int)
    ensures BftQuorumSize(n, f).Some? <==> n <= 0 || (f >= 0 && n >= 3 * f + 1)
    ensures n <= 0 ==> BftQuorumSize(n, f) == Some(0)
  {
  }

  lemma Overlap<T>(m: set<T>, a: set<T>, b: set<T>)
    requires a <= m && b <= m
    ensures |a * b| >= |a| + |b| - |m|
  {
    assert a + b <= m;
    Subset(a + b, m);
    assert |a + b| == |a| + |b| - |a * b|;
  }

  lemma {:induction false} Subset<T>(a: set<T>, b: set<T>)
    requires a <= b
    ensures |a| <= |b|
  {
    if a != {} {
      var x :| x in a;
      Subset(a - {x}, b - {x});
    }
  }

  /** Any two quorums of one membership share more than `f` members, even if the two
      voters' views disagree about `f`. */
  lemma QuorumsIntersect(m: set<int>, f1: int, f2: int, a: set<int>, b: set<int>)
    requires m != {} && a <= m && b <= m
    requires BftQuorumSize(|m|, f1).Some? && |a| >= BftQuorumSize(|m|, f1).value
    requires BftQuorumSize(|m|, f2).Some? && |b| >= BftQuorumSize(|m|, f2).value
    ensures |a * b| >= (if f1 < f2 then f1 else f2) + 1
  {
    Overlap(m, a, b);
    QuorumIsLeast(|m|, f1, |a|);
    QuorumIsLeast(|m|, f2, |b|);
  }

  /** Two different proposals cannot both collect a quorum of one membership when at most
      `f` of its members vote twice. */
  lemma NoTwoDecisions(m: set<int>, f: int, votesA: set<int>, votesB: set<int>, twice: set<int>)
    requires m != {} && votesA <= m && votesB <= m && BftQuorumSize(|m|, f).Some?
    requires forall r :: r in votesA && r in votesB ==> r in twice
    requires |twice| <= f
    ensures |votesA| < BftQuorumSize(|m|, f).value || |votesB| < BftQuorumSize(|m|, f).value
  {
    Overlap(m, votesA, votesB);
    forall r | r in votesA * votesB ensures r in twice {
      assert r in votesA && r in votesB;
    }
    Subset(votesA * votesB, twice);
    QuorumIsLeast(|m|, f, |votesA|);
    QuorumIsLeast(|m|, f, |votesB|);
  }
}
