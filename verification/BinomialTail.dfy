/** The binomial-tail prediction of a false claim being certified, over exact reals. */
module BinomialTail {
  import opened BridgeTypes

  // ----- binomial coefficients and powers

  function Factorial(n: nat): nat {
    if n == 0 then 1 else n * Factorial(n - 1)
  }

  /** `math.comb`, by Pascal's rule. */
  function Comb(n: nat, k: nat): nat {
    if k == 0 then 1 else if n == 0 then 0 else Comb(n - 1, k - 1) + Comb(n - 1, k)
  }

  function Pow(p: real, k: nat): real {
    if k == 0 then 1.0 else p * Pow(p, k - 1)
  }

  lemma {:induction false} CombAbove(n: nat, k: nat)
    requires k > n
    ensures Comb(n, k) == 0
  {
    if n > 0 {
      CombAbove(n - 1, k - 1);
      CombAbove(n - 1, k);
    }
  }

  lemma {:induction false} CombFull(n: nat)
    ensures Comb(n, n) == 1
  {
    if n > 0 {
      CombFull(n - 1);
      CombAbove(n - 1, n);
    }
  }

  /** The coefficient is n! / (k! (n-k)!). */
  lemma {:induction false} CombIsQuotient(n: nat, k: nat)
    requires k <= n
    ensures Comb(n, k) * (Factorial(k) * Factorial(n - k)) == Factorial(n)
  {
    if k == 0 {
    } else if k == n {
      CombFull(n);
    } else {
      CombIsQuotient(n - 1, k - 1);
      CombIsQuotient(n - 1, k);
      PascalQuotient(Comb(n - 1, k - 1), Comb(n - 1, k), k, n - k,
                     Factorial(k - 1), Factorial(n - k - 1), Factorial(n - 1));
    }
  }

  lemma PascalQuotient(c1: nat, c2: nat, k: nat, m: nat, fk: nat, fm: nat, f: nat)
    requires c1 * (fk * (m * fm)) == f && c2 * ((k * fk) * fm) == f
    ensures (c1 + c2) * ((k * fk) * (m * fm)) == (k + m) * f
  {
    assert c1 * ((k * fk) * (m * fm)) == k * (c1 * (fk * (m * fm)));
    assert c2 * ((k * fk) * (m * fm)) == m * (c2 * ((k * fk) * fm));
  }

  // ----- the prediction

  /** Probability of exactly `k` successes among `n`. */
  function Term(n: nat, p: real, k: nat): real
    requires k <= n
  {
    Comb(n, k) as real * Pow(p, k) * Pow(1.0 - p, n - k)
  }

  function Terms(n: nat, p: real): (ts: seq<real>)
    ensures |ts| == n + 1
  {
    seq(n + 1, k requires 0 <= k <= n => Term(n, p, k))
  }

  function SumFrom(s: seq<real>, lo: nat): real
    decreases |s| - lo
  {
    if lo >= |s| then 0.0 else s[lo] + SumFrom(s, lo + 1)
  }

  /** `binomial_tail`; None in, None out. */
  function Tail(n: int, probability: Option<real>, required: int): Option<real> {
    if probability.None? then None
    else if required <= 0 then Some(1.0)
    else if required > n then Some(0.0)
    else Some(SumFrom(Terms(n, probability.value), required))
  }

  // ----- Pascal's recurrence, first for sequences of terms

  /** `y` is the average of `x1` and `x2` with weights `p` and 1 - `p`. */
  ghost predicate Mixes(p: real, y: real, x1: real, x2: real) {
    y == p * x1 + (1.0 - p) * x2
  }

  ghost predicate MixesAt(a: seq<real>, b: seq<real>, p: real, k: nat)
    requires 1 <= k < |a| && k < |b|
  {
    Mixes(p, b[k], a[k - 1], a[k])
  }

  /** `b` is what one more trial with success probability `p` makes of the weights `a`. */
  ghost predicate OneMoreTrial(a: seq<real>, b: seq<real>, p: real) {
    && |b| == |a| + 1 && a != []
    && Mixes(p, b[0], 0.0, a[0])
    && Mixes(p, b[|a|], a[|a| - 1], 0.0)
    && forall k {:trigger MixesAt(a, b, p, k)} :: 1 <= k < |a| ==> MixesAt(a, b, p, k)
  }

  lemma MixesAdd(p: real, y: real, x1: real, x2: real, y': real, x1': real, x2': real)
    requires Mixes(p, y, x1, x2) && Mixes(p, y', x1', x2')
    ensures Mixes(p, y + y', x1 + x1', x2 + x2')
  {
    assert p * (x1 + x1') == p * x1 + p * x1';
    assert (1.0 - p) * (x2 + x2') == (1.0 - p) * x2 + (1.0 - p) * x2';
  }

  lemma {:induction false} SumStep(a: seq<real>, b: seq<real>, p: real, lo: nat)
    requires OneMoreTrial(a, b, p) && 1 <= lo <= |a|
    ensures Mixes(p, SumFrom(b, lo), SumFrom(a, lo - 1), SumFrom(a, lo))
    decreases |a| - lo
  {
    if lo == |a| {
      assert SumFrom(b, lo) == b[lo] && SumFrom(a, lo - 1) == a[lo - 1];
    } else {
      SumStep(a, b, p, lo + 1);
      assert MixesAt(a, b, p, lo);
      MixesAdd(p, b[lo], a[lo - 1], a[lo], SumFrom(b, lo + 1), SumFrom(a, lo), SumFrom(a, lo + 1));
    }
  }

  /** Another trial does not change the total weight. */
  lemma TotalKept(a: seq<real>, b: seq<real>, p: real)
    requires OneMoreTrial(a, b, p)
    ensures SumFrom(b, 0) == SumFrom(a, 0)
  {
    SumStep(a, b, p, 1);
    MixesAdd(p, b[0], 0.0, a[0], SumFrom(b, 1), SumFrom(a, 0), SumFrom(a, 1));
    MixesSame(p, SumFrom(b, 0), SumFrom(a, 0));
  }

  lemma MixesSame(p: real, y: real, x: real)
    requires Mixes(p, y, x, x)
    ensures y == x
  {
  }

  lemma MixTerms(c1: real, c2: real, p: real, x: real, y: real, px: real, qy: real)
    requires px == p * x && qy == (1.0 - p) * y
    ensures Mixes(p, (c1 + c2) * px * qy, c1 * x * qy, c2 * px * y)
  {
    assert (c1 + c2) * px * qy == c1 * px * qy + c2 * px * qy;
    assert c1 * px * qy == p * (c1 * x * qy);
    assert c2 * px * qy == (1.0 - p) * (c2 * px * y);
  }

  lemma TermStep(n: nat, p: real, k: nat)
    requires 1 <= k <= n
    ensures Mixes(p, Term(n + 1, p, k), Term(n, p, k - 1), Term(n, p, k))
  {
    var c1, c2 := Comb(n, k - 1) as real, Comb(n, k) as real;
    assert Comb(n + 1, k) as real == c1 + c2;
    MixTerms(c1, c2, p, Pow(p, k - 1), Pow(1.0 - p, n - k), Pow(p, k), Pow(1.0 - p, n - k + 1));
  }

  lemma TermEnds(n: nat, p: real)
    ensures Mixes(p, Term(n + 1, p, n + 1), Term(n, p, n), 0.0)
    ensures Mixes(p, Term(n + 1, p, 0), 0.0, Term(n, p, 0))
  {
    CombFull(n);
    CombFull(n + 1);
  }

  lemma TermsStep(n: nat, p: real)
    ensures OneMoreTrial(Terms(n, p), Terms(n + 1, p), p)
  {
    TermEnds(n, p);
    var a, b := Terms(n, p), Terms(n + 1, p);
    forall k | 1 <= k < |a| ensures MixesAt(a, b, p, k) {
      TermStep(n, p, k);
    }
  }

  /** The binomial theorem: the full sum is 1. */
  lemma {:induction false} SumIsOne(n: nat, p: real)
    ensures SumFrom(Terms(n, p), 0) == 1.0
  {
    if n == 0 {
      assert Term(0, p, 0) == 1.0;
      assert SumFrom(Terms(0, p), 1) == 0.0;
    } else {
      SumIsOne(n - 1, p);
      TermsStep(n - 1, p);
      TotalKept(Terms(n - 1, p), Terms(n, p), p);
    }
  }

  /** The plain sum, without the guards. */
  function PlainTail(n: nat, p: real, required: nat): real {
    SumFrom(Terms(n, p), required)
  }

  /** The guarded special cases return what the plain sum would. */
  lemma GuardsMatchSum(n: nat, p: real, required: int)
    ensures Tail(n, Some(p), required) == Some(PlainTail(n, p, if required < 0 then 0 else required))
  {
    SumIsOne(n, p);
  }

  // ----- everything else follows from the recurrence

  ghost predicate Recurs(f: (nat, real, nat) -> real, n: nat, p: real, r: nat) {
    Mixes(p, f(n + 1, p, r + 1), f(n, p, r), f(n, p, r + 1))
  }

  ghost predicate Grounded(f: (nat, real, nat) -> real, n: nat, p: real, r: nat) {
    f(n, p, 0) == 1.0 && (r > n ==> f(n, p, r) == 0.0)
  }

  /** `f` starts from certainty, ends in impossibility, and obeys Pascal's recurrence. */
  ghost predicate PascalTail(f: (nat, real, nat) -> real) {
    forall n, p, r :: Recurs(f, n, p, r) && Grounded(f, n, p, r)
  }

  lemma PlainTailRecurs(n: nat, p: real, r: nat)
    ensures Recurs(PlainTail, n, p, r) && Grounded(PlainTail, n, p, r)
  {
    SumIsOne(n, p);
    if r <= n {
      TermsStep(n, p);
      SumStep(Terms(n, p), Terms(n + 1, p), p, r + 1);
    } else {
      assert PlainTail(n, p, r) == 0.0 && PlainTail(n, p, r + 1) == 0.0 && PlainTail(n + 1, p, r + 1) == 0.0;
    }
  }

  lemma PlainTailIsPascal()
    ensures PascalTail(PlainTail)
  {
    forall n, p, r ensures Recurs(PlainTail, n, p, r) && Grounded(PlainTail, n, p, r) {
      PlainTailRecurs(n, p, r);
    }
  }

  lemma Product(x: real, y: real)
    requires x >= 0.0 && y >= 0.0
    ensures x * y >= 0.0
  {
  }

  /** Mixtures of ordered values are ordered, the more so with more weight on the larger. */
  lemma Couple(p: real, p': real, a: real, b: real, a': real, b': real)
    requires 0.0 <= p <= p' <= 1.0 && b <= a && a <= a' && b <= b'
    ensures p * a + (1.0 - p) * b <= p' * a' + (1.0 - p') * b'
  {
    Product(p', a' - a);
    Product(1.0 - p', b' - b);
    Product(p' - p, a - b);
    assert p' * a' + (1.0 - p') * b' - (p * a + (1.0 - p) * b)
        == p' * (a' - a) + (1.0 - p') * (b' - b) + (p' - p) * (a - b);
  }

  /** One requirement more never helps, and the value is a probability. */
  lemma {:induction false} PascalAntitone(f: (nat, real, nat) -> real, n: nat, p: real, r: nat)
    requires PascalTail(f) && 0.0 <= p <= 1.0
    ensures 0.0 <= f(n, p, r + 1) <= f(n, p, r) <= 1.0
    decreases n, r
  {
    assert Grounded(f, n, p, r) && Grounded(f, n, p, r + 1);
    if n > 0 {
      PascalAntitone(f, n - 1, p, r);
      assert Recurs(f, n - 1, p, r) && Grounded(f, n - 1, p, r);
      var a, b := f(n - 1, p, r), f(n - 1, p, r + 1);
      Couple(p, p, a, b, 1.0, 1.0);
      Couple(p, p, 0.0, 0.0, a, b);
      if r > 0 {
        PascalAntitone(f, n, p, r - 1);
        PascalAntitone(f, n - 1, p, r - 1);
        assert Recurs(f, n - 1, p, r - 1);
        Couple(p, p, a, b, f(n - 1, p, r - 1), a);
      }
    }
  }

  lemma {:induction false} PascalMonotoneInP(f: (nat, real, nat) -> real, n: nat, p: real, p': real, r: nat)
    requires PascalTail(f) && 0.0 <= p <= p' <= 1.0
    ensures f(n, p, r) <= f(n, p', r)
    decreases n
  {
    assert Grounded(f, n, p, r) && Grounded(f, n, p', r);
    if n > 0 && r > 0 {
      PascalMonotoneInP(f, n - 1, p, p', r - 1);
      PascalMonotoneInP(f, n - 1, p, p', r);
      PascalAntitone(f, n - 1, p, r - 1);
      assert Recurs(f, n - 1, p, r - 1) && Recurs(f, n - 1, p', r - 1);
      Couple(p, p', f(n - 1, p, r - 1), f(n - 1, p, r), f(n - 1, p', r - 1), f(n - 1, p', r));
    }
  }

  lemma MixAtLeast(p: real, y: real, a: real, b: real)
    requires Mixes(p, y, a, b) && 0.0 <= p && b <= a
    ensures b <= y
  {
    Product(p, a - b);
    assert p * a + (1.0 - p) * b == b + p * (a - b);
  }

  lemma {:induction false} PascalMonotoneInN(f: (nat, real, nat) -> real, n: nat, n': nat, p: real, r: nat)
    requires PascalTail(f) && 0.0 <= p <= 1.0 && n <= n'
    ensures f(n, p, r) <= f(n', p, r)
    decreases n'
  {
    if n < n' {
      PascalMonotoneInN(f, n, n' - 1, p, r);
      assert Grounded(f, n' - 1, p, r) && Grounded(f, n', p, r);
      if r > 0 {
        PascalAntitone(f, n' - 1, p, r - 1);
        assert Recurs(f, n' - 1, p, r - 1);
        MixAtLeast(p, f(n', p, r), f(n' - 1, p, r - 1), f(n' - 1, p, r));
      }
    }
  }

  lemma {:induction false} PascalMonotoneInR(f: (nat, real, nat) -> real, n: nat, p: real, r: nat, r': nat)
    requires PascalTail(f) && 0.0 <= p <= 1.0 && r' <= r
    ensures f(n, p, r) <= f(n, p, r')
    decreases r
  {
    if r' < r {
      PascalAntitone(f, n, p, r - 1);
      PascalMonotoneInR(f, n, p, r - 1, r');
    }
  }

  // ----- what the analysis relies on

  /** One more witness succeeds with probability p and lowers the requirement by one, or fails and
      leaves it: with the boundary values this determines the prediction, for every real p. */
  lemma TailRecurs(n: nat, p: real, required: int)
    ensures required <= 0 ==> Tail(n, Some(p), required) == Some(1.0)
    ensures required > n ==> Tail(n, Some(p), required) == Some(if required <= 0 then 1.0 else 0.0)
    ensures required > 0 ==>
      var x1, x2, y := Tail(n, Some(p), required - 1), Tail(n, Some(p), required), Tail(n + 1, Some(p), required);
      x1.Some? && x2.Some? && y.Some? && Mixes(p, y.value, x1.value, x2.value)
    ensures Tail(n, None, required) == None
  {
    if required > 0 {
      GuardsMatchSum(n, p, required);
      GuardsMatchSum(n, p, required - 1);
      GuardsMatchSum(n + 1, p, required);
      PlainTailRecurs(n, p, required - 1);
      assert Recurs(PlainTail, n, p, required - 1);
    }
  }

  /** A prediction is a probability. */
  lemma TailIsProbability(n: nat, p: real, required: int)
    requires 0.0 <= p <= 1.0
    ensures Tail(n, Some(p), required).Some? && 0.0 <= Tail(n, Some(p), required).value <= 1.0
  {
    GuardsMatchSum(n, p, required);
    PlainTailIsPascal();
    PascalAntitone(PlainTail, n, p, if required < 0 then 0 else required);
  }

  /** More honest witnesses, a likelier acceptance or a lower requirement never lower the prediction. */
  lemma TailMonotone(n: nat, p: real, required: int, n': nat, p': real, required': int)
    requires 0.0 <= p <= p' <= 1.0 && n <= n' && required' <= required
    ensures Tail(n, Some(p), required).value <= Tail(n', Some(p'), required').value
  {
    GuardsMatchSum(n, p, required);
    GuardsMatchSum(n', p', required');
    PlainTailIsPascal();
    var lo: nat := if required < 0 then 0 else required;
    var lo': nat := if required' < 0 then 0 else required';
    PascalMonotoneInR(PlainTail, n, p, lo, lo');
    PascalMonotoneInP(PlainTail, n, p, p', lo');
    PascalMonotoneInN(PlainTail, n, n', p', lo');
  }

  /** Honest support still needed once `available` colluding signatures are in. */
  function Required(threshold: int, available: int): int {
    if threshold - available < 0 then 0 else threshold - available
  }

  /** Collusion support and required honest support add up to the threshold, up to which every
      colluding signature saves an honest one. */
  lemma RequiredSupport(threshold: int, available: int)
    ensures available < threshold ==> Required(threshold, available) + available == threshold
    ensures available >= threshold ==> Required(threshold, available) == 0
  {
  }

  /** More collusion support never lowers the predicted chance of certification, and
      enough of it makes certification certain. */
  lemma CollusionNeverLowers(h: nat, p: real, threshold: int, available: int, more: int)
    requires 0.0 <= p <= 1.0 && available <= more
    ensures Tail(h, Some(p), Required(threshold, available)).value <= Tail(h, Some(p), Required(threshold, more)).value
    ensures available >= threshold ==> Tail(h, Some(p), Required(threshold, available)) == Some(1.0)
  {
    TailMonotone(h, p, Required(threshold, available), h, p, Required(threshold, more));
  }
}
