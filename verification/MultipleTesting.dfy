/** scripts/selection_evidence.py: the two multiple-testing procedures, against definitions that mention no order. */
module MultipleTesting {

  /** The p-values come from `erfc`, so none is negative. */
  predicate PValues(p: seq<real>) {
    forall i :: 0 <= i < |p| ==> p[i] >= 0.0
  }

  function AtMost(p: seq<real>, t: real): set<nat> {
    set i: nat | i < |p| && p[i] <= t
  }

  function Below(p: seq<real>, t: real): set<nat> {
    set i: nat | i < |p| && p[i] < t
  }

  // ---------------------------------------------------------------------------------------------
  // Sorting the indices
  // ---------------------------------------------------------------------------------------------

  /** `order` lists every index once, by nondecreasing p-value; equal p-values come in any order. */
  ghost predicate IsOrder(p: seq<real>, order: seq<nat>) {
    && |order| == |p|
    && (forall r :: 0 <= r < |order| ==> order[r] < |p|)
    && (forall r, s :: 0 <= r < s < |order| ==> order[r] != order[s])
    && (forall r, s :: 0 <= r <= s < |order| ==> p[order[r]] <= p[order[s]])
    && (forall i: nat :: i < |p| ==> i in order)
  }

  /** `sorted(range(n), key=...)`: stable, so an index goes after every earlier one with an equal p-value. */
  function ArgSort(p: seq<real>): (order: seq<nat>)
    ensures IsOrder(p, order)
  {
    if p == [] then []
    else
      var last := |p| - 1;
      var before := ArgSort(p[..last]);
      var k := Position(p, before, p[last], |before|);
      InsertIsOrder(p, before, k);
      before[..k] + [last] + before[k..]
  }

  lemma InsertIsOrder(p: seq<real>, before: seq<nat>, k: nat)
    requires p != [] && IsOrder(p[..|p| - 1], before) && k <= |before|
    requires forall r :: 0 <= r < k ==> p[before[r]] <= p[|p| - 1]
    requires forall r :: k <= r < |before| ==> p[|p| - 1] < p[before[r]]
    ensures IsOrder(p, before[..k] + [|p| - 1] + before[k..])
  {
    var last := |p| - 1;
    var order := before[..k] + [last] + before[k..];
    InsertHolds(p, before, k);
    forall r | 0 <= r < |order| ensures order[r] == Inserted(before, k, last, r) {
    }
    forall r, s | 0 <= r < s < |order| ensures order[r] != order[s] && p[order[r]] <= p[order[s]] {
      assert order[r] == Inserted(before, k, last, r) && order[s] == Inserted(before, k, last, s);
    }
  }

  /** Entry `r` once `x` is put at place `k`. */
  function Inserted(before: seq<nat>, k: nat, x: nat, r: nat): nat
    requires k <= |before| && r <= |before|
  {
    if r == k then x else before[if r < k then r else r - 1]
  }

  lemma InsertHolds(p: seq<real>, before: seq<nat>, k: nat)
    requires p != [] && IsOrder(p[..|p| - 1], before) && k <= |before|
    ensures var order := before[..k] + [|p| - 1] + before[k..];
            forall i: nat :: i < |p| ==> i in order
  {
    var order := before[..k] + [|p| - 1] + before[k..];
    forall i: nat | i < |p| ensures i in order {
      if i == |p| - 1 {
        assert order[k] == i;
      } else {
        assert i in before;
        var r :| 0 <= r < |before| && before[r] == i;
        assert order[if r < k then r else r + 1] == i;
      }
    }
  }

  /** How many of the first `n` entries of a sorted list stay before a new value `v`. */
  function Position(p: seq<real>, order: seq<nat>, v: real, n: nat): (k: nat)
    requires n <= |order| && forall r :: 0 <= r < |order| ==> order[r] < |p|
    requires forall r, s :: 0 <= r <= s < |order| ==> p[order[r]] <= p[order[s]]
    ensures k <= n && (forall r :: 0 <= r < k ==> p[order[r]] <= v) && forall r :: k <= r < n ==> v < p[order[r]]
  {
    if n == 0 || p[order[n - 1]] <= v then n else Position(p, order, v, n - 1)
  }

  /** The rank of an index. */
  lemma RankOf(p: seq<real>, order: seq<nat>, i: nat) returns (r: nat)
    requires IsOrder(p, order) && i < |p|
    ensures r < |order| && order[r] == i
  {
    assert i in order;
    r :| 0 <= r < |order| && order[r] == i;
  }

  function First(order: seq<nat>, k: nat): set<nat>
    requires k <= |order|
  {
    set r | 0 <= r < k :: order[r]
  }

  lemma {:induction false} FirstSize(p: seq<real>, order: seq<nat>, k: nat)
    requires IsOrder(p, order) && k <= |order|
    ensures |First(order, k)| == k
  {
    if k > 0 {
      FirstSize(p, order, k - 1);
      assert First(order, k) == First(order, k - 1) + {order[k - 1]};
      assert order[k - 1] !in First(order, k - 1);
    }
  }

  lemma SubsetSize<T>(a: set<T>, b: set<T>)
    requires a <= b
    ensures |a| <= |b|
  {
    assert b == a + (b - a);
  }

  lemma AllIndices(p: seq<real>, s: set<nat>)
    requires forall i :: i in s ==> i < |p|
    ensures |s| <= |p|
  {
    var order := ArgSort(p);
    forall i | i in s ensures i in First(order, |p|) {
      var r := RankOf(p, order, i);
    }
    FirstSize(p, order, |p|);
    SubsetSize(s, First(order, |p|));
  }

  /** The k-th smallest p-value is at most `t` exactly when at least `k` of them are. */
  lemma KthAtMost(p: seq<real>, order: seq<nat>, k: nat, t: real)
    requires IsOrder(p, order) && 0 < k <= |order|
    ensures p[order[k - 1]] <= t <==> |AtMost(p, t)| >= k
  {
    FirstSize(p, order, k);
    FirstSize(p, order, k - 1);
    if p[order[k - 1]] <= t {
      SubsetSize(First(order, k), AtMost(p, t));
    } else {
      forall i | i in AtMost(p, t) ensures i in First(order, k - 1) {
        var r := RankOf(p, order, i);
      }
      SubsetSize(AtMost(p, t), First(order, k - 1));
    }
  }

  // ---------------------------------------------------------------------------------------------
  // Benjamini-Hochberg
  // ---------------------------------------------------------------------------------------------

  function Threshold(p: seq<real>, q: real, k: nat): real
    requires p != []
  {
    q * k as real / |p| as real
  }

  /** The largest count `k` such that at least `k` p-values are at most `q k / m`, among the counts up to `top`. */
  function LargestCount(p: seq<real>, q: real, top: nat): (k: nat)
    requires p != []
    ensures k <= top && (k > 0 ==> |AtMost(p, Threshold(p, q, k))| >= k)
    ensures forall j :: k < j <= top ==> |AtMost(p, Threshold(p, q, j))| < j
  {
    if top == 0 || |AtMost(p, Threshold(p, q, top))| >= top then top else LargestCount(p, q, top - 1)
  }

  function Rejected(p: seq<real>, q: real): set<nat> {
    if p == [] then {}
    else
      var k := LargestCount(p, q, |p|);
      if k == 0 then {} else AtMost(p, Threshold(p, q, k))
  }

  /** What the step-up loop keeps when it walks `order`. */
  function StepUp(p: seq<real>, order: seq<nat>, q: real, n: nat): (cutoff: nat)
    requires n <= |order| == |p| && forall r :: 0 <= r < |order| ==> order[r] < |p|
    ensures cutoff <= n
  {
    if n == 0 then 0
    else if p[order[n - 1]] <= Threshold(p, q, n) then n
    else StepUp(p, order, q, n - 1)
  }

  lemma ThresholdMonotone(p: seq<real>, q: real, j: nat, k: nat)
    requires p != [] && q >= 0.0 && j <= k
    ensures Threshold(p, q, j) <= Threshold(p, q, k)
  {
  }

  /** Whatever order sorts the p-values, the step-up loop rejects the same indices, the ones `Rejected` names. */
  lemma StepUpIsRejected(p: seq<real>, order: seq<nat>, q: real)
    requires PValues(p) && IsOrder(p, order)
    ensures First(order, StepUp(p, order, q, |p|)) == Rejected(p, q)
  {
    if p != [] {
      StepUpIsLargestCount(p, order, q, |p|);
      var k := LargestCount(p, q, |p|);
      if k > 0 {
        var t := Threshold(p, q, k);
        KthAtMost(p, order, k, t);
        LevelNotNegative(p, q, k);
        forall i | i in AtMost(p, t) ensures i in First(order, k) {
          var r := RankOf(p, order, i);
          if r >= k {
            ThresholdMonotone(p, q, k, k + 1);
            KthAtMost(p, order, k + 1, Threshold(p, q, k + 1));
          }
        }
      }
    }
  }

  /** A count that clears shows the level is not negative. */
  lemma LevelNotNegative(p: seq<real>, q: real, k: nat)
    requires PValues(p) && p != [] && k > 0 && |AtMost(p, Threshold(p, q, k))| >= k
    ensures q >= 0.0
  {
  }

  lemma {:induction false} StepUpIsLargestCount(p: seq<real>, order: seq<nat>, q: real, n: nat)
    requires IsOrder(p, order) && p != [] && n <= |p|
    ensures StepUp(p, order, q, n) == LargestCount(p, q, n)
  {
    if n > 0 {
      KthAtMost(p, order, n, Threshold(p, q, n));
      StepUpIsLargestCount(p, order, q, n - 1);
    }
  }

  /** At least `k` of the `m` p-values are at most `q k / m`. */
  predicate ClearsAt(p: seq<real>, q: real, k: nat)
    requires p != []
  {
    |set j: nat | j < |p| && p[j] <= q * k as real / |p| as real| >= k
  }

  /** `p_i` is at most `q k / m`. */
  predicate ReachesAt(p: seq<real>, q: real, i: nat, k: nat)
    requires i < |p|
  {
    p[i] * |p| as real <= q * k as real
  }

  /** Some `k` of the `m` clear `q k / m`, and `p_i` is at most it. */
  ghost predicate StepsUpTo(p: seq<real>, q: real, i: nat)
    requires i < |p|
  {
    exists k: nat :: 1 <= k <= |p| && ClearsAt(p, q, k) && ReachesAt(p, q, i, k)
  }

  lemma ClearsIs(p: seq<real>, q: real, k: nat)
    requires p != []
    ensures ClearsAt(p, q, k) <==> |AtMost(p, Threshold(p, q, k))| >= k
  {
    assert (set j: nat | j < |p| && p[j] <= q * k as real / |p| as real) == AtMost(p, Threshold(p, q, k));
  }

  lemma ReachesIs(p: seq<real>, q: real, i: nat, k: nat)
    requires i < |p|
    ensures ReachesAt(p, q, i, k) <==> p[i] <= Threshold(p, q, k)
  {
    Quotient(p[i], q * k as real, |p| as real);
  }

  /** Rejected are exactly the p-values some clearing count reaches. */
  lemma RejectedExactly(p: seq<real>, q: real, i: nat)
    requires PValues(p) && i < |p|
    ensures i in Rejected(p, q) <==> StepsUpTo(p, q, i)
  {
    var largest := LargestCount(p, q, |p|);
    ClearsIs(p, q, largest);
    ReachesIs(p, q, i, largest);
    if k: nat :| 1 <= k <= |p| && ClearsAt(p, q, k) && ReachesAt(p, q, i, k) {
      ClearsIs(p, q, k);
      ReachesIs(p, q, i, k);
      LevelNotNegative(p, q, k);
      ThresholdMonotone(p, q, k, largest);
    }
  }

  /** `benjamini_hochberg`. */
  method BenjaminiHochberg(p: seq<real>, q: real) returns (rejected: set<nat>)
    requires PValues(p)
    ensures forall i: nat :: i in rejected <==> i < |p| && StepsUpTo(p, q, i)
    ensures rejected == Rejected(p, q)
  {
    var order := ArgSort(p);
    var cutoff := 0;
    for rank := 1 to |order| + 1
      invariant cutoff == StepUp(p, order, q, rank - 1)
    {
      assert q * rank as real / |p| as real == Threshold(p, q, rank);
      if p[order[rank - 1]] <= q * rank as real / |p| as real {
        cutoff := rank;
      }
    }
    StepUpIsRejected(p, order, q);
    rejected := set i | i in order[..cutoff];
    assert rejected == First(order, cutoff);
    forall i: nat | i < |p| ensures i in rejected <==> StepsUpTo(p, q, i) {
      RejectedExactly(p, q, i);
    }
  }

  /** Permuting the hypotheses permutes the rejections. */
  lemma RejectedPermutes(p: seq<real>, p': seq<real>, pi: seq<nat>, q: real)
    requires |p'| == |p| == |pi| && forall i :: 0 <= i < |pi| ==> pi[i] < |p| && p'[i] == p[pi[i]]
    requires forall i, j :: 0 <= i < j < |pi| ==> pi[i] != pi[j]
    requires forall k: nat :: k < |p| ==> k in pi
    ensures forall i: nat :: i < |p| ==> (i in Rejected(p', q) <==> pi[i] in Rejected(p, q))
  {
    if p != [] {
      LargestCountPermutes(p, p', pi, q, |p|);
    }
  }

  lemma {:induction false} LargestCountPermutes(p: seq<real>, p': seq<real>, pi: seq<nat>, q: real, n: nat)
    requires |p'| == |p| == |pi| > 0 && forall i :: 0 <= i < |pi| ==> pi[i] < |p| && p'[i] == p[pi[i]]
    requires forall i, j :: 0 <= i < j < |pi| ==> pi[i] != pi[j]
    requires forall k: nat :: k < |p| ==> k in pi
    ensures LargestCount(p', q, n) == LargestCount(p, q, n)
  {
    if n > 0 {
      AtMostPermutes(p, p', pi, Threshold(p, q, n));
      assert Threshold(p', q, n) == Threshold(p, q, n);
      LargestCountPermutes(p, p', pi, q, n - 1);
    }
  }

  lemma AtMostPermutes(p: seq<real>, p': seq<real>, pi: seq<nat>, t: real)
    requires |p'| == |p| == |pi| && forall i :: 0 <= i < |pi| ==> pi[i] < |p| && p'[i] == p[pi[i]]
    requires forall i, j :: 0 <= i < j < |pi| ==> pi[i] != pi[j]
    requires forall k: nat :: k < |p| ==> k in pi
    ensures |AtMost(p', t)| == |AtMost(p, t)|
  {
    ImageSize(AtMost(p', t), pi);
    var image := set i | i in AtMost(p', t) :: pi[i];
    forall k | k in AtMost(p, t) ensures k in image {
      assert k in pi;
      var i :| 0 <= i < |pi| && pi[i] == k;
      assert i in AtMost(p', t);
    }
    assert image == AtMost(p, t);
  }

  lemma {:induction false} ImageSize(s: set<nat>, pi: seq<nat>)
    requires forall i :: i in s ==> i < |pi|
    requires forall i, j :: 0 <= i < j < |pi| ==> pi[i] != pi[j]
    ensures |set i | i in s :: pi[i]| == |s|
  {
    if s != {} {
      var x :| x in s;
      var rest := s - {x};
      ImageSize(rest, pi);
      assert (set i | i in s :: pi[i]) == (set i | i in rest :: pi[i]) + {pi[x]};
    }
  }

  /** Lowering p-values or raising `q` never removes a rejection. */
  lemma RejectedMonotone(p: seq<real>, q: real, p': seq<real>, q': real)
    requires PValues(p) && PValues(p') && |p'| == |p| && q <= q'
    requires forall i :: 0 <= i < |p| ==> p'[i] <= p[i]
    ensures Rejected(p, q) <= Rejected(p', q')
  {
    if Rejected(p, q) != {} {
      var k := LargestCount(p, q, |p|);
      ThresholdRaised(p, q, p', q', k);
      LevelNotNegative(p, q, k);
      SubsetSize(AtMost(p, Threshold(p, q, k)), AtMost(p', Threshold(p', q', k)));
      ThresholdMonotone(p', q', k, LargestCount(p', q', |p'|));
    }
  }

  lemma ThresholdRaised(p: seq<real>, q: real, p': seq<real>, q': real, k: nat)
    requires p != [] && |p'| == |p| && q <= q'
    ensures Threshold(p, q, k) <= Threshold(p', q', k)
  {
  }

  // ---------------------------------------------------------------------------------------------
  // Holm
  // ---------------------------------------------------------------------------------------------

  /** `p_j` clears the level left when the smaller p-values have taken their share:
    * p_j <= alpha / (total - #{l : p_l < p_j}). */
  ghost predicate HolmClears(p: seq<real>, alpha: real, total: nat, j: nat)
    requires j < |p|
  {
    Clears(p[j], total - |Below(p, p[j])|, alpha)
  }

  ghost predicate Clears(v: real, left: int, alpha: real) {
    v * left as real <= alpha
  }

  /** The level, shared among the `total` hypotheses less the smaller p-values, covers `p_j`. */
  predicate HasShare(p: seq<real>, alpha: real, total: nat, j: nat)
    requires j < |p|
  {
    p[j] * (total - |set l: nat | l < |p| && p[l] < p[j]|) as real <= alpha
  }

  /** No p-value up to `p_i` misses its share. */
  ghost predicate StepsDownPast(p: seq<real>, alpha: real, total: nat, i: nat)
    requires i < |p|
  {
    forall j: nat :: j < |p| && p[j] <= p[i] ==> HasShare(p, alpha, total, j)
  }

  lemma HolmRejectedExactly(p: seq<real>, alpha: real, total: nat, i: nat)
    requires i < |p|
    ensures i in HolmRejected(p, alpha, total) <==> StepsDownPast(p, alpha, total, i)
  {
    forall j: nat | j < |p| ensures HasShare(p, alpha, total, j) <==> HolmClears(p, alpha, total, j) {
      ShareIs(p, alpha, total, j);
    }
  }

  lemma ShareIs(p: seq<real>, alpha: real, total: nat, j: nat)
    requires j < |p|
    ensures HasShare(p, alpha, total, j) <==> HolmClears(p, alpha, total, j)
  {
    assert (set l: nat | l < |p| && p[l] < p[j]) == Below(p, p[j]);
  }

  /** Rejected: every p-value no larger than this one clears. */
  ghost function HolmRejected(p: seq<real>, alpha: real, total: nat): set<nat> {
    set i: nat | i < |p| && forall j: nat :: j < |p| && p[j] <= p[i] ==> HolmClears(p, alpha, total, j)
  }

  /** `holm`: step down through the sorted p-values, stopping at the first that misses. */
  method Holm(p: seq<real>, alpha: real, total: nat) returns (out: set<nat>)
    requires PValues(p) && total >= |p|
    ensures forall i: nat :: i in out <==> i < |p| && StepsDownPast(p, alpha, total, i)
    ensures out == HolmRejected(p, alpha, total)
  {
    var order := ArgSort(p);
    out := {};
    var rank := 0;
    while rank < |order|
      invariant 0 <= rank <= |order| && out == First(order, rank)
      invariant forall r :: 0 <= r < rank ==> HolmClears(p, alpha, total, order[r])
      decreases |order| - rank
    {
      MissesIffNotClears(p, order, alpha, total, rank);
      if p[order[rank]] > alpha / (total - rank) as real {
        break;
      }
      out := out + {order[rank]};
      rank := rank + 1;
    }
    RejectedPrefix(p, order, alpha, total, rank);
    forall i: nat | i < |p| ensures i in out <==> StepsDownPast(p, alpha, total, i) {
      HolmRejectedExactly(p, alpha, total, i);
    }
  }

  /** While every smaller p-value has cleared, the loop's test at a rank is the order-free one. */
  lemma MissesIffNotClears(p: seq<real>, order: seq<nat>, alpha: real, total: nat, rank: nat)
    requires PValues(p) && IsOrder(p, order) && total >= |p| && rank < |order|
    requires forall r :: 0 <= r < rank ==> HolmClears(p, alpha, total, order[r])
    ensures p[order[rank]] > alpha / (total - rank) as real <==> !HolmClears(p, alpha, total, order[rank])
  {
    var v := p[order[rank]];
    var b := |Below(p, v)|;
    BelowRank(p, order, rank);
    Quotient(v, alpha, (total - rank) as real);
    if b < rank {
      KthBelow(p, order, rank);
      assert p[order[b]] == v;
      assert HolmClears(p, alpha, total, order[b]);
      assert v * (total - rank) as real <= v * (total - b) as real;
    }
  }

  lemma Quotient(v: real, a: real, c: real)
    requires c > 0.0
    ensures v <= a / c <==> v * c <= a
  {
  }

  lemma BelowRank(p: seq<real>, order: seq<nat>, rank: nat)
    requires IsOrder(p, order) && rank < |order|
    ensures |Below(p, p[order[rank]])| <= rank
  {
    var v := p[order[rank]];
    forall i | i in Below(p, v) ensures i in First(order, rank) {
      var r := RankOf(p, order, i);
    }
    FirstSize(p, order, rank);
    SubsetSize(Below(p, v), First(order, rank));
  }

  /** The first entry of a tie group sits at the rank that counts the strictly smaller p-values. */
  lemma KthBelow(p: seq<real>, order: seq<nat>, rank: nat)
    requires IsOrder(p, order) && rank < |order|
    ensures var b := |Below(p, p[order[rank]])|; b <= rank && p[order[b]] == p[order[rank]]
  {
    BelowRank(p, order, rank);
    var v := p[order[rank]];
    var b := |Below(p, v)|;
    if p[order[b]] < v {
      FirstSize(p, order, b + 1);
      SubsetSize(First(order, b + 1), Below(p, v));
    }
  }

  /** When the first `rank` entries clear and the next does not, the rejected indices are those entries. */
  lemma RejectedPrefix(p: seq<real>, order: seq<nat>, alpha: real, total: nat, rank: nat)
    requires PValues(p) && IsOrder(p, order) && total >= |p| && rank <= |order|
    requires forall r :: 0 <= r < rank ==> HolmClears(p, alpha, total, order[r])
    requires rank < |order| ==> !HolmClears(p, alpha, total, order[rank])
    ensures First(order, rank) == HolmRejected(p, alpha, total)
  {
    forall i | i in HolmRejected(p, alpha, total) ensures i in First(order, rank) {
      var r := RankOf(p, order, i);
    }
    forall r | 0 <= r < rank ensures order[r] in HolmRejected(p, alpha, total) {
      forall j: nat | j < |p| && p[j] <= p[order[r]] ensures HolmClears(p, alpha, total, j) {
        var s := RankOf(p, order, j);
      }
    }
  }

  /** Below level 1 neither procedure rejects a p-value of 1. */
  lemma RejectedBelowOne(p: seq<real>, q: real, i: nat)
    requires PValues(p) && q < 1.0 && i in Rejected(p, q)
    ensures i < |p| && p[i] < 1.0
  {
    var k := LargestCount(p, q, |p|);
    ShareOfLevel(q, k, |p|);
    assert 0.0 <= p[i] <= Threshold(p, q, k);
  }

  lemma ShareOfLevel(q: real, k: nat, m: nat)
    requires k <= m && m > 0 && q < 1.0
    ensures q * k as real / m as real < 1.0
  {
    ProductBelow(q, k as real, m as real);
    QuotientBelow(q * k as real, m as real);
  }

  lemma ProductBelow(q: real, a: real, b: real)
    requires q < 1.0 && 0.0 <= a <= b && b > 0.0
    ensures q * a < b
  {
    var rest := 1.0 - q;
    Complement(q, rest, a);
    PositiveProduct(rest, a);
    LessPart(q * a, rest * a, a, b);
  }

  lemma Complement(q: real, rest: real, a: real)
    requires q + rest == 1.0
    ensures q * a + rest * a == a
  {
    Distribute(q, rest, a);
  }

  lemma Distribute(x: real, y: real, a: real)
    ensures (x + y) * a == x * a + y * a
  {
  }

  lemma PositiveProduct(x: real, a: real)
    requires x > 0.0 && a >= 0.0
    ensures x * a >= 0.0 && (a > 0.0 ==> x * a > 0.0)
  {
  }

  lemma LessPart(x: real, y: real, a: real, b: real)
    requires x + y == a && y >= 0.0 && (a > 0.0 ==> y > 0.0) && 0.0 <= a <= b && b > 0.0
    ensures x < b
  {
  }

  lemma QuotientBelow(x: real, b: real)
    requires x < b && b > 0.0
    ensures x / b < 1.0
  {
  }

  lemma HolmRejectedBelowOne(p: seq<real>, alpha: real, total: nat, i: nat)
    requires PValues(p) && alpha < 1.0 && total >= |p| && i in HolmRejected(p, alpha, total)
    ensures i < |p| && p[i] < 1.0
  {
    assert HolmClears(p, alpha, total, i);
    var b := BelowCount(p, i);
    ClearsBelow(p[i], total - b, alpha);
  }

  lemma ClearsBelow(v: real, left: int, alpha: real)
    requires v >= 0.0 && left >= 1 && Clears(v, left, alpha)
    ensures v <= alpha
  {
    assert v * left as real >= v;
  }

  /** Equal p-values stand or fall together under both procedures. */
  lemma TiesStandTogether(p: seq<real>, level: real, total: nat, i: nat, j: nat)
    requires i < |p| && j < |p| && p[i] == p[j]
    ensures i in Rejected(p, level) <==> j in Rejected(p, level)
    ensures total >= |p| ==> (i in HolmRejected(p, level, total) <==> j in HolmRejected(p, level, total))
  {
  }

  /** Hypotheses that count but are not tested only make Holm stricter, and raising the level only looser. */
  lemma HolmMonotone(p: seq<real>, alpha: real, total: nat, alpha': real, total': nat)
    requires PValues(p) && alpha <= alpha' && |p| <= total' <= total
    ensures HolmRejected(p, alpha, total) <= HolmRejected(p, alpha', total')
  {
    forall i | i in HolmRejected(p, alpha, total) ensures i in HolmRejected(p, alpha', total') {
      forall j: nat | j < |p| && p[j] <= p[i] ensures HolmClears(p, alpha', total', j) {
        assert HolmClears(p, alpha, total, j);
        ClearsLooser(p[j], total - |Below(p, p[j])|, alpha, total' - |Below(p, p[j])|, alpha');
      }
    }
  }

  /** Bonferroni rejects nothing Holm does not. */
  lemma BonferroniWithinHolm(p: seq<real>, alpha: real, total: nat, i: nat)
    requires PValues(p) && |p| <= total && i < |p| && p[i] * total as real <= alpha
    ensures i in HolmRejected(p, alpha, total)
  {
  }

  lemma ClearsLooser(v: real, left: int, alpha: real, left': int, alpha': real)
    requires v >= 0.0 && left' <= left && alpha <= alpha' && Clears(v, left, alpha)
    ensures Clears(v, left', alpha')
  {
  }

  /** At one level, Holm over `total` hypotheses rejects a subset of what Benjamini-Hochberg rejects over the
    * tested ones. */
  lemma HolmWithinBenjaminiHochberg(p: seq<real>, level: real, total: nat)
    requires PValues(p) && total >= |p|
    ensures HolmRejected(p, level, total) <= Rejected(p, level)
  {
    forall i | i in HolmRejected(p, level, total) ensures i in Rejected(p, level) {
      assert HolmClears(p, level, total, i);
      ClearsAdmits(p, level, total, i);
    }
  }

  lemma ClearsAdmits(p: seq<real>, level: real, total: nat, i: nat)
    requires PValues(p) && total >= |p| && i < |p| && HolmClears(p, level, total, i)
    ensures i in Rejected(p, level)
  {
    var b := BelowCount(p, i);
    LevelShare(p[i], level, total, |p|, b);
    RankAdmits(p, level, i, b + 1);
  }

  lemma BelowCount(p: seq<real>, i: nat) returns (b: nat)
    requires i < |p|
    ensures b == |Below(p, p[i])| < |p| && |AtMost(p, p[i])| >= b + 1
  {
    b := |Below(p, p[i])|;
    assert i !in Below(p, p[i]);
    SubsetSize(Below(p, p[i]) + {i}, AtMost(p, p[i]));
    AllIndices(p, Below(p, p[i]) + {i});
  }

  /** A p-value with `k` of them at or below it, and itself at most `level k / m`, is rejected. */
  lemma RankAdmits(p: seq<real>, level: real, i: nat, k: nat)
    requires i < |p| && 0 < k <= |p| && level >= 0.0
    requires |AtMost(p, p[i])| >= k && p[i] * |p| as real <= level * k as real
    ensures i in Rejected(p, level)
  {
    Quotient(p[i], level * k as real, |p| as real);
    SubsetSize(AtMost(p, p[i]), AtMost(p, Threshold(p, level, k)));
    ThresholdMonotone(p, level, k, LargestCount(p, level, |p|));
  }

  /** (b + 1) (m - b) >= m for every rank b below m, so a step-down level never exceeds the step-up one. */
  lemma LevelShare(v: real, level: real, total: nat, m: nat, b: nat)
    requires v >= 0.0 && b < m <= total && Clears(v, total - b, level)
    ensures v * m as real <= level * (b + 1) as real && level >= 0.0
  {
    ShareOfInts(total - b, b + 1, m, b);
    ShareOfReals(v, level, total - b, b + 1, m);
  }

  lemma ShareOfInts(w: int, c: int, m: int, b: int)
    requires 0 <= b < m && c == b + 1 && w >= m - b
    ensures w * c >= m
  {
    assert (m - b) * c - m == b * (m - 1 - b);
    assert b * (m - 1 - b) >= 0;
    assert (w - (m - b)) * c >= 0;
  }

  lemma ShareOfReals(v: real, level: real, w: int, c: int, m: int)
    requires v >= 0.0 && w > 0 && c > 0 && w * c >= m && Clears(v, w, level)
    ensures v * m as real <= level * c as real && level >= 0.0
  {
  }
}
