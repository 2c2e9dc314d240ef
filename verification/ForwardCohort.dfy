/** scripts/forward_cohort.py: the day-clustered member-minus-twin mean, and the drawdown of one member. Amounts are
  * reals; the interval is kept as its variance, so no square root is taken. */
module ForwardCohort {
  import opened Wrappers

  type Day = string

  datatype Trade = Trade(day: Day, net: real)

  datatype Pair = Pair(member: seq<Trade>, twin: seq<Trade>)

  datatype Summary = Summary(pairs: nat, days: nat, mean: real, variance: Option<real>, memberAhead: nat)

  // ---------------------------------------------------------------------------------------------
  // Sums over a set of days
  // ---------------------------------------------------------------------------------------------

  ghost function SumOver(s: set<Day>, f: map<Day, real>): real
    requires s <= f.Keys
  {
    if s == {} then 0.0
    else
      var d :| d in s;
      f[d] + SumOver(s - {d}, f)
  }

  /** The sum does not depend on the order the days are taken in. */
  lemma {:induction false} SumPick(s: set<Day>, f: map<Day, real>, d: Day)
    requires s <= f.Keys && d in s
    ensures SumOver(s, f) == f[d] + SumOver(s - {d}, f)
  {
    var e :| e in s && SumOver(s, f) == f[e] + SumOver(s - {e}, f);
    if e != d {
      SumPick(s - {e}, f, d);
      SumPick(s - {d}, f, e);
      assert s - {e} - {d} == s - {d} - {e};
    }
  }

  lemma {:induction false} SumAdds(s: set<Day>, f: map<Day, real>, g: map<Day, real>, h: map<Day, real>)
    requires s <= f.Keys && s <= g.Keys && s <= h.Keys && forall d :: d in s ==> h[d] == f[d] + g[d]
    ensures SumOver(s, h) == SumOver(s, f) + SumOver(s, g)
  {
    if s != {} {
      var d :| d in s;
      SumPick(s, f, d);
      SumPick(s, g, d);
      SumPick(s, h, d);
      SumAdds(s - {d}, f, g, h);
    }
  }

  lemma {:induction false} SumSame(s: set<Day>, f: map<Day, real>, g: map<Day, real>)
    requires s <= f.Keys && s <= g.Keys && forall d :: d in s ==> f[d] == g[d]
    ensures SumOver(s, f) == SumOver(s, g)
  {
    if s != {} {
      var d :| d in s;
      SumPick(s, f, d);
      SumPick(s, g, d);
      SumSame(s - {d}, f, g);
    }
  }

  /** A function that is `v` on one day and zero on the others sums to `v`. */
  lemma {:induction false} SumSpike(s: set<Day>, f: map<Day, real>, e: Day, v: real)
    requires s <= f.Keys && forall d :: d in s ==> f[d] == if d == e then v else 0.0
    ensures SumOver(s, f) == if e in s then v else 0.0
  {
    if s != {} {
      var d :| d in s;
      SumPick(s, f, d);
      SumSpike(s - {d}, f, e, v);
    }
  }

  // ---------------------------------------------------------------------------------------------
  // What the loop computes
  // ---------------------------------------------------------------------------------------------

  function Total(ts: seq<Trade>): real {
    if ts == [] then 0.0 else Total(ts[..|ts| - 1]) + ts[|ts| - 1].net
  }

  function Mean(ts: seq<Trade>): real
    requires ts != []
  {
    Total(ts) / |ts| as real
  }

  function DaysOf(ts: seq<Trade>): set<Day> {
    set t | t in ts :: t.day
  }

  function Usable(pairs: seq<Pair>): (u: seq<Pair>)
    ensures forall p :: p in u ==> p.member != [] && p.twin != []
  {
    if pairs == [] then []
    else
      var p := pairs[|pairs| - 1];
      if p.member != [] && p.twin != [] then Usable(pairs[..|pairs| - 1]) + [p] else Usable(pairs[..|pairs| - 1])
  }

  ghost predicate AllUsable(pairs: seq<Pair>) {
    forall p :: p in pairs ==> p.member != [] && p.twin != []
  }

  function Diff(p: Pair): real
    requires p.member != [] && p.twin != []
  {
    Mean(p.member) - Mean(p.twin)
  }

  ghost function DiffSum(pairs: seq<Pair>): real
    requires AllUsable(pairs)
  {
    if pairs == [] then 0.0 else DiffSum(pairs[..|pairs| - 1]) + Diff(pairs[|pairs| - 1])
  }

  ghost function Ahead(pairs: seq<Pair>): nat
    requires AllUsable(pairs)
  {
    if pairs == [] then 0 else Ahead(pairs[..|pairs| - 1]) + if Diff(pairs[|pairs| - 1]) > 0.0 then 1 else 0
  }

  ghost function Days(pairs: seq<Pair>): set<Day> {
    if pairs == [] then {}
    else Days(pairs[..|pairs| - 1]) + DaysOf(pairs[|pairs| - 1].member) + DaysOf(pairs[|pairs| - 1].twin)
  }

  /** What the trades of one side contribute to day `d`, each weighing `1 / w`. */
  function DayPart(ts: seq<Trade>, w: real, d: Day): real
    requires w != 0.0
  {
    if ts == [] then 0.0
    else
      var t := ts[|ts| - 1];
      DayPart(ts[..|ts| - 1], w, d) + if t.day == d then t.net / w else 0.0
  }

  function Weight(n: nat, ts: seq<Trade>): (w: real)
    requires n > 0 && ts != []
    ensures w > 0.0
  {
    (n * |ts|) as real
  }

  function PairPart(p: Pair, n: nat, d: Day): real
    requires n > 0 && p.member != [] && p.twin != []
  {
    DayPart(p.member, Weight(n, p.member), d) - DayPart(p.twin, Weight(n, p.twin), d)
  }

  ghost function DayShare(pairs: seq<Pair>, n: nat, d: Day): real
    requires n > 0 && AllUsable(pairs)
  {
    if pairs == [] then 0.0 else DayShare(pairs[..|pairs| - 1], n, d) + PairPart(pairs[|pairs| - 1], n, d)
  }

  ghost function ByDay(pairs: seq<Pair>): map<Day, real>
    requires pairs != [] && AllUsable(pairs)
  {
    map d | d in Days(pairs) :: DayShare(pairs, |pairs|, d)
  }

  ghost function MeanDiff(pairs: seq<Pair>): real
    requires pairs != [] && AllUsable(pairs)
  {
    DiffSum(pairs) / |pairs| as real
  }

  function Square(x: real): real {
    x * x
  }

  function Squares(byDay: map<Day, real>, share: real): map<Day, real> {
    map d | d in byDay :: Square(byDay[d] - share)
  }

  function Inflate(g: nat, sum: real): real
    requires g >= 2
  {
    g as real / (g - 1) as real * sum
  }

  /** `G / (G - 1) * sum (c_k - mean / G)^2` over the `G` days; under two days there is none. */
  ghost function Variance(byDay: map<Day, real>, mean: real): Option<real> {
    var g := |byDay|;
    if g < 2 then None
    else Some(Inflate(g, SumOver(byDay.Keys, Squares(byDay, mean / g as real))))
  }

  ghost function SummaryOf(pairs: seq<Pair>): Option<Summary> {
    var u := Usable(pairs);
    if u == [] then None
    else Some(Summary(|u|, |Days(u)|, MeanDiff(u), Variance(ByDay(u), MeanDiff(u)), Ahead(u)))
  }

  /** `by_day.get(d, 0.0)`. */
  function At(byDay: map<Day, real>, d: Day): real {
    if d in byDay then byDay[d] else 0.0
  }

  function Signed(minus: bool, x: real): real {
    if minus then -x else x
  }

  /** One side's inner loop over `by_day`: the member adds, the twin subtracts. */
  method AddSide(ts: seq<Trade>, w: real, minus: bool, before: map<Day, real>) returns (byDay: map<Day, real>)
    requires w != 0.0
    ensures byDay.Keys == before.Keys + DaysOf(ts)
    ensures forall d :: At(byDay, d) == At(before, d) + Signed(minus, DayPart(ts, w, d))
  {
    byDay := before;
    for i := 0 to |ts|
      invariant byDay.Keys == before.Keys + DaysOf(ts[..i])
      invariant forall d :: At(byDay, d) == At(before, d) + Signed(minus, DayPart(ts[..i], w, d))
    {
      var t := ts[i];
      var part := t.net / w;
      NextTrade(ts, i, w);
      byDay := byDay[t.day := At(byDay, t.day) + Signed(minus, part)];
    }
    assert ts[..|ts|] == ts;
  }

  lemma NextTrade(ts: seq<Trade>, i: nat, w: real)
    requires i < |ts| && w != 0.0
    ensures DaysOf(ts[..i + 1]) == DaysOf(ts[..i]) + {ts[i].day}
    ensures forall d ::
              DayPart(ts[..i + 1], w, d) == DayPart(ts[..i], w, d) + if ts[i].day == d then ts[i].net / w else 0.0
  {
    assert ts[..i + 1] == ts[..i] + [ts[i]];
    forall d
      ensures DayPart(ts[..i + 1], w, d) == DayPart(ts[..i], w, d) + if ts[i].day == d then ts[i].net / w else 0.0
    {
      assert ts[..i + 1][..i] == ts[..i];
    }
  }

  method TotalOf(ts: seq<Trade>) returns (total: real)
    ensures total == Total(ts)
  {
    total := 0.0;
    for i := 0 to |ts|
      invariant total == Total(ts[..i])
    {
      assert ts[..i + 1][..i] == ts[..i];
      total := total + ts[i].net;
    }
    assert ts[..|ts|] == ts;
  }

  /** `clustered_pair_mean`. */
  method ClusteredPairMean(pairs: seq<Pair>) returns (r: Option<Summary>)
    ensures r == SummaryOf(pairs)
  {
    var usable := Usable(pairs);
    if usable == [] {
      return None;
    }
    var count := |usable|;
    var byDay: map<Day, real> := map[];
    var diffs, ahead := 0.0, 0;
    for i := 0 to count
      invariant AllUsable(usable[..i])
      invariant diffs == DiffSum(usable[..i]) && ahead == Ahead(usable[..i])
      invariant byDay.Keys == Days(usable[..i]) && forall d :: At(byDay, d) == DayShare(usable[..i], count, d)
    {
      var p := usable[i];
      assert p in usable;
      assert usable[..i + 1][..i] == usable[..i];
      var memberTotal := TotalOf(p.member);
      var twinTotal := TotalOf(p.twin);
      var diff := memberTotal / |p.member| as real - twinTotal / |p.twin| as real;
      diffs := diffs + diff;
      ahead := ahead + if diff > 0.0 then 1 else 0;
      byDay := AddSide(p.member, Weight(count, p.member), false, byDay);
      byDay := AddSide(p.twin, Weight(count, p.twin), true, byDay);
    }
    assert usable[..count] == usable;
    forall d | d in byDay ensures byDay[d] == DayShare(usable, count, d) {
      assert At(byDay, d) == byDay[d];
    }
    assert byDay == ByDay(usable);
    var mean := diffs / count as real;
    var variance := VarianceOf(byDay, mean);
    assert |byDay| == |byDay.Keys|;
    r := Some(Summary(count, |byDay|, mean, variance, ahead));
  }

  /** The `days >= 2` block: the sum of squares is taken over the days in whatever order the dictionary holds them. */
  method VarianceOf(byDay: map<Day, real>, mean: real) returns (variance: Option<real>)
    ensures variance == Variance(byDay, mean)
  {
    var days := |byDay|;
    if days < 2 {
      return None;
    }
    var share := mean / days as real;
    var sum := 0.0;
    var rest := byDay.Keys;
    ghost var squares := Squares(byDay, share);
    while rest != {}
      invariant rest <= byDay.Keys && sum + SumOver(rest, squares) == SumOver(byDay.Keys, squares)
      decreases rest
    {
      var d :| d in rest;
      SumPick(rest, squares, d);
      sum := sum + Square(byDay[d] - share);
      rest := rest - {d};
    }
    variance := Some(Inflate(days, sum));
  }

  // ---------------------------------------------------------------------------------------------
  // The mean is conserved over days
  // ---------------------------------------------------------------------------------------------

  /** The mean over the usable pairs is the sum of the days' contributions. */
  lemma MeanIsSumOfDays(pairs: seq<Pair>)
    requires Usable(pairs) != []
    ensures var u := Usable(pairs); MeanDiff(u) == SumOver(Days(u), ByDay(u))
  {
    var u := Usable(pairs);
    var n := |u|;
    var shares := map d | d in Days(u) :: DayShare(u, n, d);
    SharesSum(u, n, Days(u), shares);
    SumSame(Days(u), ByDay(u), shares);
  }

  lemma {:induction false} SharesSum(pairs: seq<Pair>, n: nat, s: set<Day>, shares: map<Day, real>)
    requires n > 0 && AllUsable(pairs) && Days(pairs) <= s && shares.Keys == s
    requires forall d :: d in s ==> shares[d] == DayShare(pairs, n, d)
    ensures SumOver(s, shares) == DiffSum(pairs) / n as real
  {
    if pairs == [] {
      SumSpike(s, shares, "", 0.0);
      assert DiffSum(pairs) / n as real == 0.0;
    } else {
      var before, p := pairs[..|pairs| - 1], pairs[|pairs| - 1];
      var earlier := map d | d in s :: DayShare(before, n, d);
      var part := map d | d in s :: PairPart(p, n, d);
      SharesSum(before, n, s, earlier);
      PairSum(p, n, s, part);
      SumAdds(s, earlier, part, shares);
      AddQuotients(SumOver(s, earlier), SumOver(s, part), DiffSum(before), Diff(p), DiffSum(pairs), n as real);
    }
  }

  lemma AddQuotients(x: real, y: real, a: real, b: real, sum: real, c: real)
    requires c != 0.0 && x == a / c && y == b / c && sum == a + b
    ensures x + y == sum / c
  {
  }

  lemma DivideSum(a: real, b: real, c: real)
    requires c != 0.0
    ensures (a + b) / c == a / c + b / c
  {
  }

  lemma PairSum(p: Pair, n: nat, s: set<Day>, part: map<Day, real>)
    requires n > 0 && p.member != [] && p.twin != [] && DaysOf(p.member) + DaysOf(p.twin) <= s && part.Keys == s
    requires forall d :: d in s ==> part[d] == PairPart(p, n, d)
    ensures SumOver(s, part) == Diff(p) / n as real
  {
    var member := map d | d in s :: DayPart(p.member, Weight(n, p.member), d);
    var twin := map d | d in s :: DayPart(p.twin, Weight(n, p.twin), d);
    SideSum(p.member, Weight(n, p.member), s, member);
    SideSum(p.twin, Weight(n, p.twin), s, twin);
    SumAdds(s, part, twin, member);
    SideMean(p.member, n);
    SideMean(p.twin, n);
    SubtractQuotients(SumOver(s, member), SumOver(s, twin), Mean(p.member), Mean(p.twin), Diff(p), n as real);
  }

  lemma SubtractQuotients(x: real, y: real, a: real, b: real, diff: real, c: real)
    requires c != 0.0 && x == a / c && y == b / c && diff == a - b
    ensures x - y == diff / c
  {
  }

  lemma SideMean(ts: seq<Trade>, n: nat)
    requires n > 0 && ts != []
    ensures Total(ts) / Weight(n, ts) == Mean(ts) / n as real
  {
  }

  lemma {:induction false} SideSum(ts: seq<Trade>, w: real, s: set<Day>, parts: map<Day, real>)
    requires w != 0.0 && DaysOf(ts) <= s && parts.Keys == s
    requires forall d :: d in s ==> parts[d] == DayPart(ts, w, d)
    ensures SumOver(s, parts) == Total(ts) / w
  {
    if ts == [] {
      SumSpike(s, parts, "", 0.0);
    } else {
      var before, t := ts[..|ts| - 1], ts[|ts| - 1];
      assert t in ts;
      var earlier := map d | d in s :: DayPart(before, w, d);
      var last := map d | d in s :: if d == t.day then t.net / w else 0.0;
      SideSum(before, w, s, earlier);
      SumSpike(s, last, t.day, t.net / w);
      SumAdds(s, earlier, last, parts);
      DivideSum(Total(before), t.net, w);
    }
  }

  // ---------------------------------------------------------------------------------------------
  // The variance, by its second moment
  // ---------------------------------------------------------------------------------------------

  function Powers(byDay: map<Day, real>): map<Day, real> {
    map d | d in byDay :: byDay[d] * byDay[d]
  }

  /** (G - 1) V = G sum c_k^2 - mean^2. */
  predicate HasMoment(g: nat, v: real, powers: real, mean: real) {
    (g - 1) as real * v == g as real * powers - mean * mean
  }

  /** The variance is the one with this second moment over the days; under two days there is none. */
  lemma VarianceExactly(pairs: seq<Pair>)
    requires SummaryOf(pairs).Some?
    ensures var s, u := SummaryOf(pairs).value, Usable(pairs);
            && (s.variance.Some? <==> s.days >= 2)
            && (s.variance.Some? ==> HasMoment(s.days, s.variance.value, SumOver(Days(u), Powers(ByDay(u))), s.mean))
  {
    var u := Usable(pairs);
    MeanIsSumOfDays(pairs);
    assert ByDay(u).Keys == Days(u) && |ByDay(u).Keys| == |ByDay(u)|;
    SecondMoment(ByDay(u), MeanDiff(u));
  }

  lemma SecondMoment(c: map<Day, real>, mean: real)
    requires mean == SumOver(c.Keys, c)
    ensures Variance(c, mean).Some? <==> |c| >= 2
    ensures |c| >= 2 ==> HasMoment(|c|, Variance(c, mean).value, SumOver(c.Keys, Powers(c)), mean)
  {
    if |c| >= 2 {
      var share := mean / |c| as real;
      assert |c.Keys| == |c|;
      SquaresExpand(c.Keys, c, share);
      Moments(|c|, mean, share, SumOver(c.Keys, Powers(c)), SumOver(c.Keys, Squares(c, share)));
    }
  }

  /** The sum of the squared deviations from `t`. */
  lemma {:induction false} SquaresExpand(s: set<Day>, c: map<Day, real>, t: real)
    requires s <= c.Keys
    ensures SumOver(s, Squares(c, t)) == SumOver(s, Powers(c)) - Twice(t, SumOver(s, c)) + Scaled(|s|, t)
  {
    if s != {} {
      var d :| d in s;
      SumPick(s, c, d);
      SumPick(s, Powers(c), d);
      SumPick(s, Squares(c, t), d);
      SquaresExpand(s - {d}, c, t);
      OneSquare(c[d], t);
      TwiceAdds(t, c[d], SumOver(s - {d}, c));
      ScaledNext(|s - {d}|, t);
    }
  }

  function Twice(t: real, x: real): real {
    2.0 * t * x
  }

  function Scaled(n: nat, t: real): real {
    n as real * (t * t)
  }

  lemma OneSquare(x: real, t: real)
    ensures Square(x - t) == x * x - Twice(t, x) + t * t
  {
  }

  lemma TwiceAdds(t: real, x: real, y: real)
    ensures Twice(t, x + y) == Twice(t, x) + Twice(t, y)
  {
  }

  lemma ScaledNext(n: nat, t: real)
    ensures Scaled(n + 1, t) == Scaled(n, t) + t * t
  {
  }

  lemma Moments(n: nat, mean: real, share: real, powers: real, squares: real)
    requires n >= 2 && share == mean / n as real && squares == powers - Twice(share, mean) + Scaled(n, share)
    ensures HasMoment(n, Inflate(n, squares), powers, mean)
  {
    var g := n as real;
    assert share * g == mean;
    assert g * Twice(share, mean) == 2.0 * (share * g) * mean;
    assert g * Scaled(n, share) == (share * g) * (share * g);
    assert g * squares == g * powers - g * Twice(share, mean) + g * Scaled(n, share);
    Inflated(n, squares);
  }

  lemma Inflated(g: nat, sum: real)
    requires g >= 2
    ensures (g - 1) as real * Inflate(g, sum) == g as real * sum
  {
    var k := (g - 1) as real;
    assert k * (g as real / k) == g as real;
    assert Inflate(g, sum) == g as real / k * sum;
  }

  const SAMPLE_PAIRS := [Pair([Trade("a", 1.0), Trade("b", 3.0)], [Trade("a", 0.0)]), Pair([], [Trade("a", 9.0)]),
                         Pair([Trade("b", 2.0)], [Trade("c", 1.0)])]

  /** Two usable pairs, with differences 2 and 1, over three days that contribute 1/4, 7/4 and -1/2. */
  lemma SampleSummary()
    ensures SummaryOf(SAMPLE_PAIRS) == Some(Summary(2, 3, 1.5, Some(3.9375), 2))
  {
    SampleUsable();
    SampleDiffs();
    SampleDays();
    SampleVariance();
    SampleByDay();
    ThreeDays();
  }

  lemma ThreeDays()
    ensures |{"a", "b", "c"}| == 3
  {
  }

  lemma SampleByDay()
    ensures ByDay([SAMPLE_PAIRS[0], SAMPLE_PAIRS[2]]) == map["a" := 0.25, "b" := 1.75, "c" := -0.5]
  {
    SampleDays();
    SampleShares();
  }

  lemma SampleUsable()
    ensures Usable(SAMPLE_PAIRS) == [SAMPLE_PAIRS[0], SAMPLE_PAIRS[2]]
  {
    assert SAMPLE_PAIRS[..2][..1] == SAMPLE_PAIRS[..1] && SAMPLE_PAIRS[..1][..0] == [];
    assert Usable(SAMPLE_PAIRS[..1]) == [SAMPLE_PAIRS[0]];
    assert Usable(SAMPLE_PAIRS[..2]) == [SAMPLE_PAIRS[0]];
  }

  lemma TotalOne(t: Trade)
    ensures Total([t]) == t.net
  {
    assert [t][..0] == [];
  }

  lemma TotalTwo(s: Trade, t: Trade)
    ensures Total([s, t]) == s.net + t.net
  {
    assert [s, t][..1] == [s];
    TotalOne(s);
  }

  lemma SampleDiffs()
    ensures var u := [SAMPLE_PAIRS[0], SAMPLE_PAIRS[2]]; MeanDiff(u) == 1.5 && Ahead(u) == 2
  {
    var p, q := SAMPLE_PAIRS[0], SAMPLE_PAIRS[2];
    TotalTwo(p.member[0], p.member[1]);
    TotalOne(p.twin[0]);
    TotalOne(q.member[0]);
    TotalOne(q.twin[0]);
    assert Mean(p.member) == 2.0 && Mean(p.twin) == 0.0 && Mean(q.member) == 2.0 && Mean(q.twin) == 1.0;
    assert Diff(p) == 2.0 && Diff(q) == 1.0;
    DiffSumOne(p);
    assert [p, q][..1] == [p];
  }

  lemma DiffSumOne(p: Pair)
    requires p.member != [] && p.twin != []
    ensures AllUsable([p]) && DiffSum([p]) == Diff(p) && Ahead([p]) == if Diff(p) > 0.0 then 1 else 0
  {
    assert [p][..|[p]| - 1] == [];
    assert DiffSum([p][..|[p]| - 1]) == 0.0 && Ahead([p][..|[p]| - 1]) == 0;
  }

  lemma SampleDays()
    ensures Days([SAMPLE_PAIRS[0], SAMPLE_PAIRS[2]]) == {"a", "b", "c"}
  {
    var p, q := SAMPLE_PAIRS[0], SAMPLE_PAIRS[2];
    assert DaysOf(p.member) == {"a", "b"} && DaysOf(p.twin) == {"a"} by {
      assert p.member[0].day == "a" && p.member[1].day == "b" && p.twin[0].day == "a";
    }
    assert DaysOf(q.member) == {"b"} && DaysOf(q.twin) == {"c"} by {
      assert q.member[0].day == "b" && q.twin[0].day == "c";
    }
    assert [p, q][..1] == [p] && [p][..0] == [];
    assert Days([p]) == {"a", "b"};
  }

  lemma PartOne(t: Trade, w: real, d: Day)
    requires w != 0.0
    ensures DayPart([t], w, d) == if t.day == d then t.net / w else 0.0
  {
    assert [t][..0] == [];
  }

  lemma PartTwo(s: Trade, t: Trade, w: real, d: Day)
    requires w != 0.0
    ensures DayPart([s, t], w, d) == (if s.day == d then s.net / w else 0.0) + if t.day == d then t.net / w else 0.0
  {
    assert [s, t][..1] == [s];
    PartOne(s, w, d);
  }

  lemma SampleShares()
    ensures var u := [SAMPLE_PAIRS[0], SAMPLE_PAIRS[2]];
            DayShare(u, 2, "a") == 0.25 && DayShare(u, 2, "b") == 1.75 && DayShare(u, 2, "c") == -0.5
  {
    var p, q := SAMPLE_PAIRS[0], SAMPLE_PAIRS[2];
    assert [p, q][..1] == [p] && [p][..0] == [];
    forall d | d == "a" || d == "b" || d == "c"
      ensures DayShare([p, q], 2, d) == PairPart(p, 2, d) + PairPart(q, 2, d)
    {
      assert DayShare([p], 2, d) == PairPart(p, 2, d);
    }
    forall d ensures DayPart(p.member, 4.0, d) == (if d == "a" then 0.25 else 0.0) + (if d == "b" then 0.75 else 0.0) {
      PartTwo(p.member[0], p.member[1], 4.0, d);
    }
    forall d ensures DayPart(p.twin, 2.0, d) == 0.0 {
      PartOne(p.twin[0], 2.0, d);
    }
    forall d ensures DayPart(q.member, 2.0, d) == if d == "b" then 1.0 else 0.0 {
      PartOne(q.member[0], 2.0, d);
    }
    forall d ensures DayPart(q.twin, 2.0, d) == if d == "c" then 0.5 else 0.0 {
      PartOne(q.twin[0], 2.0, d);
    }
  }

  lemma SampleVariance()
    ensures Variance(map["a" := 0.25, "b" := 1.75, "c" := -0.5], 1.5) == Some(3.9375)
  {
    var c := map["a" := 0.25, "b" := 1.75, "c" := -0.5];
    assert c.Keys == {"a", "b", "c"} && |c| == |c.Keys| == 3;
    var squares := map["a" := 0.0625, "b" := 1.5625, "c" := 1.0];
    SampleSquares();
    InflatedSample();
    SampleDeviations();
    Third(|c|);
    assert squares.Keys == c.Keys;
  }

  lemma Third(g: nat)
    requires g == 3
    ensures 1.5 / g as real == 0.5
  {
  }

  lemma SampleDeviations()
    ensures Squares(map["a" := 0.25, "b" := 1.75, "c" := -0.5], 0.5) == map["a" := 0.0625, "b" := 1.5625, "c" := 1.0]
  {
    assert Square(-0.25) == 0.0625 && Square(1.25) == 1.5625 && Square(-1.0) == 1.0;
  }

  lemma SampleSquares()
    ensures SumOver({"a", "b", "c"}, map["a" := 0.0625, "b" := 1.5625, "c" := 1.0]) == 2.625
  {
    var squares := map["a" := 0.0625, "b" := 1.5625, "c" := 1.0];
    SumPick({"a", "b", "c"}, squares, "a");
    assert {"a", "b", "c"} - {"a"} == {"b", "c"};
    SumPick({"b", "c"}, squares, "b");
    assert {"b", "c"} - {"b"} == {"c"};
    SumPick({"c"}, squares, "c");
    assert {"c"} - {"c"} == {};
  }

  lemma InflatedSample()
    ensures Inflate(3, 2.625) == 3.9375
  {
  }

  // ---------------------------------------------------------------------------------------------
  // Swapping member and twin mirrors the interval
  // ---------------------------------------------------------------------------------------------

  function Swapped(pairs: seq<Pair>): seq<Pair> {
    if pairs == [] then []
    else Swapped(pairs[..|pairs| - 1]) + [Pair(pairs[|pairs| - 1].twin, pairs[|pairs| - 1].member)]
  }

  lemma {:induction false} SwappedUsable(pairs: seq<Pair>)
    ensures Usable(Swapped(pairs)) == Swapped(Usable(pairs)) && |Swapped(pairs)| == |pairs|
  {
    if pairs != [] {
      var before := pairs[..|pairs| - 1];
      SwappedUsable(before);
      assert Swapped(pairs)[..|Swapped(pairs)| - 1] == Swapped(before);
      if pairs[|pairs| - 1].member != [] && pairs[|pairs| - 1].twin != [] {
        assert Usable(pairs)[..|Usable(pairs)| - 1] == Usable(before);
      }
    }
  }

  lemma {:induction false} SwappedParts(u: seq<Pair>, n: nat)
    requires n > 0 && AllUsable(u)
    ensures |Swapped(u)| == |u| && AllUsable(Swapped(u)) && Days(Swapped(u)) == Days(u)
    ensures DiffSum(Swapped(u)) == -DiffSum(u)
    ensures forall d :: DayShare(Swapped(u), n, d) == -DayShare(u, n, d)
  {
    if u != [] {
      SwappedParts(u[..|u| - 1], n);
      assert Swapped(u)[..|Swapped(u)| - 1] == Swapped(u[..|u| - 1]);
    }
  }

  /** Swapping member and twin in every pair negates the mean and keeps the pairs, the days and the variance. */
  lemma SwapMirrors(pairs: seq<Pair>)
    ensures var a, b := SummaryOf(pairs), SummaryOf(Swapped(pairs));
            && (a.None? <==> b.None?)
            && (a.Some? ==> b.value.pairs == a.value.pairs && b.value.days == a.value.days
                            && b.value.mean == -a.value.mean && b.value.variance == a.value.variance)
  {
    SwappedUsable(pairs);
    var u := Usable(pairs);
    if u != [] {
      SwappedParts(u, |u|);
      SwapMean(u, Swapped(u));
      VarianceMirrors(ByDay(u), ByDay(Swapped(u)), MeanDiff(u), MeanDiff(Swapped(u)));
    }
  }

  /** How many differences are exactly zero. */
  ghost function Level(u: seq<Pair>): nat
    requires AllUsable(u)
  {
    if u == [] then 0 else Level(u[..|u| - 1]) + if Diff(u[|u| - 1]) == 0.0 then 1 else 0
  }

  lemma {:induction false} AheadEitherWay(u: seq<Pair>)
    requires AllUsable(u)
    ensures |Swapped(u)| == |u| && AllUsable(Swapped(u))
    ensures Ahead(u) + Ahead(Swapped(u)) + Level(u) == |u|
  {
    SwappedParts(u, |u| + 1);
    if u != [] {
      AheadEitherWay(u[..|u| - 1]);
      assert Swapped(u)[..|Swapped(u)| - 1] == Swapped(u[..|u| - 1]);
    }
  }

  /** In each pair the member is ahead before the swap, or after it, or the two are level. */
  lemma SwapAhead(pairs: seq<Pair>)
    requires SummaryOf(pairs).Some?
    ensures SummaryOf(Swapped(pairs)).Some?
    ensures SummaryOf(pairs).value.memberAhead + SummaryOf(Swapped(pairs)).value.memberAhead + Level(Usable(pairs))
            == SummaryOf(pairs).value.pairs
  {
    SwappedUsable(pairs);
    AheadEitherWay(Usable(pairs));
  }

  lemma SwapMean(u: seq<Pair>, v: seq<Pair>)
    requires u != [] && AllUsable(u) && |v| == |u| && AllUsable(v) && DiffSum(v) == -DiffSum(u)
    ensures MeanDiff(v) == -MeanDiff(u)
  {
    Negate(DiffSum(u), |u| as real);
  }

  lemma VarianceMirrors(a: map<Day, real>, b: map<Day, real>, mean: real, mirrored: real)
    requires b.Keys == a.Keys && (forall d :: d in a ==> b[d] == -a[d]) && mirrored == -mean
    ensures |a| == |b| && Variance(b, mirrored) == Variance(a, mean)
  {
    var g := |a|;
    assert |a.Keys| == g && |b.Keys| == |b|;
    if g >= 2 {
      Negate(mean, g as real);
      var x, y := mean / g as real, mirrored / g as real;
      forall d | d in a ensures Square(b[d] - y) == Square(a[d] - x) {
        SquareNegates(a[d] - x, b[d] - y);
      }
      assert Squares(b, y) == Squares(a, x);
    }
  }

  lemma Negate(a: real, c: real)
    requires c != 0.0
    ensures -a / c == -(a / c)
  {
  }

  lemma SquareNegates(x: real, y: real)
    requires y == -x
    ensures Square(x) == Square(y)
  {
  }

  // ---------------------------------------------------------------------------------------------
  // A constant edge, and taking it off
  // ---------------------------------------------------------------------------------------------

  function Shift(ts: seq<Trade>, delta: real): seq<Trade> {
    seq(|ts|, i requires 0 <= i < |ts| => Trade(ts[i].day, ts[i].net + delta))
  }

  /** `delta` added to every member trade. */
  function ShiftMembers(pairs: seq<Pair>, delta: real): seq<Pair> {
    seq(|pairs|, i requires 0 <= i < |pairs| => Pair(Shift(pairs[i].member, delta), pairs[i].twin))
  }

  function Times(n: nat, x: real): real {
    n as real * x
  }

  lemma {:induction false} ShiftTotal(ts: seq<Trade>, delta: real)
    ensures Total(Shift(ts, delta)) == Total(ts) + Times(|ts|, delta)
  {
    if ts != [] {
      ShiftTotal(ts[..|ts| - 1], delta);
      assert Shift(ts, delta)[..|ts| - 1] == Shift(ts[..|ts| - 1], delta);
    }
  }

  lemma {:induction false} ShiftUsable(pairs: seq<Pair>, delta: real)
    ensures Usable(ShiftMembers(pairs, delta)) == ShiftMembers(Usable(pairs), delta)
  {
    if pairs != [] {
      var before, p := pairs[..|pairs| - 1], pairs[|pairs| - 1];
      ShiftUsable(before, delta);
      assert ShiftMembers(pairs, delta)[..|pairs| - 1] == ShiftMembers(before, delta);
      if p.member != [] && p.twin != [] {
        assert ShiftMembers(Usable(before) + [p], delta) == ShiftMembers(Usable(before), delta)
               + [Pair(Shift(p.member, delta), p.twin)];
      }
    }
  }

  lemma ShiftDiff(p: Pair, delta: real)
    requires p.member != [] && p.twin != []
    ensures Diff(Pair(Shift(p.member, delta), p.twin)) == Diff(p) + delta
  {
    ShiftTotal(p.member, delta);
    AddMultiple(Total(p.member), Total(Shift(p.member, delta)), |p.member|, delta);
  }

  lemma {:induction false} ShiftDiffSum(u: seq<Pair>, delta: real)
    requires AllUsable(u)
    ensures AllUsable(ShiftMembers(u, delta))
    ensures DiffSum(ShiftMembers(u, delta)) == DiffSum(u) + Times(|u|, delta)
  {
    if u != [] {
      var before, p := u[..|u| - 1], u[|u| - 1];
      assert p in u;
      ShiftDiffSum(before, delta);
      ShiftDiff(p, delta);
      assert ShiftMembers(u, delta)[..|u| - 1] == ShiftMembers(before, delta);
      OneMore(|before|, delta);
    }
  }

  lemma OneMore(n: nat, delta: real)
    ensures Times(n + 1, delta) == Times(n, delta) + delta
  {
  }

  lemma AddMultiple(a: real, b: real, n: nat, delta: real)
    requires n > 0 && b == a + Times(n, delta)
    ensures b / n as real == a / n as real + delta
  {
  }

  /** Adding `delta` to every member trade adds `delta` to the mean difference. */
  lemma ShiftMean(pairs: seq<Pair>, delta: real)
    requires Usable(pairs) != []
    ensures Usable(ShiftMembers(pairs, delta)) != []
    ensures MeanDiff(Usable(ShiftMembers(pairs, delta))) == MeanDiff(Usable(pairs)) + delta
  {
    var u := Usable(pairs);
    var v := ShiftMembers(u, delta);
    ShiftUsable(pairs, delta);
    ShiftDiffSum(u, delta);
    AddedMean(u, v, delta);
  }

  lemma AddedMean(u: seq<Pair>, v: seq<Pair>, delta: real)
    requires u != [] && AllUsable(u) && |v| == |u| && AllUsable(v)
    requires DiffSum(v) == DiffSum(u) + Times(|u|, delta)
    ensures MeanDiff(v) == MeanDiff(u) + delta
  {
    assert MeanDiff(u) == DiffSum(u) / |u| as real && MeanDiff(v) == DiffSum(v) / |u| as real;
    AddMultiple(DiffSum(u), DiffSum(v), |u|, delta);
  }

  // ---------------------------------------------------------------------------------------------
  // One member's detail
  // ---------------------------------------------------------------------------------------------

  datatype Detail = Detail(n: nat, winRate: Option<real>, profitFactor: Option<real>, maxDrawdown: Option<real>,
                           avgWin: Option<real>, avgLoss: Option<real>, feeCost: Option<real>,
                           slippageCost: Option<real>, vsBacktest: Option<real>, vsHoldout: Option<real>)

  /** What the candidate's evidence and each priced row carry besides the net R. */
  datatype Record = Record(fees: seq<Option<real>>, slippages: seq<Option<real>>, backtest: Option<real>,
                           holdout: Option<real>)

  function Sum(nets: seq<real>): real {
    if nets == [] then 0.0 else Sum(nets[..|nets| - 1]) + nets[|nets| - 1]
  }

  function Wins(nets: seq<real>): (w: seq<real>)
    ensures |w| <= |nets| && forall i :: 0 <= i < |w| ==> w[i] > 0.0
    ensures w != [] <==> exists i :: 0 <= i < |nets| && nets[i] > 0.0
  {
    if nets == [] then []
    else Wins(nets[..|nets| - 1]) + if nets[|nets| - 1] > 0.0 then [nets[|nets| - 1]] else []
  }

  function Losses(nets: seq<real>): (l: seq<real>)
    ensures forall i :: 0 <= i < |l| ==> l[i] < 0.0
    ensures l != [] <==> exists i :: 0 <= i < |nets| && nets[i] < 0.0
  {
    if nets == [] then []
    else Losses(nets[..|nets| - 1]) + if nets[|nets| - 1] < 0.0 then [nets[|nets| - 1]] else []
  }

  lemma {:induction false} SumPositive(xs: seq<real>)
    requires forall i :: 0 <= i < |xs| ==> xs[i] > 0.0
    ensures if xs == [] then Sum(xs) == 0.0 else Sum(xs) > 0.0
  {
    if xs != [] {
      SumPositive(xs[..|xs| - 1]);
    }
  }

  lemma {:induction false} SumNegative(xs: seq<real>)
    requires forall i :: 0 <= i < |xs| ==> xs[i] < 0.0
    ensures if xs == [] then Sum(xs) == 0.0 else Sum(xs) < 0.0
  {
    if xs != [] {
      SumNegative(xs[..|xs| - 1]);
    }
  }

  /** Wins and losses account for the whole sum. */
  lemma {:induction false} WinsAndLosses(nets: seq<real>)
    ensures Sum(Wins(nets)) + Sum(Losses(nets)) == Sum(nets)
  {
    if nets != [] {
      var before, last := nets[..|nets| - 1], nets[|nets| - 1];
      WinsAndLosses(before);
      assert Wins(before) + [] == Wins(before) && Losses(before) + [] == Losses(before);
    }
  }

  /** They are the trades above zero and below it, each as often as it occurs. */
  lemma {:induction false} WinsExactly(nets: seq<real>, v: real)
    ensures multiset(Wins(nets))[v] == if v > 0.0 then multiset(nets)[v] else 0
    ensures multiset(Losses(nets))[v] == if v < 0.0 then multiset(nets)[v] else 0
  {
    if nets != [] {
      var before, last := nets[..|nets| - 1], nets[|nets| - 1];
      assert nets == before + [last];
      CountsSnoc(before, last, v);
      WinsExactly(before, v);
      if last > 0.0 {
        CountsSnoc(Wins(before), last, v);
      }
      if last < 0.0 {
        CountsSnoc(Losses(before), last, v);
      }
    }
  }

  lemma CountsSnoc(xs: seq<real>, x: real, v: real)
    ensures multiset(xs + [x])[v] == multiset(xs)[v] + if x == v then 1 else 0
  {
  }

  /** Cumulative net R: before any trade, and after each one. */
  function Equity(nets: seq<real>): (e: seq<real>)
    ensures |e| == |nets| + 1 && e[0] == 0.0
    ensures forall k :: 0 <= k < |nets| ==> e[k + 1] == e[k] + nets[k]
  {
    if nets == [] then [0.0]
    else
      var e := Equity(nets[..|nets| - 1]);
      e + [e[|nets| - 1] + nets[|nets| - 1]]
  }

  lemma {:induction false} EquityEnds(nets: seq<real>)
    ensures Equity(nets)[|nets|] == Sum(nets)
  {
    if nets != [] {
      EquityEnds(nets[..|nets| - 1]);
    }
  }

  ghost predicate Fall(e: seq<real>, v: real) {
    exists i, j :: 0 <= i <= j < |e| && v == e[i] - e[j]
  }

  /** `v` is the largest peak-to-trough fall of the equity curve `e`. */
  ghost predicate LargestFall(e: seq<real>, v: real) {
    Fall(e, v) && forall i, j :: 0 <= i <= j < |e| ==> e[i] - e[j] <= v
  }

  ghost predicate Loses(nets: seq<real>) {
    exists i :: 0 <= i < |nets| && nets[i] < 0.0
  }

  ghost predicate Peak(e: seq<real>, peak: real) {
    peak in e && forall i :: 0 <= i < |e| ==> e[i] <= peak
  }

  function Max(a: real, b: real): real {
    if b > a then b else a
  }

  /** What the loop knows after the first `k` points of the curve. */
  ghost predicate Running(e: seq<real>, k: nat, peak: real, drawdown: real) {
    k <= |e| && Peak(e[..k], peak) && LargestFall(e[..k], drawdown)
  }

  /** The three running values of `detail_columns`. */
  method Drawdown(nets: seq<real>) returns (drawdown: real)
    ensures LargestFall(Equity(nets), drawdown)
  {
    var cumulative, peak := 0.0, 0.0;
    drawdown := 0.0;
    ghost var e := Equity(nets);
    StartOfCurve(e);
    for k := 0 to |nets|
      invariant cumulative == e[k] && Running(e, k + 1, peak, drawdown)
    {
      cumulative := cumulative + nets[k];
      RunningStep(e, k + 1, peak, drawdown);
      peak := Max(peak, cumulative);
      drawdown := Max(drawdown, peak - cumulative);
    }
    assert e[..|e|] == e;
  }

  lemma StartOfCurve(e: seq<real>)
    requires e != [] && e[0] == 0.0
    ensures Running(e, 1, 0.0, 0.0)
  {
  }

  lemma RunningStep(e: seq<real>, k: nat, peak: real, drawdown: real)
    requires k < |e| && Running(e, k, peak, drawdown)
    ensures Running(e, k + 1, Max(peak, e[k]), Max(drawdown, Max(peak, e[k]) - e[k]))
  {
  }

  /** A largest fall is zero exactly when no trade loses. */
  lemma FallIsZero(nets: seq<real>, v: real)
    requires LargestFall(Equity(nets), v)
    ensures v >= 0.0 && (v == 0.0 <==> !Loses(nets))
  {
    var e := Equity(nets);
    assert e[0] - e[0] <= v;
    if k :| 0 <= k < |nets| && nets[k] < 0.0 {
      assert e[k] - e[k + 1] <= v;
    } else {
      var i, j :| 0 <= i <= j < |e| && v == e[i] - e[j];
      Climbs(nets, i, j);
    }
  }

  lemma {:induction false} Climbs(nets: seq<real>, i: nat, j: nat)
    requires !Loses(nets) && i <= j <= |nets|
    ensures Equity(nets)[i] <= Equity(nets)[j]
    decreases j
  {
    if i < j {
      Climbs(nets, i, j - 1);
      assert Equity(nets)[j - 1 + 1] == Equity(nets)[j - 1] + nets[j - 1];
    }
  }

  /** Gross wins over gross losses. */
  method ProfitFactor(nets: seq<real>) returns (f: Option<real>)
    ensures f.Some? <==> Loses(nets)
    ensures f.Some? ==> Sum(Losses(nets)) < 0.0 && f.value == Sum(Wins(nets)) / -Sum(Losses(nets))
    ensures f.Some? ==> (f.value > 1.0 <==> Sum(nets) / |nets| as real > 0.0)
  {
    var wins, losses := Wins(nets), Losses(nets);
    WinsAndLosses(nets);
    if losses == [] {
      return None;
    }
    SumNegative(losses);
    RatioAboveOne(Sum(wins), -Sum(losses), Sum(nets), |nets| as real);
    f := Some(Sum(wins) / -Sum(losses));
  }

  method MaxDrawdown(nets: seq<real>) returns (v: Option<real>)
    ensures v.Some? <==> nets != []
    ensures v.Some? ==> LargestFall(Equity(nets), v.value) && (v.value == 0.0 <==> !Loses(nets))
  {
    if nets == [] {
      return None;
    }
    var drawdown := Drawdown(nets);
    FallIsZero(nets, drawdown);
    v := Some(drawdown);
  }

  ghost predicate AllKnown(values: seq<Option<real>>) {
    forall i :: 0 <= i < |values| ==> values[i].Some?
  }

  function KnownSum(values: seq<Option<real>>): real {
    if values == [] then 0.0
    else KnownSum(values[..|values| - 1]) + if values[|values| - 1].Some? then values[|values| - 1].value else 0.0
  }

  /** Where every row has the field it is the plain sum. */
  lemma {:induction false} KnownSumIs(values: seq<Option<real>>, plain: seq<real>)
    requires |values| == |plain| && forall i :: 0 <= i < |plain| ==> values[i] == Some(plain[i])
    ensures KnownSum(values) == Sum(plain)
  {
    if values != [] {
      KnownSumIs(values[..|values| - 1], plain[..|plain| - 1]);
    }
  }

  /** `_mean_of`: none when any row lacks the field, never a mean over fewer trades. */
  method MeanOf(values: seq<Option<real>>) returns (m: Option<real>)
    ensures m.Some? <==> values != [] && AllKnown(values)
    ensures m.Some? ==> m.value == KnownSum(values) / |values| as real
  {
    if values == [] {
      return None;
    }
    var total := 0.0;
    for i := 0 to |values|
      invariant AllKnown(values[..i]) && total == KnownSum(values[..i])
    {
      assert values[..i + 1][..i] == values[..i];
      if values[i].None? {
        return None;
      }
      total := total + values[i].value;
      assert forall j :: 0 <= j < i ==> values[j] == values[..i][j];
    }
    assert values[..|values|] == values;
    m := Some(total / |values| as real);
  }

  /** How far the forward mean lies above what the candidate's own evidence expects. */
  function Versus(nets: seq<real>, expected: Option<real>): Option<real> {
    if nets == [] || expected.None? then None else Some(Sum(nets) / |nets| as real - expected.value)
  }

  /** `detail_columns`, over the priced net R of one member in settlement order. */
  method DetailColumns(nets: seq<real>, record: Record) returns (d: Detail)
    requires |record.fees| == |record.slippages| == |nets|
    ensures d.n == |nets|
    ensures d.feeCost.Some? <==> nets != [] && AllKnown(record.fees)
    ensures d.feeCost.Some? ==> d.feeCost.value == KnownSum(record.fees) / |nets| as real
    ensures d.slippageCost.Some? <==> nets != [] && AllKnown(record.slippages)
    ensures d.slippageCost.Some? ==> d.slippageCost.value == KnownSum(record.slippages) / |nets| as real
    ensures d.vsBacktest.Some? <==> nets != [] && record.backtest.Some?
    ensures d.vsBacktest.Some? ==> d.vsBacktest.value == Sum(nets) / |nets| as real - record.backtest.value
    ensures d.vsHoldout.Some? <==> nets != [] && record.holdout.Some?
    ensures d.vsHoldout.Some? ==> d.vsHoldout.value == Sum(nets) / |nets| as real - record.holdout.value
    ensures d.maxDrawdown.Some? <==> nets != []
    ensures d.maxDrawdown.Some? ==>
              LargestFall(Equity(nets), d.maxDrawdown.value) && (d.maxDrawdown.value == 0.0 <==> !Loses(nets))
    ensures d.profitFactor.Some? <==> Loses(nets)
    ensures d.profitFactor.Some? ==>
              Sum(Losses(nets)) < 0.0 && d.profitFactor.value == Sum(Wins(nets)) / -Sum(Losses(nets))
    ensures d.profitFactor.Some? ==> (d.profitFactor.value > 1.0 <==> Sum(nets) / |nets| as real > 0.0)
    ensures d.avgLoss.Some? <==> Loses(nets)
    ensures d.avgLoss.Some? ==>
              Losses(nets) != [] && d.avgLoss.value == -Sum(Losses(nets)) / |Losses(nets)| as real > 0.0
    ensures d.winRate.Some? <==> nets != []
    ensures d.winRate.Some? ==>
              d.winRate.value == |Wins(nets)| as real / |nets| as real && 0.0 <= d.winRate.value <= 1.0
    ensures d.avgWin.Some? ==> Wins(nets) != [] && d.avgWin.value == Sum(Wins(nets)) / |Wins(nets)| as real > 0.0
    ensures d.winRate.Some? ==> (d.winRate.value > 0.0 <==> d.avgWin.Some?)
  {
    var drawdown := MaxDrawdown(nets);
    var factor := ProfitFactor(nets);
    var avgWin, avgLoss := Averages(nets);
    var winRate := None;
    if nets != [] {
      WinsAndLosses(nets);
      Share(|Wins(nets)|, |nets|);
      winRate := Some(|Wins(nets)| as real / |nets| as real);
    }
    var fee := MeanOf(record.fees);
    var slippage := MeanOf(record.slippages);
    d := Detail(|nets|, winRate, factor, drawdown, avgWin, avgLoss, fee, slippage, Versus(nets, record.backtest),
                Versus(nets, record.holdout));
  }

  /** The mean win, and the mean loss as a positive amount. */
  method Averages(nets: seq<real>) returns (win: Option<real>, loss: Option<real>)
    ensures (win.Some? <==> Wins(nets) != []) && (loss.Some? <==> Loses(nets))
    ensures win.Some? ==> win.value > 0.0 && win.value == Sum(Wins(nets)) / |Wins(nets)| as real
    ensures loss.Some? ==>
              Losses(nets) != [] && loss.value > 0.0 && loss.value == -Sum(Losses(nets)) / |Losses(nets)| as real
  {
    var wins, losses := Wins(nets), Losses(nets);
    WinsAndLosses(nets);
    SumPositive(wins);
    SumNegative(losses);
    win, loss := None, None;
    if wins != [] {
      Positive(Sum(wins), |wins| as real);
      win := Some(Sum(wins) / |wins| as real);
    }
    if losses != [] {
      Positive(-Sum(losses), |losses| as real);
      loss := Some(-Sum(losses) / |losses| as real);
    }
  }

  lemma Positive(a: real, c: real)
    requires a > 0.0 && c > 0.0
    ensures a / c > 0.0
  {
  }

  lemma Share(a: nat, b: nat)
    requires a <= b && b > 0
    ensures 0.0 <= a as real / b as real <= 1.0
    ensures a as real / b as real > 0.0 <==> a > 0
  {
  }

  lemma RatioAboveOne(won: real, lost: real, net: real, n: real)
    requires lost > 0.0 && net == won - lost && n > 0.0
    ensures won / lost > 1.0 <==> net / n > 0.0
  {
  }
}
