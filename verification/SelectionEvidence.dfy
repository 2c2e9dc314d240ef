/** scripts/selection_evidence.py: the hierarchical judgement of one timeframe. A family's or lineage's p-value is a
  * function `tail` of mean^2 / variance; all that is assumed of it is what `erfc` has: it is 1 at zero, falls from
  * there, and is never negative. */
module SelectionEvidence {
  import opened Wrappers
  import opened ForwardCohort
  import opened MultipleTesting

  /** The economic family, or the lineage inside one, and its member-twin pairs. Groups come in the sorted order of
    * their names. */
  datatype Group = Group(name: string, pairs: seq<Pair>)

  type Tail = real -> real

  ghost predicate IsTail(tail: Tail) {
    tail(0.0) == 1.0 && (forall x :: tail(x) >= 0.0) && forall x, y :: 0.0 <= x < y ==> tail(y) < tail(x)
  }

  /** `two_sided_p`: read off the interval, so a summary without one, or with a flat one, has none. */
  function TwoSidedP(tail: Tail, s: Option<Summary>): Option<real> {
    if s.None? || s.value.variance.None? || s.value.variance.value <= 0.0 then None
    else Some(tail(Square(s.value.mean) / s.value.variance.value))
  }

  /** A group and its summary. */
  datatype Entry = Entry(name: string, summary: Option<Summary>)

  ghost function EntryOf(g: Group): Entry {
    Entry(g.name, SummaryOf(g.pairs))
  }

  ghost function Entries(groups: seq<Group>): (es: seq<Entry>)
    ensures |es| == |groups|
  {
    if groups == [] then [] else Entries(groups[..|groups| - 1]) + [EntryOf(groups[|groups| - 1])]
  }

  lemma {:induction false} EntryAt(groups: seq<Group>, i: nat)
    requires i < |groups|
    ensures Entries(groups)[i] == EntryOf(groups[i]) && Entries(groups)[..i] == Entries(groups[..i])
  {
    var before := groups[..|groups| - 1];
    if i < |groups| - 1 {
      EntryAt(before, i);
      assert before[..i] == groups[..i];
    }
  }

  /** Whether a group enters the test: a p-value, over at least `minDays` days. */
  predicate Tested(tail: Tail, e: Entry, minDays: nat) {
    TwoSidedP(tail, e.summary).Some? && e.summary.value.days >= minDays
  }

  /** The p-values of the groups that are tested, in order. */
  function TestedPs(tail: Tail, es: seq<Entry>, minDays: nat): (ps: seq<real>)
    ensures |ps| <= |es|
    ensures IsTail(tail) ==> PValues(ps)
  {
    if es == [] then []
    else
      var e := es[|es| - 1];
      var before := TestedPs(tail, es[..|es| - 1], minDays);
      if Tested(tail, e, minDays) then before + [TwoSidedP(tail, e.summary).value] else before
  }

  // ---------------------------------------------------------------------------------------------
  // Verdicts
  // ---------------------------------------------------------------------------------------------

  datatype Label = Pass | Behind | NotRejected | Untested

  function VerdictLabel(rejected: Option<bool>, mean: real): Label {
    if rejected.None? then Untested
    else if !rejected.value then NotRejected
    else if mean > 0.0 then Pass else Behind
  }

  datatype Row = Row(name: string, summary: Summary, p: Option<real>, rejected: Option<bool>, verdict: Label)

  /** What a stage shows of an entry that `rank` tested ones come before. */
  function RowOf(tail: Tail, e: Entry, minDays: nat, rejections: set<nat>, rank: nat): Option<Row> {
    if e.summary.None? then None
    else
      var rejected := if Tested(tail, e, minDays) then Some(rank in rejections) else None;
      Some(Row(e.name, e.summary.value, TwoSidedP(tail, e.summary), rejected,
               VerdictLabel(rejected, e.summary.value.mean)))
  }

  function Rows(tail: Tail, es: seq<Entry>, minDays: nat, rejections: set<nat>): seq<Row> {
    if es == [] then []
    else
      var before := es[..|es| - 1];
      var r := RowOf(tail, es[|es| - 1], minDays, rejections, |TestedPs(tail, before, minDays)|);
      if r.Some? then Rows(tail, before, minDays, rejections) + [r.value] else Rows(tail, before, minDays, rejections)
  }

  /** `clustered_pair_mean` over every group. */
  method Summarize(groups: seq<Group>) returns (es: seq<Entry>)
    ensures es == Entries(groups)
  {
    es := [];
    for i := 0 to |groups|
      invariant es == Entries(groups[..i])
    {
      assert groups[..i + 1][..i] == groups[..i];
      var summary := ClusteredPairMean(groups[i].pairs);
      es := es + [Entry(groups[i].name, summary)];
    }
    assert groups[..|groups|] == groups;
  }

  /** `_testable`. */
  method Testable(tail: Tail, es: seq<Entry>, minDays: nat) returns (ps: seq<real>)
    ensures ps == TestedPs(tail, es, minDays)
  {
    ps := [];
    for i := 0 to |es|
      invariant ps == TestedPs(tail, es[..i], minDays)
    {
      assert es[..i + 1][..i] == es[..i];
      var p := TwoSidedP(tail, es[i].summary);
      if p.Some? && es[i].summary.value.days >= minDays {
        ps := ps + [p.value];
      }
    }
    assert es[..|es|] == es;
  }

  /** The rows a stage shows: every group with a summary, and whether the test rejects it, if it is tested. */
  method ShowRows(tail: Tail, es: seq<Entry>, minDays: nat, rejections: set<nat>) returns (rows: seq<Row>)
    ensures rows == Rows(tail, es, minDays, rejections)
  {
    rows := [];
    var rank := 0;
    for i := 0 to |es|
      invariant rank == |TestedPs(tail, es[..i], minDays)| && rows == Rows(tail, es[..i], minDays, rejections)
    {
      assert es[..i + 1][..i] == es[..i];
      if es[i].summary.None? {
        continue;
      }
      var row := Row(es[i].name, es[i].summary.value, TwoSidedP(tail, es[i].summary), None, Untested);
      if row.p.Some? && row.summary.days >= minDays {
        row := row.(rejected := Some(rank in rejections));
        rank := rank + 1;
      }
      rows := rows + [row.(verdict := VerdictLabel(row.rejected, row.summary.mean))];
    }
    assert es[..|es|] == es;
  }

  ghost function Stage1(tail: Tail, es: seq<Entry>, q: real, minDays: nat): seq<Row> {
    Rows(tail, es, minDays, Rejected(TestedPs(tail, es, minDays), q))
  }

  /** `family_stage`. */
  method FamilyStage(tail: Tail, families: seq<Group>, q: real, minDays: nat) returns (rows: seq<Row>)
    requires IsTail(tail)
    ensures rows == Stage1(tail, Entries(families), q, minDays)
  {
    var es := Summarize(families);
    var ps := Testable(tail, es, minDays);
    var passed := BenjaminiHochberg(ps, q);
    rows := ShowRows(tail, es, minDays, passed);
  }

  /** `z` is mean^2 / variance. */
  predicate Ratio(s: Summary, z: real) {
    s.variance.Some? && s.variance.value > 0.0 && z * s.variance.value == s.mean * s.mean
  }

  /** A row has a p-value where its variance is positive, the tail of mean^2 / variance, and is judged where it has one
    * over enough days; it passes exactly when it is rejected in favour of the member, and is behind when it is rejected
    * otherwise. */
  ghost predicate RowStands(tail: Tail, r: Row, minDays: nat) {
    && (r.p.Some? <==> r.summary.variance.Some? && r.summary.variance.value > 0.0)
    && (forall z :: Ratio(r.summary, z) ==> r.p == Some(tail(z)))
    && (r.rejected.Some? <==> r.p.Some? && r.summary.days >= minDays)
    && (r.verdict == Untested <==> r.rejected.None?)
    && (r.verdict == NotRejected <==> r.rejected == Some(false))
    && (r.verdict == Pass <==> r.rejected == Some(true) && r.summary.mean > 0.0)
    && (r.verdict == Behind <==> r.rejected == Some(true) && r.summary.mean <= 0.0)
  }

  lemma OneRowStands(tail: Tail, e: Entry, minDays: nat, rejections: set<nat>, rank: nat)
    ensures var r := RowOf(tail, e, minDays, rejections, rank); r.Some? ==> RowStands(tail, r.value, minDays)
  {
    if e.summary.Some? {
      forall z | Ratio(e.summary.value, z) ensures TwoSidedP(tail, e.summary) == Some(tail(z)) {
        RatioIs(e.summary.value.mean, e.summary.value.variance.value, z);
      }
    }
  }

  lemma RatioIs(mean: real, v: real, z: real)
    requires v > 0.0 && z * v == mean * mean
    ensures z == Square(mean) / v
  {
    QuotientBack(Square(mean), z, v);
  }

  lemma QuotientBack(a: real, z: real, c: real)
    requires c > 0.0 && z * c == a
    ensures z == a / c
  {
  }

  /** A stage shows one row for each group with a summary, and each stands as it should. */
  lemma {:induction false} RowsJudgeTheTested(tail: Tail, es: seq<Entry>, minDays: nat, rejections: set<nat>)
    ensures |Rows(tail, es, minDays, rejections)| == Counted(es)
    ensures forall r :: r in Rows(tail, es, minDays, rejections) ==> RowStands(tail, r, minDays)
  {
    if es != [] {
      var before := es[..|es| - 1];
      RowsJudgeTheTested(tail, before, minDays, rejections);
      OneRowStands(tail, es[|es| - 1], minDays, rejections, |TestedPs(tail, before, minDays)|);
    }
  }

  /** The groups a stage shows: the ones with a summary. */
  function WithSummary(es: seq<Entry>): (shown: seq<Entry>)
    ensures forall e :: e in shown <==> e in es && e.summary.Some?
  {
    if es == [] then []
    else
      var e := es[|es| - 1];
      assert es == es[..|es| - 1] + [e];
      WithSummary(es[..|es| - 1]) + if e.summary.Some? then [e] else []
  }

  /** The rows are these groups, in order, under their summaries. */
  lemma {:induction false} RowsShow(tail: Tail, es: seq<Entry>, minDays: nat, rejections: set<nat>)
    ensures var rows, shown := Rows(tail, es, minDays, rejections), WithSummary(es);
            |rows| == |shown| && forall k :: 0 <= k < |rows| ==> shown[k] == Entry(rows[k].name, Some(rows[k].summary))
  {
    if es != [] {
      RowsShow(tail, es[..|es| - 1], minDays, rejections);
    }
  }

  /** The rows that are judged, in order. */
  function Judged(rows: seq<Row>): (js: seq<Row>)
    ensures forall r :: r in js <==> r in rows && r.rejected.Some?
  {
    if rows == [] then []
    else
      var r := rows[|rows| - 1];
      assert rows == rows[..|rows| - 1] + [r];
      Judged(rows[..|rows| - 1]) + if r.rejected.Some? then [r] else []
  }

  /** Their p-values. */
  function PsOf(js: seq<Row>): seq<real>
    requires forall r :: r in js ==> r.p.Some?
  {
    seq(|js|, k requires 0 <= k < |js| => js[k].p.value)
  }

  /** The `k`-th of them has the `k`-th p-value, and is rejected when `k` is. */
  ghost predicate JudgedBy(js: seq<Row>, ps: seq<real>, rejections: set<nat>) {
    |js| == |ps| && forall k :: 0 <= k < |js| ==> js[k].p == Some(ps[k]) && js[k].rejected == Some(k in rejections)
  }

  lemma JudgedSnoc(rows: seq<Row>, r: Row)
    ensures Judged(rows + [r]) == Judged(rows) + if r.rejected.Some? then [r] else []
  {
    assert (rows + [r])[..|rows|] == rows;
  }

  lemma {:induction false} JudgedAreTested(tail: Tail, es: seq<Entry>, minDays: nat, rejections: set<nat>)
    ensures JudgedBy(Judged(Rows(tail, es, minDays, rejections)), TestedPs(tail, es, minDays), rejections)
  {
    if es != [] {
      var before := es[..|es| - 1];
      JudgedAreTested(tail, before, minDays, rejections);
      var ps := TestedPs(tail, before, minDays);
      var r := RowOf(tail, es[|es| - 1], minDays, rejections, |ps|);
      if r.Some? {
        JudgedSnoc(Rows(tail, before, minDays, rejections), r.value);
        if r.value.rejected.Some? {
          OneMoreJudged(Judged(Rows(tail, before, minDays, rejections)), ps, rejections, r.value);
        }
      }
    }
  }

  lemma OneMoreJudged(js: seq<Row>, ps: seq<real>, rejections: set<nat>, r: Row)
    requires JudgedBy(js, ps, rejections) && r.p.Some? && r.rejected == Some(|ps| in rejections)
    ensures JudgedBy(js + [r], ps + [r.p.value], rejections)
  {
  }

  lemma JudgedPs(js: seq<Row>, ps: seq<real>, rejections: set<nat>)
    requires JudgedBy(js, ps, rejections)
    ensures (forall r :: r in js ==> r.p.Some?) && PsOf(js) == ps
  {
  }

  /** Every lineage with a summary counts, tested or not. */
  function Counted(es: seq<Entry>): nat {
    if es == [] then 0
    else Counted(es[..|es| - 1]) + if es[|es| - 1].summary.Some? then 1 else 0
  }

  lemma {:induction false} TestedCount(tail: Tail, es: seq<Entry>, minDays: nat)
    ensures |TestedPs(tail, es, minDays)| <= Counted(es)
  {
    if es != [] {
      TestedCount(tail, es[..|es| - 1], minDays);
    }
  }

  ghost function Stage2(tail: Tail, es: seq<Entry>, alpha: real, minDays: nat): seq<Row>
    requires |TestedPs(tail, es, minDays)| <= Counted(es)
  {
    Rows(tail, es, minDays, HolmRejected(TestedPs(tail, es, minDays), alpha, Counted(es)))
  }

  method Shown(es: seq<Entry>) returns (m: nat)
    ensures m == Counted(es)
  {
    m := 0;
    for i := 0 to |es|
      invariant m == Counted(es[..i])
    {
      assert es[..i + 1][..i] == es[..i];
      m := m + if es[i].summary.Some? then 1 else 0;
    }
    assert es[..|es|] == es;
  }

  /** `lineage_stage`, over the lineages of one family. */
  method LineageStage(tail: Tail, lineages: seq<Group>, alpha: real, minDays: nat) returns (rows: seq<Row>)
    requires IsTail(tail)
    ensures |TestedPs(tail, Entries(lineages), minDays)| <= Counted(Entries(lineages))
    ensures rows == Stage2(tail, Entries(lineages), alpha, minDays)
  {
    var es := Summarize(lineages);
    var ps := Testable(tail, es, minDays);
    var m := Shown(es);
    TestedCount(tail, es, minDays);
    var passed := Holm(ps, alpha, m);
    rows := ShowRows(tail, es, minDays, passed);
  }

  /** Stage 1 rejects exactly the judged rows the step-up procedure rejects among the judged ones. */
  lemma Stage1Rejects(tail: Tail, es: seq<Entry>, q: real, minDays: nat, k: nat)
    requires IsTail(tail) && k < |Judged(Stage1(tail, es, q, minDays))|
    ensures var js := Judged(Stage1(tail, es, q, minDays));
            (forall r :: r in js ==> r.p.Some?) && (js[k].rejected == Some(true) <==> StepsUpTo(PsOf(js), q, k))
  {
    var ps := TestedPs(tail, es, minDays);
    JudgedAreTested(tail, es, minDays, Rejected(ps, q));
    JudgedPs(Judged(Stage1(tail, es, q, minDays)), ps, Rejected(ps, q));
    RejectedExactly(ps, q, k);
  }

  /** Stage 2 rejects exactly the judged rows with no smaller or equal p-value among the judged ones missing its share
    * of the level over all rows shown. */
  lemma Stage2Rejects(tail: Tail, es: seq<Entry>, alpha: real, minDays: nat, k: nat)
    requires IsTail(tail) && |TestedPs(tail, es, minDays)| <= Counted(es)
    requires k < |Judged(Stage2(tail, es, alpha, minDays))|
    ensures var rows := Stage2(tail, es, alpha, minDays);
            var js := Judged(rows);
            && (forall r :: r in js ==> r.p.Some?)
            && (js[k].rejected == Some(true) <==> StepsDownPast(PsOf(js), alpha, |rows|, k))
  {
    var ps := TestedPs(tail, es, minDays);
    var rejections := HolmRejected(ps, alpha, Counted(es));
    JudgedAreTested(tail, es, minDays, rejections);
    JudgedPs(Judged(Stage2(tail, es, alpha, minDays)), ps, rejections);
    RowsJudgeTheTested(tail, es, minDays, rejections);
    HolmRejectedExactly(ps, alpha, Counted(es), k);
  }

  /** A lineage Holm rejects over the whole family is also rejected by Benjamini-Hochberg over the tested ones. */
  lemma LineagePassIsStepUpPass(tail: Tail, es: seq<Entry>, level: real, minDays: nat)
    requires IsTail(tail)
    ensures |TestedPs(tail, es, minDays)| <= Counted(es)
    ensures HolmRejected(TestedPs(tail, es, minDays), level, Counted(es))
            <= Rejected(TestedPs(tail, es, minDays), level)
  {
    TestedCount(tail, es, minDays);
    HolmWithinBenjaminiHochberg(TestedPs(tail, es, minDays), level, Counted(es));
  }

  // ---------------------------------------------------------------------------------------------
  // Swapping every member with its twin
  // ---------------------------------------------------------------------------------------------

  function SwapAll(groups: seq<Group>): seq<Group> {
    seq(|groups|, i requires 0 <= i < |groups| => Group(groups[i].name, Swapped(groups[i].pairs)))
  }

  function Exchanged(l: Label): Label {
    match l
    case Pass => Behind
    case Behind => Pass
    case _ => l
  }

  /** The same evidence, pointing the other way. */
  predicate Mirror(e: Entry, f: Entry) {
    && f.name == e.name && (f.summary.None? <==> e.summary.None?)
    && (e.summary.Some? ==>
          && f.summary.value.mean == -e.summary.value.mean && f.summary.value.variance == e.summary.value.variance
          && f.summary.value.days == e.summary.value.days && f.summary.value.pairs == e.summary.value.pairs)
  }

  lemma SwapMirrorsEntry(g: Group)
    ensures Mirror(EntryOf(g), EntryOf(Group(g.name, Swapped(g.pairs))))
  {
    SwapMirrors(g.pairs);
  }

  predicate AllMirror(es: seq<Entry>, fs: seq<Entry>) {
    |es| == |fs| && forall i :: 0 <= i < |es| ==> Mirror(es[i], fs[i])
  }

  lemma SwapMirrorsEntries(groups: seq<Group>)
    ensures AllMirror(Entries(groups), Entries(SwapAll(groups)))
  {
    forall i | 0 <= i < |groups| ensures Mirror(Entries(groups)[i], Entries(SwapAll(groups))[i]) {
      EntryAt(groups, i);
      EntryAt(SwapAll(groups), i);
      SwapMirrorsEntry(groups[i]);
    }
  }

  lemma MirrorP(tail: Tail, e: Entry, f: Entry)
    requires Mirror(e, f)
    ensures TwoSidedP(tail, f.summary) == TwoSidedP(tail, e.summary)
  {
    if e.summary.Some? {
      SquareNegates(e.summary.value.mean, f.summary.value.mean);
    }
  }

  lemma {:induction false} MirrorPs(tail: Tail, es: seq<Entry>, fs: seq<Entry>, minDays: nat)
    requires AllMirror(es, fs)
    ensures TestedPs(tail, fs, minDays) == TestedPs(tail, es, minDays)
  {
    if es != [] {
      MirrorPs(tail, es[..|es| - 1], fs[..|fs| - 1], minDays);
      MirrorP(tail, es[|es| - 1], fs[|fs| - 1]);
    }
  }

  /** The mirrored row: the negated mean, the same p and the same rejection. The labels are exchanged, but for a
    * rejected zero mean, which there is none of below level 1. */
  predicate MirrorRow(a: Row, b: Row) {
    && b.name == a.name && b.summary.mean == -a.summary.mean && b.summary.variance == a.summary.variance
    && b.p == a.p && b.rejected == a.rejected
    && (ExchangedRow(a, b) <==> a.summary.mean != 0.0 || a.rejected != Some(true))
  }

  predicate ExchangedRow(a: Row, b: Row) {
    b.verdict == Exchanged(a.verdict)
  }

  /** Row by row, the mirrored evidence under the exchanged label. */
  predicate ExchangedRows(a: seq<Row>, b: seq<Row>) {
    MirrorRows(a, b) && forall i :: 0 <= i < |a| ==> ExchangedRow(a[i], b[i])
  }

  predicate MirrorRows(a: seq<Row>, b: seq<Row>) {
    |a| == |b| && forall i :: 0 <= i < |a| ==> MirrorRow(a[i], b[i])
  }

  lemma MirrorOneRow(tail: Tail, e: Entry, f: Entry, minDays: nat, rejections: set<nat>, rank: nat)
    requires Mirror(e, f)
    ensures var a, b := RowOf(tail, e, minDays, rejections, rank), RowOf(tail, f, minDays, rejections, rank);
            (a.None? <==> b.None?) && (a.Some? ==> MirrorRow(a.value, b.value))
  {
    MirrorP(tail, e, f);
  }

  lemma {:induction false} MirroredRows(tail: Tail, es: seq<Entry>, fs: seq<Entry>, minDays: nat, rejections: set<nat>)
    requires AllMirror(es, fs)
    ensures MirrorRows(Rows(tail, es, minDays, rejections), Rows(tail, fs, minDays, rejections))
  {
    if es != [] {
      var before := es[..|es| - 1];
      MirroredRows(tail, before, fs[..|fs| - 1], minDays, rejections);
      MirrorPs(tail, before, fs[..|fs| - 1], minDays);
      MirrorOneRow(tail, es[|es| - 1], fs[|fs| - 1], minDays, rejections, |TestedPs(tail, before, minDays)|);
    }
  }

  /** No rejected p-value is 1. */
  ghost predicate RejectsBelowOne(ps: seq<real>, rejections: set<nat>) {
    forall k :: k in rejections && k < |ps| ==> ps[k] < 1.0
  }

  lemma ZeroMeanP(tail: Tail, s: Option<Summary>)
    requires IsTail(tail) && s.Some? && s.value.mean == 0.0 && TwoSidedP(tail, s).Some?
    ensures TwoSidedP(tail, s) == Some(1.0)
  {
    assert Square(s.value.mean) / s.value.variance.value == 0.0;
  }

  /** A mean difference of zero has p-value 1, so no stage below level 1 rejects it. */
  lemma {:induction false} ZeroMeanNotRejected(tail: Tail, es: seq<Entry>, minDays: nat, rejections: set<nat>)
    requires IsTail(tail) && RejectsBelowOne(TestedPs(tail, es, minDays), rejections)
    ensures forall r :: r in Rows(tail, es, minDays, rejections) ==> r.summary.mean == 0.0 ==> r.rejected != Some(true)
  {
    if es != [] {
      var before, e := es[..|es| - 1], es[|es| - 1];
      var ps, qs := TestedPs(tail, before, minDays), TestedPs(tail, es, minDays);
      assert ps <= qs;
      ZeroMeanNotRejected(tail, before, minDays, rejections);
      if e.summary.Some? && e.summary.value.mean == 0.0 && Tested(tail, e, minDays) {
        ZeroMeanP(tail, e.summary);
        assert qs[|ps|] == 1.0;
      }
    }
  }

  lemma StagesRejectBelowOne(ps: seq<real>, level: real, total: nat)
    requires PValues(ps) && level < 1.0 && total >= |ps|
    ensures RejectsBelowOne(ps, Rejected(ps, level)) && RejectsBelowOne(ps, HolmRejected(ps, level, total))
  {
    forall k | k in Rejected(ps, level) ensures k < |ps| && ps[k] < 1.0 {
      RejectedBelowOne(ps, level, k);
    }
    forall k | k in HolmRejected(ps, level, total) ensures k < |ps| && ps[k] < 1.0 {
      HolmRejectedBelowOne(ps, level, total, k);
    }
  }

  lemma ExchangedWhenZeroStays(a: seq<Row>, b: seq<Row>)
    requires MirrorRows(a, b) && forall r :: r in a ==> r.summary.mean == 0.0 ==> r.rejected != Some(true)
    ensures ExchangedRows(a, b)
  {
    forall i | 0 <= i < |a| ensures ExchangedRow(a[i], b[i]) {
      assert a[i] in a && MirrorRow(a[i], b[i]);
    }
  }

  /** Stage 1 on the swapped data shows each family with the mirrored mean, the same p and the same rejection, at any
    * level; below level 1 PASS and BEHIND are exchanged everywhere. */
  lemma SwapExchangesStage1(tail: Tail, families: seq<Group>, q: real, minDays: nat)
    ensures var a := Stage1(tail, Entries(families), q, minDays);
            var b := Stage1(tail, Entries(SwapAll(families)), q, minDays);
            MirrorRows(a, b) && (IsTail(tail) && q < 1.0 ==> ExchangedRows(a, b))
  {
    SwapMirrorsEntries(families);
    MirroredStage1(tail, Entries(families), Entries(SwapAll(families)), q, minDays);
  }

  lemma MirroredStage1(tail: Tail, es: seq<Entry>, fs: seq<Entry>, q: real, minDays: nat)
    requires AllMirror(es, fs)
    ensures MirrorRows(Stage1(tail, es, q, minDays), Stage1(tail, fs, q, minDays))
    ensures IsTail(tail) && q < 1.0 ==> ExchangedRows(Stage1(tail, es, q, minDays), Stage1(tail, fs, q, minDays))
  {
    var ps := TestedPs(tail, es, minDays);
    MirrorPs(tail, es, fs, minDays);
    MirroredRows(tail, es, fs, minDays, Rejected(ps, q));
    if IsTail(tail) && q < 1.0 {
      StagesRejectBelowOne(ps, q, |ps|);
      ZeroMeanNotRejected(tail, es, minDays, Rejected(ps, q));
      ExchangedWhenZeroStays(Stage1(tail, es, q, minDays), Stage1(tail, fs, q, minDays));
    }
  }

  lemma {:induction false} MirrorCounted(es: seq<Entry>, fs: seq<Entry>)
    requires AllMirror(es, fs)
    ensures Counted(fs) == Counted(es)
  {
    if es != [] {
      MirrorCounted(es[..|es| - 1], fs[..|fs| - 1]);
      assert Mirror(es[|es| - 1], fs[|fs| - 1]);
    }
  }

  lemma MirroredStage2(tail: Tail, es: seq<Entry>, fs: seq<Entry>, alpha: real, minDays: nat)
    requires AllMirror(es, fs) && IsTail(tail) && alpha < 1.0
    ensures |TestedPs(tail, es, minDays)| <= Counted(es) && |TestedPs(tail, fs, minDays)| <= Counted(fs)
    ensures ExchangedRows(Stage2(tail, es, alpha, minDays), Stage2(tail, fs, alpha, minDays))
  {
    var ps := TestedPs(tail, es, minDays);
    TestedCount(tail, es, minDays);
    TestedCount(tail, fs, minDays);
    MirrorPs(tail, es, fs, minDays);
    MirrorCounted(es, fs);
    var rejections := HolmRejected(ps, alpha, Counted(es));
    MirroredRows(tail, es, fs, minDays, rejections);
    StagesRejectBelowOne(ps, alpha, Counted(es));
    ZeroMeanNotRejected(tail, es, minDays, rejections);
    ExchangedWhenZeroStays(Stage2(tail, es, alpha, minDays), Stage2(tail, fs, alpha, minDays));
  }

  /** The same for stage 2, over the lineages of a family. */
  lemma SwapExchangesStage2(tail: Tail, lineages: seq<Group>, alpha: real, minDays: nat)
    requires IsTail(tail) && alpha < 1.0
    ensures var es, fs := Entries(lineages), Entries(SwapAll(lineages));
            && |TestedPs(tail, es, minDays)| <= Counted(es) && |TestedPs(tail, fs, minDays)| <= Counted(fs)
            && ExchangedRows(Stage2(tail, es, alpha, minDays), Stage2(tail, fs, alpha, minDays))
  {
    SwapMirrorsEntries(lineages);
    MirroredStage2(tail, Entries(lineages), Entries(SwapAll(lineages)), alpha, minDays);
  }

  // ---------------------------------------------------------------------------------------------
  // Centring
  // ---------------------------------------------------------------------------------------------

  /** What `centered` adds to every member trade. */
  function CenterShift(s: Option<Summary>): real {
    if s.Some? then -s.value.mean else 0.0
  }

  /** `centered`: the family's own mean difference taken off every member trade. */
  ghost function Centered(pairs: seq<Pair>): seq<Pair> {
    ShiftMembers(pairs, CenterShift(SummaryOf(pairs)))
  }

  method Center(pairs: seq<Pair>) returns (out: seq<Pair>)
    ensures out == Centered(pairs)
  {
    var summary := ClusteredPairMean(pairs);
    out := ShiftMembers(pairs, CenterShift(summary));
  }

  lemma ShiftTwice(pairs: seq<Pair>, a: real, b: real)
    ensures ShiftMembers(ShiftMembers(pairs, a), b) == ShiftMembers(pairs, a + b)
  {
    forall i | 0 <= i < |pairs| ensures Shift(Shift(pairs[i].member, a), b) == Shift(pairs[i].member, a + b) {
    }
  }

  /** A centred family has a mean difference of exactly zero. */
  lemma CenteredMeanIsZero(pairs: seq<Pair>)
    requires SummaryOf(pairs).Some?
    ensures SummaryOf(Centered(pairs)).Some? && SummaryOf(Centered(pairs)).value.mean == 0.0
  {
    ShiftMean(pairs, CenterShift(SummaryOf(pairs)));
  }

  lemma UsableForgets(pairs: seq<Pair>, delta: real)
    requires SummaryOf(pairs).Some?
    ensures Centered(ShiftMembers(pairs, delta)) == Centered(pairs)
  {
    var shifted := ShiftMembers(pairs, delta);
    ShiftSummary(pairs, delta, SummaryOf(pairs), SummaryOf(shifted));
    ForgetBy(pairs, delta, SummaryOf(pairs), SummaryOf(shifted));
  }

  lemma ForgetBy(pairs: seq<Pair>, delta: real, s: Option<Summary>, t: Option<Summary>)
    requires s.Some? && t.Some? && t.value.mean == s.value.mean + delta
    ensures ShiftMembers(ShiftMembers(pairs, delta), CenterShift(t)) == ShiftMembers(pairs, CenterShift(s))
  {
    ShiftTwice(pairs, delta, CenterShift(t));
  }

  lemma ShiftSummary(pairs: seq<Pair>, delta: real, s: Option<Summary>, t: Option<Summary>)
    requires s == SummaryOf(pairs) && t == SummaryOf(ShiftMembers(pairs, delta)) && s.Some?
    ensures t.Some? && t.value.mean == s.value.mean + delta
  {
    ShiftMean(pairs, delta);
  }

  lemma UnusableStays(pairs: seq<Pair>, delta: real)
    requires SummaryOf(pairs).None?
    ensures SummaryOf(ShiftMembers(pairs, delta)).None?
  {
    ShiftUsable(pairs, delta);
  }

  lemma UnusableCentered(pairs: seq<Pair>, delta: real)
    requires SummaryOf(pairs).None?
    ensures Centered(ShiftMembers(pairs, delta)) == ShiftMembers(pairs, delta)
            && Centered(pairs) == ShiftMembers(pairs, 0.0)
  {
    UnusableStays(pairs, delta);
    ShiftTwice(pairs, delta, 0.0);
  }

  lemma SameShift(pairs: seq<Pair>, delta: real)
    ensures ShiftMembers(pairs, delta) == ShiftMembers(pairs, 0.0) <==>
            (delta == 0.0 || forall i :: 0 <= i < |pairs| ==> pairs[i].member == [])
  {
    var a, b := ShiftMembers(pairs, delta), ShiftMembers(pairs, 0.0);
    forall i | 0 <= i < |pairs| ensures a[i] == b[i] <==> delta == 0.0 || pairs[i].member == [] {
      SameShiftOne(pairs[i].member, delta);
    }
    assert a == b <==> forall i :: 0 <= i < |pairs| ==> a[i] == b[i];
  }

  lemma SameShiftOne(ts: seq<Trade>, delta: real)
    ensures Shift(ts, delta) == Shift(ts, 0.0) <==> delta == 0.0 || ts == []
  {
    if Shift(ts, delta) == Shift(ts, 0.0) && |ts| > 0 {
      var a, b := Shift(ts, delta)[0].net, Shift(ts, 0.0)[0].net;
      assert a == b;
    }
  }

  /** Centring forgets a constant edge, exactly when some pair carries a difference, or there is nothing to shift. */
  lemma CenteringForgetsEdge(pairs: seq<Pair>, delta: real)
    ensures Centered(ShiftMembers(pairs, delta)) == Centered(pairs) <==>
            (SummaryOf(pairs).Some? || delta == 0.0 || forall i :: 0 <= i < |pairs| ==> pairs[i].member == [])
  {
    if SummaryOf(pairs).Some? {
      UsableForgets(pairs, delta);
    } else {
      UnusableCentered(pairs, delta);
      SameShift(pairs, delta);
    }
  }

  // ---------------------------------------------------------------------------------------------
  // Calibration
  // ---------------------------------------------------------------------------------------------

  /** The coin of draw `d` for pair `i` of group `g`; the theorems hold for every sequence of coins. */
  type Coins = (int, int, int) -> bool

  /** Heads swaps member and twin. */
  function Flip(pairs: seq<Pair>, coins: Coins, d: nat, g: nat): seq<Pair> {
    seq(|pairs|, i requires 0 <= i < |pairs| => if coins(d, g, i) then Pair(pairs[i].twin, pairs[i].member)
                                                else pairs[i])
  }

  function FlipAll(groups: seq<Group>, coins: Coins, d: nat): seq<Group> {
    seq(|groups|, g requires 0 <= g < |groups| => Group(groups[g].name, Flip(groups[g].pairs, coins, d, g)))
  }

  ghost function CenterAll(groups: seq<Group>): seq<Group> {
    seq(|groups|, g requires 0 <= g < |groups| => Group(groups[g].name, Centered(groups[g].pairs)))
  }

  /** The p-values draw `d` tests. */
  ghost function DrawnPs(tail: Tail, groups: seq<Group>, minDays: nat, coins: Coins, d: nat): seq<real> {
    TestedPs(tail, Entries(FlipAll(CenterAll(groups), coins, d)), minDays)
  }

  ghost function Draws(tail: Tail, groups: seq<Group>, minDays: nat, coins: Coins, draws: nat): (ds: seq<seq<real>>)
    ensures |ds| == draws
  {
    if draws == 0 then []
    else Draws(tail, groups, minDays, coins, draws - 1) + [DrawnPs(tail, groups, minDays, coins, draws - 1)]
  }

  /** How many draws pass any family, and how many families they pass in all. */
  datatype Tally = Tally(anyPass: nat, total: nat)

  function TallyOf(draws: seq<seq<real>>, q: real): Tally {
    if draws == [] then Tally(0, 0)
    else
      var before := TallyOf(draws[..|draws| - 1], q);
      var n := |Rejected(draws[|draws| - 1], q)|;
      Tally(before.anyPass + if n > 0 then 1 else 0, before.total + n)
  }

  ghost function Calibrated(tail: Tail, groups: seq<Group>, q: real, minDays: nat, coins: Coins, draws: nat): Tally {
    TallyOf(Draws(tail, groups, minDays, coins, draws), q)
  }

  method CenterGroups(groups: seq<Group>) returns (nulls: seq<Group>)
    ensures nulls == CenterAll(groups)
  {
    nulls := [];
    for g := 0 to |groups|
      invariant |nulls| == g
      invariant forall j :: 0 <= j < g ==> nulls[j] == Group(groups[j].name, Centered(groups[j].pairs))
    {
      var c := Center(groups[g].pairs);
      nulls := nulls + [Group(groups[g].name, c)];
    }
  }

  /** One draw: flip, test. */
  method DrawOnce(tail: Tail, nulls: seq<Group>, ghost groups: seq<Group>, minDays: nat, coins: Coins, d: nat)
    returns (ps: seq<real>)
    requires nulls == CenterAll(groups)
    ensures ps == DrawnPs(tail, groups, minDays, coins, d)
  {
    var es := Summarize(FlipAll(nulls, coins, d));
    ps := Testable(tail, es, minDays);
  }

  method PassesOf(ps: seq<real>, q: real, ghost draws: seq<seq<real>>) returns (n: nat)
    requires PValues(ps)
    ensures TallyOf(draws + [ps], q)
            == Tally(TallyOf(draws, q).anyPass + if n > 0 then 1 else 0, TallyOf(draws, q).total + n)
  {
    var rejected := BenjaminiHochberg(ps, q);
    n := |rejected|;
  }

  /** `calibration`. */
  method Calibration(tail: Tail, groups: seq<Group>, q: real, minDays: nat, draws: nat, coins: Coins)
    returns (tally: Tally)
    requires IsTail(tail)
    ensures tally == Calibrated(tail, groups, q, minDays, coins, draws)
  {
    tally := Tally(0, 0);
    var nulls := CenterGroups(groups);
    for d := 0 to draws
      invariant tally == TallyOf(Draws(tail, groups, minDays, coins, d), q)
    {
      var ps := DrawOnce(tail, nulls, groups, minDays, coins, d);
      var n := PassesOf(ps, q, Draws(tail, groups, minDays, coins, d));
      assert Draws(tail, groups, minDays, coins, d + 1) == Draws(tail, groups, minDays, coins, d) + [ps];
      tally := Tally(tally.anyPass + if n > 0 then 1 else 0, tally.total + n);
    }
  }

  /** Heads everywhere swaps every pair, tails everywhere none. */
  lemma CoinsSwap(groups: seq<Group>, coins: Coins, d: nat)
    ensures (forall g, i :: coins(d, g, i)) ==> FlipAll(groups, coins, d) == SwapAll(groups)
    ensures (forall g, i :: !coins(d, g, i)) ==> FlipAll(groups, coins, d) == groups
  {
    forall g | 0 <= g < |groups|
      ensures (forall i :: coins(d, g, i)) ==> Flip(groups[g].pairs, coins, d, g) == Swapped(groups[g].pairs)
      ensures (forall i :: !coins(d, g, i)) ==> Flip(groups[g].pairs, coins, d, g) == groups[g].pairs
    {
      if forall i :: coins(d, g, i) {
        SwappedFlips(groups[g].pairs, coins, d, g);
      }
    }
  }

  lemma {:induction false} SwappedFlips(pairs: seq<Pair>, coins: Coins, d: nat, g: nat)
    requires forall i :: coins(d, g, i)
    ensures Flip(pairs, coins, d, g) == Swapped(pairs)
  {
    if pairs != [] {
      SwappedFlips(pairs[..|pairs| - 1], coins, d, g);
      assert Flip(pairs, coins, d, g)[..|pairs| - 1] == Flip(pairs[..|pairs| - 1], coins, d, g);
    }
  }

  /** The coins of one pair decide about that pair alone. */
  lemma CoinsApart(pairs: seq<Pair>, coins: Coins, d: nat, g: nat, i: nat)
    requires i < |pairs|
    ensures |Flip(pairs, coins, d, g)| == |pairs|
    ensures Flip(pairs, coins, d, g)[i..i + 1] == if coins(d, g, i) then Swapped(pairs[i..i + 1]) else pairs[i..i + 1]
  {
    assert pairs[i..i + 1] == [pairs[i]] && [pairs[i]][..0] == [];
  }

  /** The draw passes something. */
  ghost predicate DrawPasses(tail: Tail, groups: seq<Group>, q: real, minDays: nat, coins: Coins, d: nat) {
    Passing(DrawnPs(tail, groups, minDays, coins, d), q) != {}
  }

  /** The numbers below `n` with the property. */
  ghost function Where(n: nat, property: nat -> bool): set<nat> {
    set e: nat | e < n && property(e)
  }

  lemma WhereNext(n: nat, property: nat -> bool)
    ensures |Where(n + 1, property)| == |Where(n, property)| + if property(n) then 1 else 0
  {
    assert Where(n + 1, property) == Where(n, property) + if property(n) then {n} else {};
  }

  /** How many families the draws pass in all. */
  ghost function Passes(tail: Tail, groups: seq<Group>, q: real, minDays: nat, coins: Coins, draws: nat): nat {
    if draws == 0 then 0
    else Passes(tail, groups, q, minDays, coins, draws - 1)
         + |Passing(DrawnPs(tail, groups, minDays, coins, draws - 1), q)|
  }

  /** The calibration counts the draws that pass something, and the families passed. */
  lemma {:induction false} CalibratedExactly(tail: Tail, groups: seq<Group>, q: real, minDays: nat, coins: Coins,
                                             draws: nat, passes: nat -> bool)
    requires IsTail(tail) && forall d: nat :: passes(d) <==> DrawPasses(tail, groups, q, minDays, coins, d)
    ensures Calibrated(tail, groups, q, minDays, coins, draws).anyPass == |Where(draws, passes)|
    ensures Calibrated(tail, groups, q, minDays, coins, draws).total == Passes(tail, groups, q, minDays, coins, draws)
  {
    if draws > 0 {
      var d := draws - 1;
      var ps := DrawnPs(tail, groups, minDays, coins, d);
      CalibratedExactly(tail, groups, q, minDays, coins, d, passes);
      PassingIs(ps, q);
      WhereNext(d, passes);
      TallySnoc(Draws(tail, groups, minDays, coins, d), ps, q);
      assert Draws(tail, groups, minDays, coins, draws) == Draws(tail, groups, minDays, coins, d) + [ps];
      assert passes(d) <==> Rejected(ps, q) != {};
    }
  }

  lemma TallySnoc(draws: seq<seq<real>>, ps: seq<real>, q: real)
    ensures TallyOf(draws + [ps], q)
            == Tally(TallyOf(draws, q).anyPass + if Rejected(ps, q) != {} then 1 else 0,
                     TallyOf(draws, q).total + |Rejected(ps, q)|)
  {
    assert (draws + [ps])[..|draws|] == draws;
  }

  /** The p-values the step-up procedure rejects. */
  ghost function Passing(ps: seq<real>, q: real): set<nat> {
    set i: nat | i < |ps| && StepsUpTo(ps, q, i)
  }

  lemma PassingIs(ps: seq<real>, q: real)
    requires PValues(ps)
    ensures Passing(ps, q) == Rejected(ps, q)
  {
    forall i: nat | i < |ps| ensures StepsUpTo(ps, q, i) <==> i in Rejected(ps, q) {
      RejectedExactly(ps, q, i);
    }
  }

  /** `delta(g)` added to every member trade of family `g`. */
  function Edged(groups: seq<Group>, delta: int -> real): seq<Group> {
    seq(|groups|, g requires 0 <= g < |groups| => Group(groups[g].name, ShiftMembers(groups[g].pairs, delta(g))))
  }

  /** A group that enters no test whatever the coins. */
  ghost predicate Silent(g: Group) {
    SummaryOf(g.pairs).None?
  }

  /** The two groups are the same, or neither has a summary. */
  ghost predicate SameEvidence(a: Group, b: Group) {
    a == b || (Silent(a) && Silent(b))
  }

  lemma {:induction false} FlipUnusable(pairs: seq<Pair>, coins: Coins, d: nat, g: nat)
    requires Usable(pairs) == []
    ensures Usable(Flip(pairs, coins, d, g)) == []
  {
    if pairs != [] {
      FlipUnusable(pairs[..|pairs| - 1], coins, d, g);
      assert Flip(pairs, coins, d, g)[..|pairs| - 1] == Flip(pairs[..|pairs| - 1], coins, d, g);
    }
  }

  lemma SilentFlip(pairs: seq<Pair>, name: string, coins: Coins, d: nat, g: nat)
    requires Silent(Group(name, pairs))
    ensures Silent(Group(name, Flip(pairs, coins, d, g)))
  {
    FlipUnusable(pairs, coins, d, g);
  }

  lemma EdgedGroup(g: Group, delta: real, coins: Coins, d: nat, i: nat)
    ensures SameEvidence(Group(g.name, Flip(Centered(ShiftMembers(g.pairs, delta)), coins, d, i)),
                         Group(g.name, Flip(Centered(g.pairs), coins, d, i)))
  {
    if SummaryOf(g.pairs).Some? {
      UsableForgets(g.pairs, delta);
    } else {
      UnusableCentered(g.pairs, delta);
      UnusableStays(g.pairs, delta);
      UnusableStays(g.pairs, 0.0);
      SilentFlip(Centered(ShiftMembers(g.pairs, delta)), g.name, coins, d, i);
      SilentFlip(Centered(g.pairs), g.name, coins, d, i);
    }
  }

  lemma {:induction false} SamePs(tail: Tail, a: seq<Group>, b: seq<Group>, minDays: nat)
    requires |a| == |b| && forall i :: 0 <= i < |a| ==> SameEvidence(a[i], b[i])
    ensures TestedPs(tail, Entries(a), minDays) == TestedPs(tail, Entries(b), minDays)
  {
    if a != [] {
      var n := |a| - 1;
      SamePs(tail, a[..n], b[..n], minDays);
      assert SameEvidence(a[n], b[n]);
      assert Entries(a)[..n] == Entries(a[..n]) && Entries(b)[..n] == Entries(b[..n]);
    }
  }

  lemma EdgedDraw(tail: Tail, groups: seq<Group>, delta: int -> real, minDays: nat, coins: Coins, d: nat)
    ensures DrawnPs(tail, Edged(groups, delta), minDays, coins, d) == DrawnPs(tail, groups, minDays, coins, d)
  {
    var a, b := FlipAll(CenterAll(Edged(groups, delta)), coins, d), FlipAll(CenterAll(groups), coins, d);
    forall i | 0 <= i < |a| ensures SameEvidence(a[i], b[i]) {
      EdgedGroup(groups[i], delta(i), coins, d, i);
    }
    SamePs(tail, a, b, minDays);
  }

  lemma {:induction false} EdgedDraws(tail: Tail, groups: seq<Group>, delta: int -> real, minDays: nat, coins: Coins,
                                      draws: nat)
    ensures Draws(tail, Edged(groups, delta), minDays, coins, draws) == Draws(tail, groups, minDays, coins, draws)
  {
    if draws > 0 {
      EdgedDraws(tail, groups, delta, minDays, coins, draws - 1);
      EdgedDraw(tail, groups, delta, minDays, coins, draws - 1);
    }
  }

  /** A constant edge per family changes nothing about the calibration, whatever the coins: a family with an edge
    * calibrates exactly as the same family without it. */
  lemma CalibrationIgnoresEdge(tail: Tail, groups: seq<Group>, delta: int -> real, q: real, minDays: nat, coins: Coins,
                               draws: nat)
    ensures Calibrated(tail, Edged(groups, delta), q, minDays, coins, draws)
            == Calibrated(tail, groups, q, minDays, coins, draws)
  {
    EdgedDraws(tail, groups, delta, minDays, coins, draws);
  }

  // ---------------------------------------------------------------------------------------------
  // The judgement of one timeframe
  // ---------------------------------------------------------------------------------------------

  /** Stage 1 is withheld when the calibration passes anything in more than `q` of its draws. */
  predicate Withheld(anyPass: nat, draws: nat, q: real) {
    draws > 0 && anyPass as real / draws as real > q
  }

  lemma WithheldExactly(anyPass: nat, draws: nat, q: real)
    ensures Withheld(anyPass, draws, q) <==> draws > 0 && anyPass as real > q * draws as real
  {
    if draws > 0 {
      Quotient(q, anyPass as real, draws as real);
      QuotientAbove(q, anyPass as real, draws as real);
    }
  }

  lemma QuotientAbove(q: real, a: real, c: real)
    requires c > 0.0
    ensures a / c > q <==> a > q * c
  {
  }

  datatype Stage2Of = Stage2Of(family: string, rows: seq<Row>)

  datatype Judgement = Judgement(all: Option<Summary>, withheld: bool, families: seq<Row>, lineages: seq<Stage2Of>)

  /** The families stage 1 rejects in favour of the member. */
  ghost function Leading(rows: seq<Row>): seq<string> {
    if rows == [] then []
    else
      var r := rows[|rows| - 1];
      Leading(rows[..|rows| - 1]) + if r.rejected == Some(true) && r.summary.mean > 0.0 then [r.name] else []
  }

  lemma LeadingSnoc(rows: seq<Row>, r: Row)
    ensures Leading(rows + [r])
            == Leading(rows) + if r.rejected == Some(true) && r.summary.mean > 0.0 then [r.name] else []
  {
    assert (rows + [r])[..|rows|] == rows;
  }

  /** The stage 2 rows of each entered family, in order. */
  ghost predicate StagedLineages(tail: Tail, names: seq<string>, lineagesOf: string -> seq<Group>, alpha: real,
                                 minDays: nat, out: seq<Stage2Of>)
  {
    && |out| == |names|
    && forall k :: 0 <= k < |out| ==>
         var es := Entries(lineagesOf(names[k]));
         && out[k].family == names[k] && |TestedPs(tail, es, minDays)| <= Counted(es)
         && out[k].rows == Stage2(tail, es, alpha, minDays)
  }

  lemma StagedSnoc(tail: Tail, names: seq<string>, lineagesOf: string -> seq<Group>, alpha: real, minDays: nat,
                   out: seq<Stage2Of>, name: string, rows: seq<Row>)
    requires StagedLineages(tail, names, lineagesOf, alpha, minDays, out)
    requires |TestedPs(tail, Entries(lineagesOf(name)), minDays)| <= Counted(Entries(lineagesOf(name)))
    requires rows == Stage2(tail, Entries(lineagesOf(name)), alpha, minDays)
    ensures StagedLineages(tail, names + [name], lineagesOf, alpha, minDays, out + [Stage2Of(name, rows)])
  {
  }

  /** Every pair of the timeframe, group after group. */
  function Pooled(groups: seq<Group>): seq<Pair> {
    if groups == [] then [] else Pooled(groups[..|groups| - 1]) + groups[|groups| - 1].pairs
  }

  /** It is every group's pairs, one group after the other. */
  lemma {:induction false} PooledJoins(a: seq<Group>, b: seq<Group>)
    ensures Pooled(a + b) == Pooled(a) + Pooled(b)
  {
    if b == [] {
      assert a + b == a;
    } else {
      var c, g := b[..|b| - 1], b[|b| - 1];
      assert b == c + [g];
      PooledJoins(a, c);
      PooledJoinsOne(a, c, g);
    }
  }

  lemma PooledJoinsOne(a: seq<Group>, c: seq<Group>, g: Group)
    requires Pooled(a + c) == Pooled(a) + Pooled(c)
    ensures Pooled(a + (c + [g])) == Pooled(a) + Pooled(c + [g])
  {
    PooledSnoc(a + c, g);
    PooledSnoc(c, g);
    Regroup(Pooled(a), Pooled(c), g.pairs);
    assert a + (c + [g]) == a + c + [g];
  }

  lemma Regroup(a: seq<Pair>, b: seq<Pair>, c: seq<Pair>)
    ensures a + b + c == a + (b + c)
  {
  }

  lemma PooledSnoc(a: seq<Group>, g: Group)
    ensures Pooled(a + [g]) == Pooled(a) + g.pairs
  {
    assert (a + [g])[..|a|] == a;
  }

  /** The body of `verdict` for one timeframe. */
  method Judge(tail: Tail, families: seq<Group>, lineagesOf: string -> seq<Group>, q: real, alpha: real, minDays: nat,
               draws: nat, coins: Coins) returns (j: Judgement)
    requires IsTail(tail)
    ensures j.all == SummaryOf(Pooled(families))
    ensures j.families == Stage1(tail, Entries(families), q, minDays)
    ensures j.withheld <==>
              draws > 0 && Calibrated(tail, families, q, minDays, coins, draws).anyPass as real > q * draws as real
    ensures j.withheld ==> j.lineages == []
    ensures !j.withheld ==> StagedLineages(tail, Leading(j.families), lineagesOf, alpha, minDays, j.lineages)
  {
    var rows := FamilyStage(tail, families, q, minDays);
    var tally := Calibration(tail, families, q, minDays, draws, coins);
    var withheld := Withheld(tally.anyPass, draws, q);
    WithheldExactly(tally.anyPass, draws, q);
    RowsJudgeTheTested(tail, Entries(families), minDays, Rejected(TestedPs(tail, Entries(families), minDays), q));
    var lineages: seq<Stage2Of> := [];
    if !withheld {
      lineages := JudgeLineages(tail, rows, lineagesOf, alpha, minDays);
    }
    var all := ClusteredPairMean(Pooled(families));
    j := Judgement(all, withheld, rows, lineages);
  }

  /** Stage 2, for each row whose verdict is PASS. */
  method JudgeLineages(tail: Tail, rows: seq<Row>, lineagesOf: string -> seq<Group>, alpha: real, minDays: nat)
    returns (lineages: seq<Stage2Of>)
    requires IsTail(tail)
    requires forall r :: r in rows ==> (r.verdict == Pass <==> r.rejected == Some(true) && r.summary.mean > 0.0)
    ensures StagedLineages(tail, Leading(rows), lineagesOf, alpha, minDays, lineages)
  {
    lineages := [];
    for i := 0 to |rows|
      invariant StagedLineages(tail, Leading(rows[..i]), lineagesOf, alpha, minDays, lineages)
    {
      var name := rows[i].name;
      LeadingSnoc(rows[..i], rows[i]);
      assert rows[..i + 1] == rows[..i] + [rows[i]];
      assert rows[i] in rows;
      if rows[i].verdict == Pass {
        var rows2 := LineageStage(tail, lineagesOf(name), alpha, minDays);
        StagedSnoc(tail, Leading(rows[..i]), lineagesOf, alpha, minDays, lineages, name, rows2);
        lineages := lineages + [Stage2Of(name, rows2)];
      }
    }
    assert rows[..|rows|] == rows;
  }

  /** No edge added to the member trades can move the calibration's say over a judgement. */
  lemma EdgeCannotWithhold(tail: Tail, groups: seq<Group>, delta: int -> real, q: real, minDays: nat, coins: Coins,
                           draws: nat)
    ensures Withheld(Calibrated(tail, Edged(groups, delta), q, minDays, coins, draws).anyPass, draws, q)
            <==> Withheld(Calibrated(tail, groups, q, minDays, coins, draws).anyPass, draws, q)
  {
    CalibrationIgnoresEdge(tail, groups, delta, q, minDays, coins, draws);
  }
}
