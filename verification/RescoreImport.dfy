/** scripts/rescore_stale_holdout_candidates.py: which candidate rows are re-scored under the fixed alignment, which
  * files of re-scores the store takes, and what is left when the doors overlap. */
module RescoreImport {
  import opened Wrappers

  /** What a re-score must carry over unchanged: strategy id, rule hash, generation, derivation and parents. */
  datatype Lineage = Lineage(strategyId: Option<string>, ruleHash: Option<string>, generation: Option<string>,
                             derivation: Option<string>, parents: Option<seq<string>>)

  datatype Body = Body(spec: string, lineage: Lineage, evidence: string, oiRescore: bool, source: Option<string>,
                       mvpRescore: bool, stamped: bool, created: Option<int>)

  /** A candidate row: its stored id, if it carries one, and the rest. */
  datatype Row = Row(id: Option<string>, body: Body)

  /** What other modules decide of a row: its derived id, its frozen spec, and its evidence standing; and when the fix
    * took effect. */
  datatype Judge = Judge(derive: Body -> string, frozen: string -> string, oiInvalid: Row -> bool, invalid: Row -> bool,
                         biased: Row -> bool, fixAt: Option<int>)

  /** `candidate_id`: the stored id, or the derived one. */
  function Cid(j: Judge, r: Row): string {
    if r.id.Some? && r.id.value != "" then r.id.value else j.derive(r.body)
  }

  /** `str(x or "")`, and `str(x)`. */
  function SourceId(r: Row): string {
    if r.body.source.Some? then r.body.source.value else ""
  }

  function Show(s: Option<string>): string {
    if s.Some? then s.value else "None"
  }

  /** The sources already re-scored. */
  function DoneSources(store: seq<Row>): set<string> {
    set r | r in store && r.body.oiRescore :: Show(r.body.source)
  }

  /** The last row of that id. */
  function Latest(j: Judge, store: seq<Row>, cid: string): Option<Row> {
    if store == [] then None
    else if Cid(j, store[|store| - 1]) == cid then Some(store[|store| - 1]) else Latest(j, store[..|store| - 1], cid)
  }

  /** Row `i` is the last one of that id. */
  ghost predicate LastOf(j: Judge, store: seq<Row>, cid: string, i: nat) {
    i < |store| && Cid(j, store[i]) == cid && forall k :: i < k < |store| ==> Cid(j, store[k]) != cid
  }

  lemma {:induction false} LatestExactly(j: Judge, store: seq<Row>, cid: string)
    ensures Latest(j, store, cid).Some? ==>
              exists i :: 0 <= i < |store| && LastOf(j, store, cid, i) && Latest(j, store, cid) == Some(store[i])
    ensures Latest(j, store, cid).None? ==> forall r :: r in store ==> Cid(j, r) != cid
  {
    if store != [] {
      var n := |store| - 1;
      if Cid(j, store[n]) == cid {
        assert LastOf(j, store, cid, n);
      } else {
        LatestExactly(j, store[..n], cid);
        if Latest(j, store[..n], cid).Some? {
          var i :| 0 <= i < n && LastOf(j, store[..n], cid, i) && Latest(j, store[..n], cid) == Some(store[..n][i]);
          LastOfSnoc(j, store, cid, i);
        }
      }
    }
  }

  lemma LastOfSnoc(j: Judge, store: seq<Row>, cid: string, i: nat)
    requires store != [] && Cid(j, store[|store| - 1]) != cid && LastOf(j, store[..|store| - 1], cid, i)
    ensures LastOf(j, store, cid, i)
  {
    forall k | i < k < |store| ensures Cid(j, store[k]) != cid {
      assert k < |store| - 1 ==> store[..|store| - 1][k] == store[k];
    }
  }

  // ---------------------------------------------------------------------------------------------
  // Selection
  // ---------------------------------------------------------------------------------------------

  /** The last row of that id that is asked for and INVALID by the OI lookahead. */
  function LatestWanted(j: Judge, store: seq<Row>, keep: Row -> bool, cid: string): Option<Row> {
    if store == [] then None
    else
      var r := store[|store| - 1];
      if keep(r) && j.oiInvalid(r) && Cid(j, r) == cid then Some(r)
      else LatestWanted(j, store[..|store| - 1], keep, cid)
  }

  ghost predicate Asked(j: Judge, keep: Row -> bool, r: Row, cid: string) {
    keep(r) && j.oiInvalid(r) && Cid(j, r) == cid
  }

  /** Row `i` is the last one of that id that is asked for and INVALID. */
  ghost predicate LastAsked(j: Judge, store: seq<Row>, keep: Row -> bool, cid: string, i: nat) {
    i < |store| && Asked(j, keep, store[i], cid) && forall k :: i < k < |store| ==> !Asked(j, keep, store[k], cid)
  }

  lemma {:induction false} WantedExactly(j: Judge, store: seq<Row>, keep: Row -> bool, cid: string)
    ensures LatestWanted(j, store, keep, cid).Some? ==>
              exists i :: 0 <= i < |store| && LastAsked(j, store, keep, cid, i)
                          && LatestWanted(j, store, keep, cid) == Some(store[i])
    ensures LatestWanted(j, store, keep, cid).None? ==> forall r :: r in store ==> !Asked(j, keep, r, cid)
  {
    if store != [] {
      var n := |store| - 1;
      if Asked(j, keep, store[n], cid) {
        assert LastAsked(j, store, keep, cid, n);
      } else {
        WantedExactly(j, store[..n], keep, cid);
        if LatestWanted(j, store[..n], keep, cid).Some? {
          var i :| 0 <= i < n && LastAsked(j, store[..n], keep, cid, i)
                   && LatestWanted(j, store[..n], keep, cid) == Some(store[..n][i]);
          LastAskedSnoc(j, store, keep, cid, i);
        }
      }
    }
  }

  lemma LastAskedSnoc(j: Judge, store: seq<Row>, keep: Row -> bool, cid: string, i: nat)
    requires store != [] && !Asked(j, keep, store[|store| - 1], cid) && LastAsked(j, store[..|store| - 1], keep, cid, i)
    ensures LastAsked(j, store, keep, cid, i)
  {
    forall k | i < k < |store| ensures !Asked(j, keep, store[k], cid) {
      assert k < |store| - 1 ==> store[..|store| - 1][k] == store[k];
    }
  }

  /** The store holds no OI re-score of that source. */
  ghost predicate NotDone(store: seq<Row>, cid: string) {
    forall r :: r in store && r.body.oiRescore ==>
      if r.body.source.Some? then r.body.source.value != cid else cid != "None"
  }

  /** The chosen rows: each id's last row that is asked for and INVALID, wherever it has one and is not done. */
  ghost predicate ChosenExactly(j: Judge, store: seq<Row>, keep: Row -> bool, chosen: map<string, Row>) {
    && (forall cid :: cid in chosen <==> NotDone(store, cid) && exists r :: r in store && Asked(j, keep, r, cid))
    && forall cid :: cid in chosen ==>
         exists i :: 0 <= i < |store| && LastAsked(j, store, keep, cid, i) && chosen[cid] == store[i]
  }

  lemma ChosenOne(j: Judge, store: seq<Row>, keep: Row -> bool, cid: string)
    ensures LatestWanted(j, store, keep, cid).Some? <==> exists r :: r in store && Asked(j, keep, r, cid)
    ensures cid !in DoneSources(store) <==> NotDone(store, cid)
  {
    WantedExactly(j, store, keep, cid);
    if LatestWanted(j, store, keep, cid).Some? {
      var i :| 0 <= i < |store| && LastAsked(j, store, keep, cid, i);
      assert store[i] in store && Asked(j, keep, store[i], cid);
    }
  }

  lemma ChosenAreExactly(j: Judge, store: seq<Row>, keep: Row -> bool, chosen: map<string, Row>)
    requires forall cid :: cid in chosen <==> LatestWanted(j, store, keep, cid).Some? && cid !in DoneSources(store)
    requires forall cid :: cid in chosen ==> LatestWanted(j, store, keep, cid) == Some(chosen[cid])
    ensures ChosenExactly(j, store, keep, chosen)
  {
    forall cid ensures cid in chosen <==> NotDone(store, cid) && exists r :: r in store && Asked(j, keep, r, cid) {
      ChosenOne(j, store, keep, cid);
    }
    forall cid | cid in chosen
      ensures exists i :: 0 <= i < |store| && LastAsked(j, store, keep, cid, i) && chosen[cid] == store[i]
    {
      WantedExactly(j, store, keep, cid);
    }
  }

  /** `select_oi_lookahead`, as the table of the rows chosen by id; `keep` is the caller's timeframes and ids. */
  method Select(j: Judge, store: seq<Row>, keep: Row -> bool) returns (chosen: map<string, Row>)
    ensures forall cid :: cid in chosen <==> LatestWanted(j, store, keep, cid).Some? && cid !in DoneSources(store)
    ensures forall cid :: cid in chosen ==> LatestWanted(j, store, keep, cid) == Some(chosen[cid])
    ensures ChosenExactly(j, store, keep, chosen)
  {
    var latest: map<string, Row> := map[];
    for i := 0 to |store|
      invariant forall cid :: cid in latest <==> LatestWanted(j, store[..i], keep, cid).Some?
      invariant forall cid :: cid in latest ==> LatestWanted(j, store[..i], keep, cid) == Some(latest[cid])
    {
      var r := store[i];
      forall cid {
        WantedSnoc(j, store, keep, i, cid);
      }
      if keep(r) && j.oiInvalid(r) {
        latest := latest[Cid(j, r) := r];
      }
    }
    assert store[..|store|] == store;
    chosen := map cid | cid in latest && cid !in DoneSources(store) :: latest[cid];
    ChosenAreExactly(j, store, keep, chosen);
  }

  lemma WantedSnoc(j: Judge, store: seq<Row>, keep: Row -> bool, i: nat, cid: string)
    requires i < |store|
    ensures LatestWanted(j, store[..i + 1], keep, cid) ==
            if keep(store[i]) && j.oiInvalid(store[i]) && Cid(j, store[i]) == cid then Some(store[i])
            else LatestWanted(j, store[..i], keep, cid)
  {
    assert store[..i + 1][..i] == store[..i];
  }

  /** `rescore_record`: the spec and the lineage carried over, new evidence, named as what it is. */
  function Rescored(j: Judge, source: Row, evidence: string, now: int): Row {
    var body := Body(j.frozen(source.body.spec), source.body.lineage, evidence, true, Some(Cid(j, source)), true, false,
                     Some(now));
    Row(Some(j.derive(body)), body)
  }

  // ---------------------------------------------------------------------------------------------
  // Import
  // ---------------------------------------------------------------------------------------------

  datatype Line = NotAnObject | Object(row: Row)

  datatype Kind =
    | NotObject | WrongReason | WrongProvenance | CarriesStamp | NoSource | SourceNotInvalid | AlreadyRescored
    | SpecDiffers
    | LineageDiffers | IdNotDerived | BeforeFix | WrongStanding

  datatype Problem = Problem(line: nat, kind: Kind)

  function When(c: bool, line: nat, kind: Kind): seq<Problem> {
    if c then [Problem(line, kind)] else []
  }

  /** What is wrong with a row whatever its source is. */
  function OwnProblems(r: Row, i: nat): seq<Problem> {
    When(!r.body.oiRescore, i, WrongReason) + When(!r.body.mvpRescore, i, WrongProvenance)
    + When(r.body.stamped, i, CarriesStamp)
  }

  predicate AfterFix(j: Judge, r: Row) {
    r.body.created.Some? && j.fixAt.Some? && r.body.created.value >= j.fixAt.value
  }

  /** What is wrong with it beside its source; `taken` are the sources already re-scored, here or in the store. */
  function AgainstSource(j: Judge, r: Row, source: Row, taken: set<string>, i: nat): seq<Problem> {
    SourceProblems(j, r, source, taken, i) + StandingProblems(j, r, i)
  }

  function SourceProblems(j: Judge, r: Row, source: Row, taken: set<string>, i: nat): seq<Problem> {
    When(!j.oiInvalid(source), i, SourceNotInvalid) + When(SourceId(r) in taken, i, AlreadyRescored)
    + When(r.body.spec != j.frozen(source.body.spec), i, SpecDiffers)
    + When(r.body.lineage != source.body.lineage, i, LineageDiffers)
  }

  function StandingProblems(j: Judge, r: Row, i: nat): seq<Problem> {
    When(r.id != Some(j.derive(r.body)), i, IdNotDerived) + When(!AfterFix(j, r), i, BeforeFix)
    + When(j.invalid(r) || !j.biased(r), i, WrongStanding)
  }

  function LineProblems(j: Judge, l: Line, store: seq<Row>, taken: set<string>, i: nat): seq<Problem> {
    if l.NotAnObject? then [Problem(i, NotObject)]
    else
      var source := Latest(j, store, SourceId(l.row));
      OwnProblems(l.row, i) + if source.None? then [Problem(i, NoSource)]
                              else AgainstSource(j, l.row, source.value, taken, i)
  }

  /** The sources the first lines have named and the store holds. */
  function Seen(j: Judge, lines: seq<Line>, store: seq<Row>): set<string> {
    set l | l in lines && l.Object? && Latest(j, store, SourceId(l.row)).Some? :: SourceId(l.row)
  }

  function Problems(j: Judge, lines: seq<Line>, store: seq<Row>): seq<Problem> {
    if lines == [] then []
    else
      var n := |lines| - 1;
      Problems(j, lines[..n], store) + LastProblems(j, lines, store)
  }

  function LastProblems(j: Judge, lines: seq<Line>, store: seq<Row>): seq<Problem>
    requires lines != []
  {
    var n := |lines| - 1;
    LineProblems(j, lines[n], store, DoneSources(store) + Seen(j, lines[..n], store), n)
  }

  /** `oi_rescore_import_problems`. */
  method Validate(j: Judge, lines: seq<Line>, store: seq<Row>) returns (problems: seq<Problem>)
    ensures problems == Problems(j, lines, store)
  {
    problems := [];
    var done, seen: set<string> := DoneSources(store), {};
    for i := 0 to |lines|
      invariant problems == Problems(j, lines[..i], store) && seen == Seen(j, lines[..i], store)
    {
      SeenSnoc(j, lines, store, i);
      assert lines[..i + 1][..i] == lines[..i];
      problems := problems + LineProblems(j, lines[i], store, done + seen, i);
      if lines[i].Object? && Latest(j, store, SourceId(lines[i].row)).Some? {
        seen := seen + {SourceId(lines[i].row)};
      }
    }
    assert lines[..|lines|] == lines;
  }

  lemma SeenSnoc(j: Judge, lines: seq<Line>, store: seq<Row>, i: nat)
    requires i < |lines|
    ensures Seen(j, lines[..i + 1], store) == Seen(j, lines[..i], store) +
            if lines[i].Object? && Latest(j, store, SourceId(lines[i].row)).Some? then {SourceId(lines[i].row)} else {}
  {
  }

  /** What an accepted line must be, with the sources before it. */
  predicate LineOk(j: Judge, l: Line, store: seq<Row>, taken: set<string>) {
    && l.Object? && l.row.body.oiRescore && l.row.body.mvpRescore && !l.row.body.stamped
    && Latest(j, store, SourceId(l.row)).Some?
    && var source := Latest(j, store, SourceId(l.row)).value;
       && j.oiInvalid(source) && SourceId(l.row) !in taken
       && l.row.body.spec == j.frozen(source.body.spec) && l.row.body.lineage == source.body.lineage
       && l.row.id == Some(j.derive(l.row.body)) && AfterFix(j, l.row) && !j.invalid(l.row) && j.biased(l.row)
  }

  predicate LineOkAt(j: Judge, lines: seq<Line>, store: seq<Row>, i: nat)
    requires i < |lines|
  {
    LineOk(j, lines[i], store, DoneSources(store) + Seen(j, lines[..i], store))
  }

  ghost predicate AllOk(j: Judge, lines: seq<Line>, store: seq<Row>) {
    forall i :: 0 <= i < |lines| ==> LineOkAt(j, lines, store, i)
  }

  lemma AllOkSnoc(j: Judge, lines: seq<Line>, store: seq<Row>)
    requires lines != []
    ensures AllOk(j, lines, store) <==> AllOk(j, lines[..|lines| - 1], store) && LineOkAt(j, lines, store, |lines| - 1)
  {
    var n := |lines| - 1;
    forall i | 0 <= i < n ensures LineOkAt(j, lines[..n], store, i) <==> LineOkAt(j, lines, store, i) {
      assert lines[..n][..i] == lines[..i];
    }
  }

  lemma NothingAgainst(j: Judge, r: Row, source: Row, taken: set<string>, i: nat)
    ensures AgainstSource(j, r, source, taken, i) == [] <==>
            && j.oiInvalid(source) && SourceId(r) !in taken && r.body.spec == j.frozen(source.body.spec)
            && r.body.lineage == source.body.lineage && r.id == Some(j.derive(r.body)) && AfterFix(j, r)
            && !j.invalid(r) && j.biased(r)
  {
    var a, b := SourceProblems(j, r, source, taken, i), StandingProblems(j, r, i);
    assert a + b == [] <==> a == [] && b == [];
  }

  lemma LastIsOk(j: Judge, lines: seq<Line>, store: seq<Row>)
    requires lines != []
    ensures LastProblems(j, lines, store) == [] <==> LineOkAt(j, lines, store, |lines| - 1)
  {
    var n := |lines| - 1;
    if lines[n].Object? {
      var r, taken := lines[n].row, DoneSources(store) + Seen(j, lines[..n], store);
      var source := Latest(j, store, SourceId(r));
      if source.Some? {
        NothingAgainst(j, r, source.value, taken, n);
      }
      assert OwnProblems(r, n) == [] <==> r.body.oiRescore && r.body.mvpRescore && !r.body.stamped;
    }
  }

  lemma NoProblemsSnoc(j: Judge, lines: seq<Line>, store: seq<Row>)
    requires lines != []
    ensures Problems(j, lines, store) == [] <==>
            Problems(j, lines[..|lines| - 1], store) == [] && LastProblems(j, lines, store) == []
  {
    var before, last := Problems(j, lines[..|lines| - 1], store), LastProblems(j, lines, store);
    assert before + last == [] <==> before == [] && last == [];
  }

  /** A file is accepted exactly when each of its lines stands, given the ones before it. */
  lemma {:induction false} FileAccepted(j: Judge, lines: seq<Line>, store: seq<Row>)
    ensures Problems(j, lines, store) == [] <==> AllOk(j, lines, store)
  {
    if lines != [] {
      FileAccepted(j, lines[..|lines| - 1], store);
      NoProblemsSnoc(j, lines, store);
      AllOkSnoc(j, lines, store);
      LastIsOk(j, lines, store);
    }
  }

  /** When a file is told `kind` of line `i`. */
  ghost predicate Tells(j: Judge, lines: seq<Line>, store: seq<Row>, i: nat, kind: Kind) {
    && i < |lines|
    && if lines[i].NotAnObject? then kind == NotObject
       else
         var r := lines[i].row;
         || TellsOwn(r, kind)
         || (kind == NoSource && forall x :: x in store ==> Cid(j, x) != SourceId(r))
         || exists k :: 0 <= k < |store| && LastOf(j, store, SourceId(r), k)
                        && TellsBeside(j, lines, store, i, store[k], kind)
  }

  /** When it is told so whatever its source is. */
  predicate TellsOwn(r: Row, kind: Kind) {
    || (kind == WrongReason && !r.body.oiRescore) || (kind == WrongProvenance && !r.body.mvpRescore)
    || (kind == CarriesStamp && r.body.stamped)
  }

  /** The source is re-scored in the store, or an earlier line names it. */
  ghost predicate Named(lines: seq<Line>, store: seq<Row>, i: nat, cid: string)
    requires i <= |lines|
  {
    !NotDone(store, cid) || exists k :: 0 <= k < i && lines[k].Object? && SourceId(lines[k].row) == cid
  }

  /** When it is told so beside the source. */
  ghost predicate TellsBeside(j: Judge, lines: seq<Line>, store: seq<Row>, i: nat, source: Row, kind: Kind)
    requires i < |lines| && lines[i].Object?
  {
    var r := lines[i].row;
    match kind
    case SourceNotInvalid => !j.oiInvalid(source)
    case AlreadyRescored => Named(lines, store, i, SourceId(r))
    case SpecDiffers => r.body.spec != j.frozen(source.body.spec)
    case LineageDiffers => r.body.lineage != source.body.lineage
    case IdNotDerived => r.id != Some(j.derive(r.body))
    case BeforeFix => r.body.created.None? || j.fixAt.None? || r.body.created.value < j.fixAt.value
    case WrongStanding => j.invalid(r) || !j.biased(r)
    case _ => false
  }

  lemma TakenExactly(j: Judge, lines: seq<Line>, store: seq<Row>, i: nat)
    requires i < |lines| && lines[i].Object? && Latest(j, store, SourceId(lines[i].row)).Some?
    ensures var cid := SourceId(lines[i].row);
            cid in DoneSources(store) + Seen(j, lines[..i], store) <==> Named(lines, store, i, cid)
  {
    var cid := SourceId(lines[i].row);
    ChosenOne(j, store, (r: Row) => true, cid);
    if cid in Seen(j, lines[..i], store) {
      var l :| l in lines[..i] && l.Object? && SourceId(l.row) == cid;
      var k :| 0 <= k < i && lines[..i][k] == l;
      assert lines[k] == l;
    }
    if k :| 0 <= k < i && lines[k].Object? && SourceId(lines[k].row) == cid {
      assert lines[..i][k] == lines[k];
    }
  }

  lemma InOwnProblems(r: Row, i: nat, kind: Kind)
    ensures Problem(i, kind) in OwnProblems(r, i) <==> TellsOwn(r, kind)
    ensures forall p :: p in OwnProblems(r, i) ==> p.line == i
  {
  }

  lemma InSourceProblems(j: Judge, r: Row, source: Row, taken: set<string>, i: nat, kind: Kind)
    ensures Problem(i, kind) in SourceProblems(j, r, source, taken, i) <==>
            || (kind == SourceNotInvalid && !j.oiInvalid(source))
            || (kind == AlreadyRescored && SourceId(r) in taken)
            || (kind == SpecDiffers && r.body.spec != j.frozen(source.body.spec))
            || (kind == LineageDiffers && r.body.lineage != source.body.lineage)
    ensures forall p :: p in SourceProblems(j, r, source, taken, i) ==> p.line == i
  {
  }

  lemma InStandingProblems(j: Judge, r: Row, i: nat, kind: Kind)
    ensures Problem(i, kind) in StandingProblems(j, r, i) <==>
            || (kind == IdNotDerived && r.id != Some(j.derive(r.body))) || (kind == BeforeFix && !AfterFix(j, r))
            || (kind == WrongStanding && (j.invalid(r) || !j.biased(r)))
    ensures forall p :: p in StandingProblems(j, r, i) ==> p.line == i
  {
  }

  lemma InAgainstSource(j: Judge, lines: seq<Line>, store: seq<Row>, i: nat, source: Row, kind: Kind)
    requires i < |lines| && lines[i].Object? && Latest(j, store, SourceId(lines[i].row)).Some?
    ensures var against := AgainstSource(j, lines[i].row, source, DoneSources(store) + Seen(j, lines[..i], store), i);
            && (Problem(i, kind) in against <==> TellsBeside(j, lines, store, i, source, kind))
            && forall p :: p in against ==> p.line == i
  {
    var r, taken := lines[i].row, DoneSources(store) + Seen(j, lines[..i], store);
    TakenExactly(j, lines, store, i);
    InSourceProblems(j, r, source, taken, i, kind);
    InStandingProblems(j, r, i, kind);
    InJoin(SourceProblems(j, r, source, taken, i), StandingProblems(j, r, i));
  }

  lemma InJoin(a: seq<Problem>, b: seq<Problem>)
    ensures forall p :: p in a + b <==> p in a || p in b
  {
  }

  lemma OneLatest(j: Judge, store: seq<Row>, cid: string, i: nat)
    requires LastOf(j, store, cid, i)
    ensures Latest(j, store, cid) == Some(store[i])
  {
    LatestExactly(j, store, cid);
    assert store[i] in store;
    var k :| 0 <= k < |store| && LastOf(j, store, cid, k) && Latest(j, store, cid) == Some(store[k]);
    assert i == k;
  }

  function ProblemsAt(j: Judge, lines: seq<Line>, store: seq<Row>, i: nat): seq<Problem>
    requires i < |lines|
  {
    LineProblems(j, lines[i], store, DoneSources(store) + Seen(j, lines[..i], store), i)
  }

  lemma BesideExactly(j: Judge, lines: seq<Line>, store: seq<Row>, i: nat, kind: Kind)
    requires i < |lines| && lines[i].Object? && Latest(j, store, SourceId(lines[i].row)).Some?
    ensures TellsBeside(j, lines, store, i, Latest(j, store, SourceId(lines[i].row)).value, kind) <==>
            exists k :: 0 <= k < |store| && LastOf(j, store, SourceId(lines[i].row), k)
                        && TellsBeside(j, lines, store, i, store[k], kind)
  {
    var cid := SourceId(lines[i].row);
    LatestExactly(j, store, cid);
    forall k | 0 <= k < |store| && LastOf(j, store, cid, k) ensures Latest(j, store, cid) == Some(store[k]) {
      OneLatest(j, store, cid, k);
    }
  }

  lemma NoSourceExactly(j: Judge, store: seq<Row>, cid: string)
    ensures Latest(j, store, cid).None? <==> forall x :: x in store ==> Cid(j, x) != cid
    ensures Latest(j, store, cid).None? ==> forall k: nat :: !LastOf(j, store, cid, k)
  {
    LatestExactly(j, store, cid);
  }

  lemma SourcedExactly(j: Judge, lines: seq<Line>, store: seq<Row>, i: nat, kind: Kind)
    requires i < |lines| && lines[i].Object? && Latest(j, store, SourceId(lines[i].row)).Some?
    ensures var source := Latest(j, store, SourceId(lines[i].row)).value;
            Problem(i, kind) in ProblemsAt(j, lines, store, i) <==>
            Problem(i, kind) in OwnProblems(lines[i].row, i) || TellsBeside(j, lines, store, i, source, kind)
  {
    var r := lines[i].row;
    var source, taken := Latest(j, store, SourceId(r)).value, DoneSources(store) + Seen(j, lines[..i], store);
    InAgainstSource(j, lines, store, i, source, kind);
    InJoin(OwnProblems(r, i), AgainstSource(j, r, source, taken, i));
  }

  /** A line is told exactly what is wrong with it. */
  lemma LineExactly(j: Judge, lines: seq<Line>, store: seq<Row>, i: nat, kind: Kind)
    requires i < |lines|
    ensures Problem(i, kind) in ProblemsAt(j, lines, store, i) <==> Tells(j, lines, store, i, kind)
  {
    if lines[i].Object? {
      var r := lines[i].row;
      InOwnProblems(r, i, kind);
      NoSourceExactly(j, store, SourceId(r));
      if Latest(j, store, SourceId(r)).Some? {
        SourcedExactly(j, lines, store, i, kind);
        BesideExactly(j, lines, store, i, kind);
      } else {
        InJoin(OwnProblems(r, i), [Problem(i, NoSource)]);
      }
    }
  }

  lemma LinesAt(j: Judge, lines: seq<Line>, store: seq<Row>, i: nat, p: Problem)
    requires i < |lines| && p in ProblemsAt(j, lines, store, i)
    ensures p.line == i
  {
    if lines[i].Object? {
      var r := lines[i].row;
      InOwnProblems(r, i, p.kind);
      if Latest(j, store, SourceId(r)).Some? {
        InAgainstSource(j, lines, store, i, Latest(j, store, SourceId(r)).value, p.kind);
      }
    }
  }

  lemma {:induction false} ProblemsByLine(j: Judge, lines: seq<Line>, store: seq<Row>, p: Problem)
    ensures p in Problems(j, lines, store) <==> p.line < |lines| && p in ProblemsAt(j, lines, store, p.line)
  {
    if lines != [] {
      var n: nat := |lines| - 1;
      ProblemsByLine(j, lines[..n], store, p);
      InJoin(Problems(j, lines[..n], store), ProblemsAt(j, lines, store, n));
      if p in ProblemsAt(j, lines, store, n) {
        LinesAt(j, lines, store, n, p);
      }
      if p.line < n {
        assert lines[..n][..p.line] == lines[..p.line] && lines[..n][p.line] == lines[p.line];
      }
    }
  }

  /** A file is told exactly what is wrong with each line. */
  lemma ProblemsExactly(j: Judge, lines: seq<Line>, store: seq<Row>, p: Problem)
    ensures p in Problems(j, lines, store) <==> Tells(j, lines, store, p.line, p.kind)
  {
    ProblemsByLine(j, lines, store, p);
    if p.line < |lines| {
      LineExactly(j, lines, store, p.line, p.kind);
    }
  }

  function RowsOf(lines: seq<Line>): seq<Row>
    requires forall i :: 0 <= i < |lines| ==> lines[i].Object?
  {
    seq(|lines|, i requires 0 <= i < |lines| => lines[i].row)
  }

  // ---------------------------------------------------------------------------------------------
  // One re-score a source
  // ---------------------------------------------------------------------------------------------

  ghost predicate OnePerSource(store: seq<Row>) {
    forall i, k :: 0 <= i < k < |store| && store[i].body.oiRescore && store[k].body.oiRescore ==>
      Show(store[i].body.source) != Show(store[k].body.source)
  }

  /** New re-scores whose sources are apart from each other and from those already re-scored. */
  ghost predicate NewSources(rows: seq<Row>, store: seq<Row>) {
    OnePerSource(rows) && forall i :: 0 <= i < |rows| && rows[i].body.oiRescore ==>
      Show(rows[i].body.source) !in DoneSources(store)
  }

  lemma {:induction false} LatestHasId(j: Judge, store: seq<Row>, cid: string)
    ensures Latest(j, store, cid).Some? ==>
              Latest(j, store, cid).value in store && Cid(j, Latest(j, store, cid).value) == cid
  {
    if store != [] && Cid(j, store[|store| - 1]) != cid {
      LatestHasId(j, store[..|store| - 1], cid);
    }
  }

  /** Ids are never empty, so an accepted row names its source. */
  ghost predicate Ids(j: Judge) {
    forall b :: j.derive(b) != ""
  }

  lemma AcceptedAreNew(j: Judge, lines: seq<Line>, store: seq<Row>)
    requires Ids(j) && Problems(j, lines, store) == []
    ensures forall i :: 0 <= i < |lines| ==> lines[i].Object?
    ensures NewSources(RowsOf(lines), store)
  {
    FileAccepted(j, lines, store);
    forall i | 0 <= i < |lines| ensures lines[i].Object? && SourceId(lines[i].row) == Show(lines[i].row.body.source)
                                        && SourceId(lines[i].row) !in DoneSources(store)
    {
      assert LineOkAt(j, lines, store, i);
      LatestHasId(j, store, SourceId(lines[i].row));
    }
    forall i, k | 0 <= i < k < |lines| ensures SourceId(lines[i].row) != SourceId(lines[k].row) {
      assert LineOkAt(j, lines, store, i) && LineOkAt(j, lines, store, k);
      assert lines[..k][i] == lines[i];
      assert lines[i] in lines[..k];
    }
  }

  /** A run's sources are rows `Select` gives: distinct ids, none already re-scored. */
  ghost predicate FromSelect(j: Judge, sources: seq<Row>, store: seq<Row>) {
    && (forall i, k :: 0 <= i < k < |sources| ==> Cid(j, sources[i]) != Cid(j, sources[k]))
    && forall i :: 0 <= i < |sources| ==> Cid(j, sources[i]) !in DoneSources(store)
  }

  lemma {:induction false} WantedHasId(j: Judge, store: seq<Row>, keep: Row -> bool, cid: string)
    ensures var r := LatestWanted(j, store, keep, cid); r.Some? ==>
              r.value in store && Cid(j, r.value) == cid && j.oiInvalid(r.value)
  {
    if store != [] {
      WantedHasId(j, store[..|store| - 1], keep, cid);
    }
  }

  /** Listing the rows `Select` chose, each id once, gives such sources. */
  lemma ChosenAreSources(j: Judge, store: seq<Row>, keep: Row -> bool, cids: seq<string>, sources: seq<Row>)
    requires |sources| == |cids| && forall i, k :: 0 <= i < k < |cids| ==> cids[i] != cids[k]
    requires forall i :: 0 <= i < |cids| ==>
               cids[i] !in DoneSources(store) && LatestWanted(j, store, keep, cids[i]) == Some(sources[i])
    ensures FromSelect(j, sources, store)
  {
    forall i | 0 <= i < |cids| ensures Cid(j, sources[i]) == cids[i] {
      WantedHasId(j, store, keep, cids[i]);
    }
  }

  function RescoredAll(j: Judge, sources: seq<Row>, evidence: Row -> string, now: int): seq<Row> {
    seq(|sources|, i requires 0 <= i < |sources| => Rescored(j, sources[i], evidence(sources[i]), now))
  }

  // ---------------------------------------------------------------------------------------------
  // Doors that overlap
  // ---------------------------------------------------------------------------------------------

  /** The store, and what each door that has read it is going to append. */
  datatype World = World(store: seq<Row>, pending: map<nat, seq<Row>>)

  /** A door reads the store once, to validate a file or to select what it re-scores, and appends later without looking
    * again; it may also leave without appending. Any other door appends rows that are no OI re-score. */
  datatype Action =
    | ReadFile(p: nat, lines: seq<Line>)
    | SelectRows(p: nat, sources: seq<Row>, evidence: Row -> string, now: int)
    | Append(p: nat)
    | Leave(p: nat)
    | Mint(rows: seq<Row>)

  predicate Accepted(j: Judge, lines: seq<Line>, store: seq<Row>) {
    Problems(j, lines, store) == [] && forall i :: 0 <= i < |lines| ==> lines[i].Object?
  }

  ghost function Do(j: Judge, w: World, a: Action): World {
    match a
    case ReadFile(p, lines) =>
      w.(pending := if Accepted(j, lines, w.store) then w.pending[p := RowsOf(lines)] else w.pending - {p})
    case SelectRows(p, sources, evidence, now) =>
      w.(pending := if FromSelect(j, sources, w.store) then w.pending[p := RescoredAll(j, sources, evidence, now)]
                    else w.pending - {p})
    case Append(p) => if p in w.pending then World(w.store + w.pending[p], w.pending - {p}) else w
    case Leave(p) => w.(pending := w.pending - {p})
    case Mint(rows) => if exists i :: 0 <= i < |rows| && rows[i].body.oiRescore then w else w.(store := w.store + rows)
  }

  ghost function Run(j: Judge, w: World, actions: seq<Action>): World {
    if actions == [] then w else Do(j, Run(j, w, actions[..|actions| - 1]), actions[|actions| - 1])
  }

  /** No source of the rows is re-scored in the store. */
  ghost predicate StillNew(rows: seq<Row>, store: seq<Row>) {
    forall i :: 0 <= i < |rows| && rows[i].body.oiRescore ==> Show(rows[i].body.source) !in DoneSources(store)
  }

  /** What a door has pending names each source once. */
  ghost predicate PendingOk(w: World) {
    forall p :: p in w.pending ==> OnePerSource(w.pending[p])
  }

  /** Appending rows keeps one re-score a source exactly when the store has none of their sources yet. */
  lemma AppendKeepsOne(store: seq<Row>, rows: seq<Row>)
    requires OnePerSource(rows)
    ensures OnePerSource(store + rows) <==> OnePerSource(store) && StillNew(rows, store)
  {
    var all := store + rows;
    if OnePerSource(all) {
      forall i, k | 0 <= i < k < |store| && store[i].body.oiRescore && store[k].body.oiRescore
        ensures Show(store[i].body.source) != Show(store[k].body.source)
      {
        assert all[i] == store[i] && all[k] == store[k];
      }
      forall i | 0 <= i < |rows| && rows[i].body.oiRescore ensures Show(rows[i].body.source) !in DoneSources(store) {
        forall k | 0 <= k < |store| && store[k].body.oiRescore
          ensures Show(store[k].body.source) != Show(rows[i].body.source)
        {
          assert all[k] == store[k] && all[|store| + i] == rows[i];
        }
      }
    }
  }

  lemma ReadIsNew(j: Judge, w: World, a: Action)
    requires Ids(j) && (a.ReadFile? || a.SelectRows?)
    ensures var v := Do(j, w, a); a.p in v.pending ==> OnePerSource(v.pending[a.p]) && StillNew(v.pending[a.p], v.store)
  {
    if a.ReadFile? && Accepted(j, a.lines, w.store) {
      AcceptedAreNew(j, a.lines, w.store);
    }
  }

  lemma {:induction false} RunKeepsPending(j: Judge, w: World, actions: seq<Action>)
    requires Ids(j) && PendingOk(w)
    ensures PendingOk(Run(j, w, actions))
  {
    if actions != [] {
      var before, a := Run(j, w, actions[..|actions| - 1]), actions[|actions| - 1];
      RunKeepsPending(j, w, actions[..|actions| - 1]);
      if a.ReadFile? || a.SelectRows? {
        ReadIsNew(j, before, a);
      }
    }
  }

  /** If the step is an append, its rows are still new. */
  ghost predicate AppendIsNew(w: World, a: Action) {
    a.Append? && a.p in w.pending ==> StillNew(w.pending[a.p], w.store)
  }

  /** At each append its rows are still new. */
  ghost predicate AppendsAreNew(j: Judge, w: World, actions: seq<Action>) {
    actions == [] || (var n := |actions| - 1;
                      AppendsAreNew(j, w, actions[..n]) && AppendIsNew(Run(j, w, actions[..n]), actions[n]))
  }

  /** Over any interleaving of imports, runs and other doors each source has at most one OI re-score in the store,
    * exactly when no append finds a source of its own re-scored since it read the store. */
  lemma {:induction false} OnePerSourceExactly(j: Judge, w: World, actions: seq<Action>)
    requires Ids(j) && PendingOk(w) && OnePerSource(w.store)
    ensures OnePerSource(Run(j, w, actions).store) <==> AppendsAreNew(j, w, actions)
  {
    if actions != [] {
      var n := |actions| - 1;
      OnePerSourceExactly(j, w, actions[..n]);
      RunKeepsPending(j, w, actions[..n]);
      StepKeepsOneExactly(j, Run(j, w, actions[..n]), actions[n]);
    }
  }

  lemma StepKeepsOneExactly(j: Judge, w: World, a: Action)
    requires PendingOk(w)
    ensures OnePerSource(Do(j, w, a).store) <==> OnePerSource(w.store) && AppendIsNew(w, a)
  {
    if a.Append? && a.p in w.pending {
      AppendKeepsOne(w.store, w.pending[a.p]);
    } else if a.Mint? && !exists i :: 0 <= i < |a.rows| && a.rows[i].body.oiRescore {
      AppendKeepsOne(w.store, a.rows);
    }
  }

  /** An append that directly follows its own door's read. */
  predicate AppendsOwnRead(actions: seq<Action>, k: nat)
    requires k < |actions|
  {
    actions[k].Append? ==>
      k > 0 && (actions[k - 1].ReadFile? || actions[k - 1].SelectRows?) && actions[k - 1].p == actions[k].p
  }

  /** In particular where no door appends between another's read and its append. */
  lemma {:induction false} OnePerSourceAlways(j: Judge, w: World, actions: seq<Action>)
    requires Ids(j) && PendingOk(w) && OnePerSource(w.store)
    requires forall k :: 0 <= k < |actions| ==> AppendsOwnRead(actions, k)
    ensures OnePerSource(Run(j, w, actions).store)
  {
    if actions != [] {
      var n := |actions| - 1;
      forall k | 0 <= k < n ensures AppendsOwnRead(actions[..n], k) {
        assert AppendsOwnRead(actions, k);
      }
      OnePerSourceAlways(j, w, actions[..n]);
      RunKeepsPending(j, w, actions[..n]);
      StepKeepsOneExactly(j, Run(j, w, actions[..n]), actions[n]);
      assert AppendsOwnRead(actions, n);
      if actions[n].Append? {
        ReadIsNew(j, Run(j, w, actions[..n][..n - 1]), actions[n - 1]);
      }
    }
  }

  predicate Ends(a: Action, p: nat) {
    !a.Mint? && a.p == p
  }

  /** What a door read stays new exactly as long as nothing appended since re-scores one of its sources. */
  lemma StaysNewExactly(j: Judge, w: World, read: Action, actions: seq<Action>)
    requires Ids(j) && (read.ReadFile? || read.SelectRows?) && read.p in Do(j, w, read).pending
    requires forall i :: 0 <= i < |actions| ==> !Ends(actions[i], read.p)
    ensures var rows := Do(j, w, read).pending[read.p];
            var v := Run(j, Do(j, w, read), actions);
            && read.p in v.pending && v.pending[read.p] == rows && w.store <= v.store
            && (StillNew(rows, v.store) <==> StillNew(rows, v.store[|w.store|..]))
  {
    ReadIsNew(j, w, read);
    StillPending(j, Do(j, w, read), read.p, actions);
    var v := Run(j, Do(j, w, read), actions);
    assert v.store == w.store + v.store[|w.store|..];
    StillNewInBoth(Do(j, w, read).pending[read.p], w.store, v.store[|w.store|..]);
  }

  lemma StillNewInBoth(rows: seq<Row>, store: seq<Row>, since: seq<Row>)
    ensures StillNew(rows, store + since) <==> StillNew(rows, store) && StillNew(rows, since)
  {
    assert DoneSources(store + since) == DoneSources(store) + DoneSources(since);
  }

  lemma {:induction false} StillPending(j: Judge, w: World, p: nat, actions: seq<Action>)
    requires p in w.pending && forall i :: 0 <= i < |actions| ==> !Ends(actions[i], p)
    ensures var v := Run(j, w, actions); p in v.pending && v.pending[p] == w.pending[p] && w.store <= v.store
  {
    if actions != [] {
      StillPending(j, w, p, actions[..|actions| - 1]);
    }
  }

  // ---------------------------------------------------------------------------------------------
  // What select-then-rescore emits is accepted
  // ---------------------------------------------------------------------------------------------

  function LinesOf(rows: seq<Row>): seq<Line> {
    seq(|rows|, i requires 0 <= i < |rows| => Object(rows[i]))
  }

  /** Where the validator could refuse one re-score: its source's last row disagrees with the one selected, or the
    * re-score is stamped before the fix or does not stand as expected. */
  predicate Agrees(j: Judge, source: Row, store: seq<Row>, evidence: string, now: int) {
    && Latest(j, store, Cid(j, source)).Some?
    && j.fixAt.Some? && now >= j.fixAt.value
    && (var last := Latest(j, store, Cid(j, source)).value;
        j.oiInvalid(last) && j.frozen(last.body.spec) == j.frozen(source.body.spec)
        && last.body.lineage == source.body.lineage)
    && (var r := Rescored(j, source, evidence, now); !j.invalid(r) && j.biased(r))
  }

  lemma SeenSources(j: Judge, sources: seq<Row>, store: seq<Row>, evidence: Row -> string, now: int, i: nat)
    requires FromSelect(j, sources, store) && i < |sources|
    ensures Cid(j, sources[i]) !in Seen(j, LinesOf(RescoredAll(j, sources, evidence, now))[..i], store)
  {
  }

  /** Everything one run selects and re-scores is accepted against the same store, exactly when each selected row agrees
    * with the last row of its id, and each re-score is stamped after the fix and stands as BIASED alone. */
  lemma EmittedIsAccepted(j: Judge, sources: seq<Row>, store: seq<Row>, evidence: Row -> string, now: int)
    requires FromSelect(j, sources, store)
    ensures Problems(j, LinesOf(RescoredAll(j, sources, evidence, now)), store) == [] <==>
            forall i :: 0 <= i < |sources| ==> Agrees(j, sources[i], store, evidence(sources[i]), now)
  {
    var lines := LinesOf(RescoredAll(j, sources, evidence, now));
    FileAccepted(j, lines, store);
    forall i | 0 <= i < |sources|
      ensures LineOkAt(j, lines, store, i) <==> Agrees(j, sources[i], store, evidence(sources[i]), now)
    {
      SeenSources(j, sources, store, evidence, now, i);
    }
  }

  /** The agreement can fail: `Select` looks for the last INVALID row of an id, the validator at its last row. */
  lemma SelectedMayBeRefused(j: Judge, first: Row, last: Row, evidence: string, now: int)
    requires first.id == last.id && first.id.Some? && first.id.value != "" && j.oiInvalid(first) && !j.oiInvalid(last)
    requires !first.body.oiRescore && !last.body.oiRescore
    ensures LatestWanted(j, [first, last], (r: Row) => true, Cid(j, first)) == Some(first)
            && DoneSources([first, last]) == {}
    ensures Problems(j, [Object(Rescored(j, first, evidence, now))], [first, last]) != []
  {
  }

  /** Rows stand as a fixed judge says: what is no re-score is INVALID by the lookahead, a re-score is BIASED alone. */
  const SAMPLE_JUDGE: Judge := Judge((b: Body) => "derived", (spec: string) => spec, (r: Row) => !r.body.oiRescore,
                                     (r: Row) => false, (r: Row) => true, Some(0))

  const SAMPLE_ROW := Row(Some("c1"),
                          Body("spec", Lineage(None, None, None, None, None), "old", false, None, true, true, None))

  function SampleRescore(): Row {
    Rescored(SAMPLE_JUDGE, SAMPLE_ROW, "new", 1)
  }

  /** A run selects a source; while it replays, a file that re-scores the same source is imported; then it appends. */
  function SampleOverlap(): seq<Action> {
    [SelectRows(0, [SAMPLE_ROW], (r: Row) => "new", 1), ReadFile(1, [Object(SampleRescore())]), Append(1), Append(0)]
  }

  lemma SampleIsAccepted()
    ensures FromSelect(SAMPLE_JUDGE, [SAMPLE_ROW], [SAMPLE_ROW])
    ensures RescoredAll(SAMPLE_JUDGE, [SAMPLE_ROW], (r: Row) => "new", 1) == [SampleRescore()]
    ensures Accepted(SAMPLE_JUDGE, [Object(SampleRescore())], [SAMPLE_ROW])
    ensures RowsOf([Object(SampleRescore())]) == [SampleRescore()]
  {
    var lines := [Object(SampleRescore())];
    assert DoneSources([SAMPLE_ROW]) == {} && Latest(SAMPLE_JUDGE, [SAMPLE_ROW], "c1") == Some(SAMPLE_ROW);
    assert lines[..0] == [] && Seen(SAMPLE_JUDGE, lines[..0], [SAMPLE_ROW]) == {};
    assert LastProblems(SAMPLE_JUDGE, lines, [SAMPLE_ROW]) == [];
  }

  lemma SampleReads()
    ensures Run(SAMPLE_JUDGE, World([SAMPLE_ROW], map[]), SampleOverlap()[..2])
            == World([SAMPLE_ROW], map[0 := [SampleRescore()], 1 := [SampleRescore()]])
  {
    var j, actions, w := SAMPLE_JUDGE, SampleOverlap(), World([SAMPLE_ROW], map[]);
    SampleIsAccepted();
    assert actions[..2][..1] == actions[..1] && actions[..1][..0] == [];
    assert Run(j, w, actions[..1]) == World([SAMPLE_ROW], map[0 := [SampleRescore()]]);
  }

  /** The store then holds two re-scores of the source. */
  lemma OverlapRescoresTwice()
    ensures var v := Run(SAMPLE_JUDGE, World([SAMPLE_ROW], map[]), SampleOverlap());
            v.store == [SAMPLE_ROW, SampleRescore(), SampleRescore()] && !OnePerSource(v.store)
  {
    var j, store, again, actions := SAMPLE_JUDGE, [SAMPLE_ROW], SampleRescore(), SampleOverlap();
    var w := World(store, map[]);
    SampleReads();
    assert actions[..3][..2] == actions[..2];
    assert Run(j, w, actions[..3]) == World(store + [again], map[0 := [again]]);
    assert Run(j, w, actions).store == store + [again] + [again];
    TwiceIsNotOne(store, again);
  }

  lemma TwiceIsNotOne(store: seq<Row>, r: Row)
    requires r.body.oiRescore
    ensures !OnePerSource(store + [r] + [r])
  {
    var all := store + [r] + [r];
    assert all[|store|] == all[|store| + 1] == r;
  }
}
