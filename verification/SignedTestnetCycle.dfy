/** scripts/run_signed_testnet_cycle.py with runtime/mvp_runtime/crypto/testnet_evidence.py: one signed cycle on the
  * testnet venue, what it leaves behind whatever the venue answers at every call, and the registry of cycles under runs
  * that overlap. */
module SignedTestnetCycle {
  import opened Wrappers

  // ---------------------------------------------------------------------------------------------
  // What the venue may answer
  // ---------------------------------------------------------------------------------------------

  /** What `submit_and_reconcile` reports of an order: whether it reconciled, and whether anything mismatched. */
  datatype Report = Report(reconciled: bool, mismatched: bool)

  /** The entry is refused before it is sent, or stops somewhere after it may have left, or is reported on. */
  datatype EntryAnswer = EntryRefused(code: string) | EntryFailed(code: string) | EntryReported(report: Report)

  /** The exit's own refusal is a failure like any other: the entry has left by then. */
  datatype ExitAnswer = ExitFailed(code: string) | ExitReported(report: Report)

  /** A cancel: the venue found the order or not, refused with a runtime error, or broke some other way. */
  datatype CancelAnswer = Cancelled(found: bool) | CancelRefused(code: string) | CancelBroke(code: string)

  /** A protective leg: it could not be placed at all, or the venue answered with a status and perhaps an id. */
  datatype LegAnswer = LegBroke(code: string) | LegPlaced(resting: bool, hasId: bool, cancel: CancelAnswer)

  datatype PositionsAnswer = PositionsFailed(code: string) | Positions(amounts: seq<real>)

  /** Everything outside the door's control in one run, in the order it is asked. */
  datatype Venue = Venue(entry: EntryAnswer, stop: LegAnswer, target: LegAnswer, exit: ExitAnswer,
                         positions: PositionsAnswer)

  /** Whether the counter's and the registry's writes succeed. */
  datatype Writes = Writes(entryCount: bool, exitCount: bool, row: bool)

  const COUNTER_FAILED := "TESTNET_COUNTER_WRITE_FAILED"

  // ---------------------------------------------------------------------------------------------
  // The cycle's row
  // ---------------------------------------------------------------------------------------------

  datatype Leg = SL | TP

  datatype LegRow = LegRow(leg: Leg, algo: bool, resting: bool, withdrawn: Option<bool>)

  /** The id is a hash of these, so it is these: the quantity's text to eight decimals, the second the run started, and
    * how many cycles were on record when it looked. */
  datatype CycleId = CycleId(symbol: string, quantity: string, at: string, count: nat)

  datatype Row = Row(id: CycleId, entry: Option<Report>, legs: seq<LegRow>, exit: Option<Report>, flat: Option<bool>,
                     failure: Option<string>)

  datatype Finding =
    | EntryNotReconciled | EntryMismatched | Stopped(code: string) | NoLeg(leg: Leg) | NotResting(leg: Leg)
    | WrongEndpoint(leg: Leg) | NotWithdrawn(leg: Leg) | ExitNotReconciled | ExitNotReduceOnly | PositionNotReconciled

  /** The last row of a leg of that name. */
  function LegOf(legs: seq<LegRow>, leg: Leg): Option<LegRow> {
    if legs == [] then None
    else if legs[|legs| - 1].leg == leg then Some(legs[|legs| - 1]) else LegOf(legs[..|legs| - 1], leg)
  }

  function When(c: bool, f: Finding): seq<Finding> {
    if c then [f] else []
  }

  function LegFindings(l: Option<LegRow>): seq<Finding> {
    if l.None? then []
    else When(!l.value.resting, NotResting(l.value.leg))
         + When(l.value.algo != (l.value.leg == SL), WrongEndpoint(l.value.leg))
         + When(l.value.withdrawn != Some(true), NotWithdrawn(l.value.leg))
  }

  function EntryFindings(r: Row): seq<Finding> {
    When(r.entry.None? || !r.entry.value.reconciled, EntryNotReconciled)
    + When(r.entry.Some? && r.entry.value.mismatched, EntryMismatched)
    + if r.failure.Some? && r.failure.value != "" then [Stopped(r.failure.value)] else []
  }

  function LegsFindings(legs: seq<LegRow>): seq<Finding> {
    When(LegOf(legs, SL).None?, NoLeg(SL)) + When(LegOf(legs, TP).None?, NoLeg(TP))
    + (LegFindings(LegOf(legs, SL)) + LegFindings(LegOf(legs, TP)))
  }

  function ExitFindings(r: Row): seq<Finding> {
    When(r.exit.None? || !r.exit.value.reconciled, ExitNotReconciled)
    + When(r.exit.None?, ExitNotReduceOnly)
    + When(r.flat != Some(true), PositionNotReconciled)
  }

  /** `cycle_findings`: derived from what the venue answered on every read, never stored. */
  function Findings(r: Row): seq<Finding> {
    EntryFindings(r) + LegsFindings(r.legs) + ExitFindings(r)
  }

  /** Row `i` is the last of its leg's name. */
  predicate LastOf(legs: seq<LegRow>, leg: Leg, i: nat) {
    i < |legs| && legs[i].leg == leg && forall j :: i < j < |legs| ==> legs[j].leg != leg
  }

  /** When a read names finding `f` of row `r`. */
  predicate Finds(r: Row, f: Finding) {
    match f
    case EntryNotReconciled => r.entry.None? || !r.entry.value.reconciled
    case EntryMismatched => r.entry.Some? && r.entry.value.mismatched
    case Stopped(code) => code != "" && r.failure == Some(code)
    case NoLeg(leg) => forall l :: l in r.legs ==> l.leg != leg
    case NotResting(leg) => exists i :: 0 <= i < |r.legs| && LastOf(r.legs, leg, i) && !r.legs[i].resting
    case WrongEndpoint(leg) => exists i :: 0 <= i < |r.legs| && LastOf(r.legs, leg, i) && r.legs[i].algo != (leg == SL)
    case NotWithdrawn(leg) =>
      exists i :: 0 <= i < |r.legs| && LastOf(r.legs, leg, i) && r.legs[i].withdrawn != Some(true)
    case ExitNotReconciled => r.exit.None? || !r.exit.value.reconciled
    case ExitNotReduceOnly => r.exit.None?
    case PositionNotReconciled => r.flat.None? || !r.flat.value
  }

  lemma {:induction false} LegOfExactly(legs: seq<LegRow>, leg: Leg)
    ensures LegOf(legs, leg).Some? ==>
              exists i :: 0 <= i < |legs| && LastOf(legs, leg, i) && LegOf(legs, leg) == Some(legs[i])
    ensures LegOf(legs, leg).None? ==> forall l :: l in legs ==> l.leg != leg
  {
    if legs != [] {
      var n := |legs| - 1;
      if legs[n].leg == leg {
        assert LastOf(legs, leg, n);
      } else {
        LegOfExactly(legs[..n], leg);
        if LegOf(legs[..n], leg).Some? {
          var i :| 0 <= i < n && LastOf(legs[..n], leg, i) && LegOf(legs[..n], leg) == Some(legs[..n][i]);
          forall j | i < j < |legs| ensures legs[j].leg != leg {
            assert j < n ==> legs[..n][j] == legs[j];
          }
          assert LastOf(legs, leg, i) && legs[..n][i] == legs[i];
        }
      }
    }
  }

  lemma LegOfIs(legs: seq<LegRow>, leg: Leg, i: nat)
    requires LastOf(legs, leg, i)
    ensures LegOf(legs, leg) == Some(legs[i])
  {
    LegOfExactly(legs, leg);
    assert legs[i] in legs;
    var j :| 0 <= j < |legs| && LastOf(legs, leg, j) && LegOf(legs, leg) == Some(legs[j]);
    assert i == j;
  }

  lemma LegFindsExactly(legs: seq<LegRow>, leg: Leg)
    ensures forall i :: 0 <= i < |legs| && LastOf(legs, leg, i) ==> LegOf(legs, leg) == Some(legs[i])
    ensures LegOf(legs, leg).Some? ==> exists i :: 0 <= i < |legs| && LastOf(legs, leg, i)
    ensures LegOf(legs, leg).Some? ==> LegOf(legs, leg).value.leg == leg
    ensures LegOf(legs, leg).None? <==> forall l :: l in legs ==> l.leg != leg
  {
    LegOfExactly(legs, leg);
    forall i | 0 <= i < |legs| && LastOf(legs, leg, i) ensures LegOf(legs, leg) == Some(legs[i]) {
      LegOfIs(legs, leg, i);
    }
  }

  predicate OfLeg(l: LegRow, f: Finding) {
    || (f == NotResting(l.leg) && !l.resting) || (f == WrongEndpoint(l.leg) && l.algo != (l.leg == SL))
    || (f == NotWithdrawn(l.leg) && l.withdrawn != Some(true))
  }

  lemma InLegFindings(l: Option<LegRow>, f: Finding)
    ensures f in LegFindings(l) <==> l.Some? && OfLeg(l.value, f)
  {
  }

  predicate NamesLeg(f: Finding, leg: Leg) {
    f == NoLeg(leg) || f == NotResting(leg) || f == WrongEndpoint(leg) || f == NotWithdrawn(leg)
  }

  predicate OpenLeg(l: Option<LegRow>, leg: Leg, f: Finding) {
    if l.None? then f == NoLeg(leg) else l.value.leg == leg && OfLeg(l.value, f)
  }

  lemma InLegsFindings(legs: seq<LegRow>, f: Finding)
    ensures f in LegsFindings(legs) <==> OpenLeg(LegOf(legs, SL), SL, f) || OpenLeg(LegOf(legs, TP), TP, f)
  {
    LegFindsExactly(legs, SL);
    LegFindsExactly(legs, TP);
    InLegFindings(LegOf(legs, SL), f);
    InLegFindings(LegOf(legs, TP), f);
  }

  lemma OpenLegExactly(r: Row, leg: Leg, f: Finding)
    ensures OpenLeg(LegOf(r.legs, leg), leg, f) <==> NamesLeg(f, leg) && Finds(r, f)
  {
    LegFindsExactly(r.legs, leg);
  }

  lemma EveryLeg(f: Finding)
    ensures NamesLeg(f, SL) || NamesLeg(f, TP) <==> f.NoLeg? || f.NotResting? || f.WrongEndpoint? || f.NotWithdrawn?
  {
    if f.NoLeg? || f.NotResting? || f.WrongEndpoint? || f.NotWithdrawn? {
      assert NamesLeg(f, f.leg);
      assert f.leg == SL || f.leg == TP;
    }
  }

  lemma InEntryFindings(r: Row, f: Finding)
    ensures f in EntryFindings(r) <==> (f.EntryNotReconciled? || f.EntryMismatched? || f.Stopped?) && Finds(r, f)
  {
  }

  lemma InExitFindings(r: Row, f: Finding)
    ensures f in ExitFindings(r) <==>
            (f.ExitNotReconciled? || f.ExitNotReduceOnly? || f.PositionNotReconciled?) && Finds(r, f)
  {
  }

  /** A read names exactly what the row leaves open, whatever its legs. */
  lemma FindsExactly(r: Row, f: Finding)
    ensures f in Findings(r) <==> Finds(r, f)
  {
    InEntryFindings(r, f);
    InExitFindings(r, f);
    InLegsFindings(r.legs, f);
    OpenLegExactly(r, SL, f);
    OpenLegExactly(r, TP, f);
    EveryLeg(f);
    assert f in Findings(r) <==> f in EntryFindings(r) || f in LegsFindings(r.legs) || f in ExitFindings(r);
  }

  // ---------------------------------------------------------------------------------------------
  // The door
  // ---------------------------------------------------------------------------------------------

  datatype Result =
    | RefusedEarly                                   // the guard, the gate or the snapshot: nothing sent
    | RefusedBeforeVenue(code: string)               // the entry's own refusal: nothing sent
    | Incomplete(code: string, row: Row)             // stopped after the entry may have left
    | Unrecorded                                     // the row itself could not be written
    | Finished(complete: bool, row: Row)

  function Flat(amounts: seq<real>): bool {
    forall i :: 0 <= i < |amounts| ==> amounts[i] == 0.0
  }

  /** Placing one leg and withdrawing it again: a cancel that breaks loses the leg's row, one that is refused leaves the
    * leg not withdrawn, and a leg that no longer rests need not be found. */
  method PlaceLeg(leg: Leg, answer: LegAnswer) returns (row: Option<LegRow>, failure: Option<string>)
    ensures failure.None? <==> answer.LegPlaced? && (answer.hasId ==> !answer.cancel.CancelBroke?)
    ensures failure.Some? ==> failure.value == if answer.LegBroke? then answer.code else answer.cancel.code
    ensures row.Some? <==> failure.None?
    ensures row.Some? ==>
              && row.value.leg == leg && row.value.algo == (leg == SL) && row.value.resting == answer.resting
              && (row.value.withdrawn == None <==> !answer.hasId)
              && (row.value.withdrawn == Some(true) <==>
                  answer.hasId && answer.cancel.Cancelled? && (answer.cancel.found || !answer.resting))
    ensures failure == LegFailure(answer)
    ensures row == if failure.Some? then None else Some(LegRow(leg, leg == SL, answer.resting, Withdrawn(answer)))
  {
    match answer
    case LegBroke(code) => return None, Some(code);
    case LegPlaced(resting, hasId, cancel) =>
      var withdrawn := None;
      if hasId {
        match cancel
        case Cancelled(found) => withdrawn := Some(found || !resting);
        case CancelRefused(_) => withdrawn := Some(false);
        case CancelBroke(code) => return None, Some(code);
      }
      return Some(LegRow(leg, leg == SL, resting, withdrawn)), None;
  }

  function LegFailure(a: LegAnswer): Option<string> {
    match a
    case LegBroke(code) => Some(code)
    case LegPlaced(_, hasId, cancel) => if hasId && cancel.CancelBroke? then Some(cancel.code) else None
  }

  function Withdrawn(a: LegAnswer): Option<bool>
    requires LegFailure(a).None?
  {
    if !a.hasId then None
    else match a.cancel
      case Cancelled(found) => Some(found || !a.resting)
      case _ => Some(false)
  }

  /** Where the run stops, if it does: the first call, in order, that raises. */
  function Stop(v: Venue, w: Writes): Option<string> {
    if !w.entryCount then Some(COUNTER_FAILED)
    else if v.entry.EntryFailed? then Some(v.entry.code)
    else if LegFailure(v.stop).Some? then LegFailure(v.stop)
    else if LegFailure(v.target).Some? then LegFailure(v.target)
    else if !w.exitCount then Some(COUNTER_FAILED)
    else if v.exit.ExitFailed? then Some(v.exit.code)
    else if v.positions.PositionsFailed? then Some(v.positions.code)
    else None
  }

  predicate LegRaises(a: LegAnswer, code: string) {
    (a.LegBroke? && a.code == code) || (a.LegPlaced? && a.hasId && a.cancel == CancelBroke(code))
  }

  /** Call `k` of a run, in order, raises `code`: the entry's count and the entry, the two legs, the exit's count and
    * the exit, and the positions. */
  predicate Raises(v: Venue, w: Writes, k: nat, code: string) {
    || (k == 0 && !w.entryCount && code == COUNTER_FAILED)
    || (k == 1 && v.entry == EntryFailed(code))
    || (k == 2 && LegRaises(v.stop, code))
    || (k == 3 && LegRaises(v.target, code))
    || (k == 4 && !w.exitCount && code == COUNTER_FAILED)
    || (k == 5 && v.exit == ExitFailed(code))
    || (k == 6 && v.positions == PositionsFailed(code))
  }

  /** A run stops exactly with the code of the first call that raises. */
  lemma StopExactly(v: Venue, w: Writes, code: string)
    ensures Stop(v, w) == Some(code) <==>
            exists k :: 0 <= k < 7 && Raises(v, w, k, code) && forall j, c :: 0 <= j < k ==> !Raises(v, w, j, c)
  {
    var stop := Stop(v, w);
    if stop.Some? {
      var k := if !w.entryCount then 0 else if v.entry.EntryFailed? then 1 else if LegFailure(v.stop).Some? then 2
               else if LegFailure(v.target).Some? then 3 else if !w.exitCount then 4 else if v.exit.ExitFailed? then 5
               else 6;
      assert Raises(v, w, k, stop.value);
      assert forall j, c :: 0 <= j < k ==> !Raises(v, w, j, c);
      if i :| 0 <= i < 7 && Raises(v, w, i, code) && forall j, c :: 0 <= j < i ==> !Raises(v, w, j, c) {
        assert i == k;
      }
    } else {
      assert forall j :: 0 <= j < 7 ==> !Raises(v, w, j, code);
    }
  }

  /** Whether the run gets as far as the exit order. */
  predicate ReachesExit(v: Venue, w: Writes) {
    w.entryCount && v.entry.EntryReported? && LegFailure(v.stop).None? && LegFailure(v.target).None?
  }

  /** Submissions to the venue: the entry unless it was refused before being sent, and the exit if it was tried. */
  function Attempts(v: Venue, w: Writes): nat {
    if v.entry.EntryRefused? then 0 else 1 + if ReachesExit(v, w) then 1 else 0
  }

  /** Of these, the ones whose count was written. */
  function Counted(v: Venue, w: Writes): nat {
    if v.entry.EntryRefused? then 0
    else (if w.entryCount then 1 else 0) + if ReachesExit(v, w) && w.exitCount then 1 else 0
  }

  /** The counter equals the submissions exactly when every count of one was written. */
  lemma CountedExactly(v: Venue, w: Writes)
    ensures Counted(v, w) <= Attempts(v, w)
    ensures Counted(v, w) == Attempts(v, w) <==>
            v.entry.EntryRefused? || (w.entryCount && (ReachesExit(v, w) ==> w.exitCount))
  {
  }

  // ---------------------------------------------------------------------------------------------
  // The registry
  // ---------------------------------------------------------------------------------------------

  predicate Fresh(rows: seq<Row>, id: CycleId) {
    forall i :: 0 <= i < |rows| ==> rows[i].id != id
  }

  function Appended(rows: seq<Row>, row: Row, ok: bool): seq<Row> {
    if ok && Fresh(rows, row.id) then rows + [row] else rows
  }

  /** No row counted more cycles than stand before it. */
  predicate CountsBehind(rows: seq<Row>) {
    forall i :: 0 <= i < |rows| ==> rows[i].id.count <= i
  }

  class Door {
    var counted: nat
    var rows: seq<Row>

    /** `append_cycle`: idempotent on the id. */
    method AppendCycle(row: Row, ok: bool) returns (written: bool)
      modifies this`rows
      ensures written == ok && rows == Appended(old(rows), row, ok)
    {
      if !ok {
        return false;
      }
      if Fresh(rows, row.id) {
        rows := rows + [row];
      }
      written := true;
    }

    /** `run_cycle`, with no other run about. An entry that may have left leaves one row, naming where the run
      * stopped if it did, unless its id is already on record; an entry refused before the venue leaves none; the
      * counter rises by the submissions whose count was written. */
    method RunCycle(symbol: string, quantity: string, at: string, ready: bool, v: Venue, w: Writes) returns (r: Result)
      modifies this
      ensures !ready ==> r == RefusedEarly
      ensures ready && v.entry.EntryRefused? ==> r == RefusedBeforeVenue(v.entry.code)
      ensures !ready || v.entry.EntryRefused? || !w.row ==> rows == old(rows)
      ensures ready && !v.entry.EntryRefused? && !w.row ==> r == Unrecorded
      ensures ready && !v.entry.EntryRefused? && w.row ==>
                && (if Stop(v, w).Some? then r.Incomplete? && r.code == Stop(v, w).value
                    else r.Finished? && (r.complete <==> Findings(r.row) == []))
                && r.row.id == CycleId(symbol, quantity, at, |old(rows)|)
                && r.row.failure == Stop(v, w) && RowTells(r.row, v, w)
                && rows == Appended(old(rows), r.row, true)
                && (CountsBehind(old(rows)) ==> rows == old(rows) + [r.row] && CountsBehind(rows))
      ensures counted == old(counted) + if ready then Counted(v, w) else 0
    {
      if !ready {
        return RefusedEarly;
      }
      var id := CycleId(symbol, quantity, at, |rows|);
      // The entry's own refusal: nothing was sent.
      if v.entry.EntryRefused? {
        return RefusedBeforeVenue(v.entry.code);
      }
      var record := Attempt(id, v, w);
      var written := AppendCycle(record, w.row);
      if !written {
        return Unrecorded;
      }
      r := if record.failure.Some? then Incomplete(record.failure.value, record)
           else Finished(Findings(record) == [], record);
    }

    /** From the entry on: what is known at the end, or where it stopped. */
    method Attempt(id: CycleId, v: Venue, w: Writes) returns (record: Row)
      requires !v.entry.EntryRefused?
      modifies this`counted
      ensures record.id == id && record.failure == Stop(v, w) && RowTells(record, v, w)
      ensures counted == old(counted) + Counted(v, w)
    {
      var entry, legs, exit, flat := None, [], None, None;
      var failure: Option<string> := None;
      // The entry, counted however it went.
      if w.entryCount {
        counted := counted + 1;
        match v.entry
        case EntryReported(report) => entry := Some(report);
        case EntryFailed(code) => failure := Some(code);
      } else {
        failure := Some(COUNTER_FAILED);
      }
      // The legs.
      if failure.None? {
        var row, broke := PlaceLeg(SL, v.stop);
        if broke.Some? {
          failure := broke;
        } else {
          legs := legs + [row.value];
          row, broke := PlaceLeg(TP, v.target);
          if broke.Some? {
            failure := broke;
          } else {
            legs := legs + [row.value];
          }
        }
      }
      // The exit, counted however it went, and the venue's position view.
      if failure.None? {
        if w.exitCount {
          counted := counted + 1;
          match v.exit
          case ExitReported(report) => exit := Some(report);
          case ExitFailed(code) => failure := Some(code);
        } else {
          failure := Some(COUNTER_FAILED);
        }
      }
      if failure.None? {
        match v.positions
        case Positions(amounts) => flat := Some(Flat(amounts));
        case PositionsFailed(code) => failure := Some(code);
      }
      record := Row(id, entry, legs, exit, flat, failure);
    }
  }

  /** What the row says of each part: reported, or not reached. */
  predicate RowTells(row: Row, v: Venue, w: Writes) {
    && row.entry == (if w.entryCount && v.entry.EntryReported? then Some(v.entry.report) else None)
    && LegOf(row.legs, SL) == (if row.entry.Some? && LegFailure(v.stop).None?
                               then Some(LegRow(SL, true, v.stop.resting, Withdrawn(v.stop))) else None)
    && LegOf(row.legs, TP) == (if LegOf(row.legs, SL).Some? && LegFailure(v.target).None?
                               then Some(LegRow(TP, false, v.target.resting, Withdrawn(v.target))) else None)
    && row.exit == (if LegOf(row.legs, TP).Some? && w.exitCount && v.exit.ExitReported?
                    then Some(v.exit.report) else None)
    && (row.flat.Some? <==> row.exit.Some? && v.positions.Positions?)
    && (row.flat.Some? ==>
          (row.flat.value <==> forall i :: 0 <= i < |v.positions.amounts| ==> v.positions.amounts[i] == 0.0))
  }

  /** The leg rested, and its cancel found it. */
  predicate RestedAndWithdrawn(a: LegAnswer) {
    a.LegPlaced? && a.resting && a.hasId && a.cancel == Cancelled(true)
  }

  /** A recorded cycle counts as complete exactly when the entry reconciled without a mismatch, both legs rested and
    * were found and withdrawn, the exit reconciled and the venue holds no position. */
  lemma CompleteExactly(row: Row, v: Venue, w: Writes)
    requires RowTells(row, v, w) && row.failure == Stop(v, w) && w.entryCount && w.exitCount
    ensures Findings(row) == [] <==>
            && v.entry.EntryReported? && v.entry.report.reconciled && !v.entry.report.mismatched
            && RestedAndWithdrawn(v.stop) && RestedAndWithdrawn(v.target)
            && v.exit.ExitReported? && v.exit.report.reconciled
            && v.positions.Positions? && forall i :: 0 <= i < |v.positions.amounts| ==> v.positions.amounts[i] == 0.0
  {
  }

  /** No row is complete whose run stopped, even by an error that carries no code, or whose parts were not all
    * reached. */
  lemma StoppedIsNeverComplete(row: Row, v: Venue, w: Writes)
    requires RowTells(row, v, w) && Stop(v, w).Some?
    ensures Findings(row) != []
  {
  }

  // ---------------------------------------------------------------------------------------------
  // Runs that overlap
  // ---------------------------------------------------------------------------------------------

  /** One registry, and the runs under way with the ids they have taken. */
  datatype World = World(rows: seq<Row>, running: map<nat, CycleId>)

  /** A run looks at the registry and takes its id; it ends by writing its row, whatever the venue answered, or without
    * one: refused before the venue, or dead. */
  datatype Action =
    | Begin(p: nat, symbol: string, quantity: string, at: string)
    | Record(p: nat, row: Row, ok: bool)
    | Leave(p: nat)

  function Do(w: World, a: Action): World {
    match a
    case Begin(p, symbol, quantity, at) =>
      if p in w.running then w else w.(running := w.running[p := CycleId(symbol, quantity, at, |w.rows|)])
    case Record(p, row, ok) =>
      if p in w.running && row.id == w.running[p] then World(Appended(w.rows, row, ok), w.running - {p}) else w
    case Leave(p) => w.(running := w.running - {p})
  }

  function Run(w: World, actions: seq<Action>): World {
    if actions == [] then w else Do(Run(w, actions[..|actions| - 1]), actions[|actions| - 1])
  }

  predicate UniqueIds(rows: seq<Row>) {
    forall i, j :: 0 <= i < j < |rows| ==> rows[i].id != rows[j].id
  }

  ghost predicate Inv(w: World) {
    CountsBehind(w.rows) && UniqueIds(w.rows) && forall p :: p in w.running ==> w.running[p].count <= |w.rows|
  }

  /** In every run of overlapping cycles no id is on record twice, no row is lost or moved, and every row's count is at
    * most its position, so that whoever looks next takes an id that is not on record. */
  lemma {:induction false} RegistryKeeps(w: World, actions: seq<Action>)
    requires Inv(w)
    ensures Inv(Run(w, actions)) && w.rows <= Run(w, actions).rows
    ensures var rows := Run(w, actions).rows;
            forall symbol, quantity, at :: Fresh(rows, CycleId(symbol, quantity, at, |rows|))
  {
    if actions != [] {
      RegistryKeeps(w, actions[..|actions| - 1]);
    }
  }

  predicate Ends(a: Action, p: nat) {
    (a.Record? || a.Leave?) && a.p == p
  }

  /** A run that ends by writing its row has it on record exactly when no row written since it looked carries its id. */
  lemma RowIsKeptExactly(w: World, begin: Action, actions: seq<Action>, row: Row)
    requires Inv(w) && begin.Begin? && begin.p !in w.running
    requires row.id == CycleId(begin.symbol, begin.quantity, begin.at, |w.rows|)
    requires forall i :: 0 <= i < |actions| ==> !Ends(actions[i], begin.p)
    ensures var v := Run(Do(w, begin), actions);
            var done := Do(v, Record(begin.p, row, true));
            && begin.p in v.running && v.running[begin.p] == row.id && w.rows <= v.rows
            && (done.rows == v.rows + [row] <==> Fresh(v.rows[|w.rows|..], row.id))
            && (done.rows == v.rows <==> !Fresh(v.rows[|w.rows|..], row.id))
  {
    StillRunning(Do(w, begin), begin.p, actions);
    RegistryKeeps(Do(w, begin), actions);
    var v := Run(Do(w, begin), actions);
    FreshSince(w.rows, v.rows, row.id);
  }

  lemma {:induction false} StillRunning(w: World, p: nat, actions: seq<Action>)
    requires p in w.running && forall i :: 0 <= i < |actions| ==> !Ends(actions[i], p)
    ensures p in Run(w, actions).running && Run(w, actions).running[p] == w.running[p]
  {
    if actions != [] {
      StillRunning(w, p, actions[..|actions| - 1]);
    }
  }

  lemma FreshSince(before: seq<Row>, rows: seq<Row>, id: CycleId)
    requires before <= rows && CountsBehind(before) && id.count == |before|
    ensures Fresh(rows, id) <==> Fresh(rows[|before|..], id)
  {
    var since := rows[|before|..];
    assert forall i :: 0 <= i < |since| ==> since[i] == rows[|before| + i];
    assert forall i :: |before| <= i < |rows| ==> rows[i] == since[i - |before|];
  }

  /** Whether the run of `a` asks for the same cycle in the same second. */
  predicate SameCycle(a: Action, id: CycleId) {
    a.Begin? && a.symbol == id.symbol && a.quantity == id.quantity && a.at == id.at
  }

  /** So it is on record whenever no other run takes the same cycle in the same second while it is under way. */
  lemma ApartIsKept(w: World, begin: Action, actions: seq<Action>, row: Row)
    requires Inv(w) && begin.Begin? && begin.p !in w.running
    requires row.id == CycleId(begin.symbol, begin.quantity, begin.at, |w.rows|)
    requires forall q :: q in w.running ==> w.running[q] != row.id
    requires forall i :: 0 <= i < |actions| ==> !Ends(actions[i], begin.p) && !SameCycle(actions[i], row.id)
    ensures var v := Run(Do(w, begin), actions); Do(v, Record(begin.p, row, true)).rows == v.rows + [row]
  {
    RowIsKeptExactly(w, begin, actions, row);
    OthersApart(Do(w, begin), begin.p, actions, row.id);
  }

  lemma {:induction false} OthersApart(w: World, p: nat, actions: seq<Action>, id: CycleId)
    requires Fresh(w.rows, id) && forall q :: q in w.running && q != p ==> w.running[q] != id
    requires forall i :: 0 <= i < |actions| ==> !Ends(actions[i], p) && !SameCycle(actions[i], id)
    ensures var v := Run(w, actions); Fresh(v.rows, id) && forall q :: q in v.running && q != p ==> v.running[q] != id
  {
    if actions != [] {
      OthersApart(w, p, actions[..|actions| - 1], id);
    }
  }

  const SAMPLE_ID := CycleId("BTCUSDT", "0.00200000", "2026-09-16T00:00:00Z", 0)

  function SampleBegin(p: nat): Action {
    Begin(p, SAMPLE_ID.symbol, SAMPLE_ID.quantity, SAMPLE_ID.at)
  }

  /** Two runs of one cycle in one second that overlap share an id: if neither is refused before the venue, the second
    * row is dropped without a word. */
  lemma OverlapLosesARow(first: Row, second: Row)
    requires first.id == second.id == SAMPLE_ID
    ensures Run(World([], map[]), [SampleBegin(0), SampleBegin(1), Record(0, first, true), Record(1, second, true)])
            == World([first], map[])
  {
    var w := World([], map[]);
    var actions := [SampleBegin(0), SampleBegin(1), Record(0, first, true), Record(1, second, true)];
    assert actions[..3][..2] == actions[..2] && actions[..2][..1] == actions[..1] && actions[..1][..0] == [];
    assert Run(w, actions[..1]) == World([], map[0 := SAMPLE_ID]);
    assert Run(w, actions[..2]) == World([], map[0 := SAMPLE_ID, 1 := SAMPLE_ID]);
    assert Run(w, actions[..3]) == World([first], map[1 := SAMPLE_ID]);
    assert [first][0].id == second.id;
    assert Run(w, actions).running == map[];
  }
}
