/** scripts/register_execution_stage.py: any number of --confirm, --demote and --sync-anchor processes, interleaved
  * at every read and write that another process could come between, with writes that fail and processes that die. A
  * lock is held by one process at most; the approval store's own lock makes the re-read and the CONSUMED row one
  * step. */
module StageDoor {
  import opened Wrappers
  import opened ExecutionStage

  /** Where a process stands. `now` is the time it was started with; `seen` is bookkeeping: the files it planned on. */
  datatype Proc =
    | ConfirmWaits(id: string, content: Content, now: int)
    | ConfirmHolds(id: string, content: Content, now: int)
    | ConfirmChecked(id: string, content: Content, now: int)
    | ConfirmPlanned(id: string, record: Record, status: Status, seen: Files, now: int)
    | ConfirmSpent(record: Record, status: Status, seen: Files, spend: nat)
    | DemoteWaits(target: Stage, registrant: string, why: string, now: int)
    | DemoteHolds(target: Stage, registrant: string, why: string, now: int)
    | DemotePlanned(record: Record, status: Status, seen: Files)
    | SyncWaits | SyncHolds
    | RowWritten(record: Record) | AnchorTried(record: Record)
    | Done

  predicate Holds(p: Proc) {
    !(p.ConfirmWaits? || p.DemoteWaits? || p.SyncWaits? || p.Done?)
  }

  /** What became of a spent approval. */
  datatype Fate = Open | Landed(append: nat) | RowFailed | Crashed

  datatype Spend = Spend(approval: string, record: Record, files: Files, fate: Fate)

  datatype Append = Append(record: Record, status: Status, over: Files, spend: Option<nat>)

  /** The shared state, and the history of spends and appended records. */
  datatype World = World(files: Files, store: seq<Approval>, env: Env, lock: Option<nat>, procs: map<nat, Proc>,
                         spends: seq<Spend>, appends: seq<Append>, tampered: bool)

  datatype Action =
    | Ask(id: string, target: Stage, registrant: string, why: string, attestation: Option<string>,
          cycle: Option<string>, expires: int, askedAt: int)
    | Decide(id: string, verdict: ApprovalStatus)
    | SetPolicy(policy: Option<Policy>) | SetCycles(cycles: map<string, string>) | Tamper(files: Files)
    | StartConfirm(p: nat, id: string, allowed: bool, now: int)
    | StartDemote(p: nat, target: Stage, registrant: string, why: string, now: int)
    | StartSync(p: nat)
    | TakeLock(p: nat) | Check(p: nat) | Plan(p: nat) | SpendGrant(p: nat, ok: bool)
    | WriteRow(p: nat, ok: bool) | WriteAnchor(p: nat, ok: bool) | WriteMirror(p: nat, ok: bool)
    | Reanchor(p: nat, ok: bool)
    | Crash(p: nat)

  // ---------------------------------------------------------------------------------------------
  // Steps
  // ---------------------------------------------------------------------------------------------

  function With(w: World, p: nat, q: Proc): World {
    w.(procs := w.procs[p := q])
  }

  /** The process ends and its locks are free again. */
  function End(w: World, p: nat): World {
    w.(procs := w.procs[p := Done], lock := if w.lock == Some(p) then None else w.lock)
  }

  function At(env: Env, now: int): Env {
    env.(now := now)
  }

  function DoAsk(w: World, a: Action): World
    requires a.Ask?
  {
    var plan := PlanTransition(Resolve(w.files, w.store, At(w.env, a.askedAt)), a.target, a.registrant, a.why,
                               a.attestation, a.cycle,
                               At(w.env, a.askedAt));
    if plan.Ok? && Get(w.store, a.id).None? then
      w.(store := w.store + [Approval(a.id, plan.value, a.expires, Pending, None)])
    else w
  }

  /** Thomas answers, or the ask runs out: only a pending ask is ever decided. */
  function DoDecide(w: World, a: Action): World
    requires a.Decide?
  {
    var asked := Get(w.store, a.id);
    if asked.Some? && asked.value.status == Pending && a.verdict != Consumed then
      w.(store := w.store + [asked.value.(status := a.verdict)])
    else w
  }

  /** `validate_spendable_approval`. */
  predicate Spendable(store: seq<Approval>, id: string, allowed: bool, now: int) {
    allowed && Get(store, id).Some? && Get(store, id).value.status == Approved && now < Get(store, id).value.expires
  }

  function DoStart(w: World, a: Action): World
    requires a.StartConfirm? || a.StartDemote? || a.StartSync?
  {
    if a.p in w.procs then w
    else
      match a
      case StartConfirm(p, id, allowed, now) =>
        With(w, p,
             if Spendable(w.store, id, allowed, now) then ConfirmWaits(id, Get(w.store, id).value.content, now)
             else Done)
      case StartDemote(p, target, registrant, why, now) => With(w, p, DemoteWaits(target, registrant, why, now))
      case StartSync(p) => With(w, p, SyncWaits)
  }

  function DoTakeLock(w: World, p: nat): World
    requires p in w.procs
  {
    if w.lock.Some? then w
    else
      match w.procs[p]
      case ConfirmWaits(id, content, now) => With(w.(lock := Some(p)), p, ConfirmHolds(id, content, now))
      case DemoteWaits(target, registrant, why, now) =>
        With(w.(lock := Some(p)), p, DemoteHolds(target, registrant, why, now))
      case SyncWaits => With(w.(lock := Some(p)), p, SyncHolds)
      case _ => w
  }

  /** The grant before the stage: the loser of a race says it lost. */
  function DoCheck(w: World, p: nat): World
    requires p in w.procs
  {
    match w.procs[p]
    case ConfirmHolds(id, content, now) =>
      if Get(w.store, id).Some? && Get(w.store, id).value.status == Approved then
        With(w, p, ConfirmChecked(id, content, now))
      else End(w, p)
    case _ => w
  }

  /** The record is built, and refused, before anything is spent. */
  function DoPlan(w: World, p: nat): World
    requires p in w.procs
  {
    match w.procs[p]
    case ConfirmChecked(id, content, now) =>
      var status := Resolve(w.files, w.store, At(w.env, now));
      var record := RecordFromApproved(content, status, id, At(w.env, now));
      if record.Ok? && Appendable(record.value, w.files) then
        With(w, p, ConfirmPlanned(id, record.value, status, w.files, now))
      else End(w, p)
    case DemoteHolds(target, registrant, why, now) =>
      var status := Resolve(w.files, w.store, At(w.env, now));
      var record := DemoteRecord(status, target, registrant, why, At(w.env, now));
      if record.Ok? then With(w, p, DemotePlanned(record.value, status, w.files)) else End(w, p)
    case _ => w
  }

  /** `spend_lock` and the CONSUMED row: only a grant still approved is spent. */
  function DoSpend(w: World, p: nat, ok: bool): World
    requires p in w.procs
  {
    match w.procs[p]
    case ConfirmPlanned(id, record, status, seen, now) =>
      var latest := Get(w.store, id);
      if ok && latest.Some? && latest.value.status == Approved then
        With(w.(store := w.store + [SpentRow(latest.value, record, now)],
                spends := w.spends + [Spend(id, record, w.files, Open)]),
             p, ConfirmSpent(record, status, seen, |w.spends|))
      else End(w, p)
    case _ => w
  }

  function Landing(w: World, p: nat, record: Record, status: Status, spend: Option<nat>): World {
    With(w.(files := WithRow(record, w.files), appends := w.appends + [Append(record, status, w.files, spend)]), p,
         RowWritten(record))
  }

  function Fated(w: World, spend: nat, fate: Fate): World {
    if spend < |w.spends| then w.(spends := w.spends[spend := w.spends[spend].(fate := fate)]) else w
  }

  /** `append_stage_record` up to the row. */
  function DoRow(w: World, p: nat, ok: bool): World
    requires p in w.procs
  {
    match w.procs[p]
    case ConfirmSpent(record, status, seen, spend) =>
      if ok && Appendable(record, w.files) then
        Fated(Landing(w, p, record, status, Some(spend)), spend, Landed(|w.appends|))
      else End(Fated(w, spend, RowFailed), p)
    case DemotePlanned(record, status, seen) =>
      if ok && Appendable(record, w.files) then Landing(w, p, record, status, None) else End(w, p)
    case _ => w
  }

  function DoAnchor(w: World, p: nat, ok: bool): World
    requires p in w.procs
  {
    match w.procs[p]
    case RowWritten(record) => With(w.(files := if ok then WithAnchor(w.files) else w.files), p, AnchorTried(record))
    case _ => w
  }

  function DoMirror(w: World, p: nat, ok: bool): World
    requires p in w.procs
  {
    match w.procs[p]
    case AnchorTried(record) => End(w.(files := if ok then w.files.(mirror := Mirror(record)) else w.files), p)
    case _ => w
  }

  function DoReanchor(w: World, p: nat, ok: bool): World
    requires p in w.procs
  {
    if w.procs[p].SyncHolds? then
      End(if ok && SyncAnchor(w.files).Some? then w.(files := SyncAnchor(w.files).value) else w, p)
    else w
  }

  function DoCrash(w: World, p: nat): World
    requires p in w.procs
  {
    match w.procs[p]
    case ConfirmSpent(_, _, _, spend) => End(Fated(w, spend, Crashed), p)
    case _ => End(w, p)
  }

  function OfProcess(a: Action): Option<nat> {
    match a
    case TakeLock(p) => Some(p)
    case Check(p) => Some(p)
    case Plan(p) => Some(p)
    case SpendGrant(p, _) => Some(p)
    case WriteRow(p, _) => Some(p)
    case WriteAnchor(p, _) => Some(p)
    case WriteMirror(p, _) => Some(p)
    case Reanchor(p, _) => Some(p)
    case Crash(p) => Some(p)
    case _ => None
  }

  /** One step. An action whose turn it is not changes nothing. */
  function Do(w: World, a: Action): World {
    if OfProcess(a).Some? && OfProcess(a).value !in w.procs then w
    else
      match a
      case Ask(_, _, _, _, _, _, _, _) => DoAsk(w, a)
      case Decide(_, _) => DoDecide(w, a)
      case SetPolicy(policy) => w.(env := w.env.(policy := policy))
      case SetCycles(cycles) => w.(env := w.env.(cycles := cycles))
      case Tamper(files) => if w.lock.None? then w.(files := files, tampered := true) else w
      case StartConfirm(_, _, _, _) => DoStart(w, a)
      case StartDemote(_, _, _, _, _) => DoStart(w, a)
      case StartSync(_) => DoStart(w, a)
      case TakeLock(p) => DoTakeLock(w, p)
      case Check(p) => DoCheck(w, p)
      case Plan(p) => DoPlan(w, p)
      case SpendGrant(p, ok) => DoSpend(w, p, ok)
      case WriteRow(p, ok) => DoRow(w, p, ok)
      case WriteAnchor(p, ok) => DoAnchor(w, p, ok)
      case WriteMirror(p, ok) => DoMirror(w, p, ok)
      case Reanchor(p, ok) => DoReanchor(w, p, ok)
      case Crash(p) => DoCrash(w, p)
  }

  function Run(w: World, actions: seq<Action>): World {
    if actions == [] then w else Do(Run(w, actions[..|actions| - 1]), actions[|actions| - 1])
  }

  /** A machine before any of these processes ran, whatever its files and approvals. */
  predicate Start(w: World) {
    w.lock.None? && w.procs == map[] && w.spends == [] && w.appends == [] && !w.tampered
  }

  // ---------------------------------------------------------------------------------------------
  // What every step keeps
  // ---------------------------------------------------------------------------------------------

  /** The record follows the ladder from the tip of the files it was planned on, and was asked over it. */
  predicate Planned(r: Record, status: Status, over: Files) {
    status.record == Tip(over) && LadderRule(r, Tip(over)) && AskedOver(r, Tip(over)) && Appendable(r, over)
  }

  ghost predicate LockOk(w: World) {
    forall p :: p in w.procs ==> (Holds(w.procs[p]) <==> w.lock == Some(p))
  }

  predicate ProcOk(w: World, q: Proc) {
    match q
    case ConfirmPlanned(id, record, status, seen, _) =>
      seen == w.files && Planned(record, status, seen) && record.transition != Demote && record.approval == Some(id)
    case ConfirmSpent(record, status, seen, spend) =>
      && seen == w.files && Planned(record, status, seen) && record.transition != Demote && spend < |w.spends|
      && record.approval.Some? && w.spends[spend] == Spend(record.approval.value, record, seen, Open)
    case DemotePlanned(record, status, seen) =>
      seen == w.files && Planned(record, status, seen) && record.transition == Demote
    case _ => true
  }

  /** Only the holder of the lock is between planning and writing. */
  ghost predicate HolderOk(w: World) {
    w.lock.Some? ==> w.lock.value in w.procs && ProcOk(w, w.procs[w.lock.value])
  }

  /** The store says the approval was spent on this record. */
  predicate Marked(store: seq<Approval>, s: Spend) {
    && Get(store, s.approval).Some? && Get(store, s.approval).value.status == Consumed
    && Get(store, s.approval).value.consumption.Some?
    && Get(store, s.approval).value.consumption.value.ref == s.record.id
  }

  /** The holder of the lock has spent approval `i` and not yet written its record. */
  predicate Spender(w: World, i: nat) {
    w.lock.Some? && w.lock.value in w.procs && w.procs[w.lock.value].ConfirmSpent? && w.procs[w.lock.value].spend == i
  }

  predicate SpendOk(w: World, i: nat)
    requires i < |w.spends|
  {
    var s := w.spends[i];
    && Appendable(s.record, s.files) && s.record.transition != Demote && s.record.approval == Some(s.approval)
    && Marked(w.store, s)
    && match s.fate
       case Open => Spender(w, i)
       case Landed(k) => k < |w.appends| && w.appends[k].spend == Some(i)
       case _ => true
  }

  ghost predicate SpendsOk(w: World) {
    forall i :: 0 <= i < |w.spends| ==> SpendOk(w, i)
  }

  ghost predicate SpentOnce(w: World) {
    forall i, j :: 0 <= i < j < |w.spends| ==> w.spends[i].approval != w.spends[j].approval
  }

  predicate AppendOk(w: World, k: nat)
    requires k < |w.appends|
  {
    var a := w.appends[k];
    && Planned(a.record, a.status, a.over)
    && (a.record.transition == Demote <==> a.spend.None?)
    && (a.spend.Some? ==>
          && a.spend.value < |w.spends| && w.spends[a.spend.value].record == a.record
          && w.spends[a.spend.value].files == a.over && w.spends[a.spend.value].fate == Landed(k))
  }

  ghost predicate AppendsOk(w: World) {
    forall k :: 0 <= k < |w.appends| ==> AppendOk(w, k)
  }

  function LastRow(l: LedgerFile): Option<Record> {
    if l.Rows? && l.rows != [] then Some(l.rows[|l.rows| - 1]) else None
  }

  /** Nobody else having touched the files, the ledger is where the last append left it. */
  ghost predicate HistoryOk(w: World) {
    !w.tampered ==>
      && (w.appends != [] ==> LastRow(w.files.ledger) == Some(w.appends[|w.appends| - 1].record))
      && forall k :: 0 < k < |w.appends| ==> LastRow(w.appends[k].over.ledger) == Some(w.appends[k - 1].record)
  }

  ghost predicate Inv(w: World) {
    LockOk(w) && HolderOk(w) && SpendsOk(w) && SpentOnce(w) && AppendsOk(w) && HistoryOk(w)
  }

  /** A step that leaves the files, the lock's holder and the history alone, and every spent approval spent. */
  ghost predicate Quiet(w: World, v: World) {
    && v.files == w.files && v.lock == w.lock && v.spends == w.spends && v.appends == w.appends
    && v.tampered == w.tampered
    && StaysMarked(w, v.store)
    && (w.lock.Some? && w.lock.value in w.procs ==>
        w.lock.value in v.procs && v.procs[w.lock.value] == w.procs[w.lock.value])
  }

  ghost predicate StaysMarked(w: World, store: seq<Approval>) {
    forall i :: 0 <= i < |w.spends| ==> Marked(store, w.spends[i])
  }

  lemma QuietKeeps(w: World, v: World)
    requires Inv(w) && Quiet(w, v) && LockOk(v)
    ensures Inv(v)
  {
    HistoryStays(w, v);
  }

  /** The history is kept by a step that changes neither it nor the spends, and no spend is open but the holder's. */
  lemma HistoryStays(w: World, v: World)
    requires SpendsOk(w) && AppendsOk(w) && StaysMarked(w, v.store) && v.spends == w.spends && v.appends == w.appends
    requires forall i :: 0 <= i < |w.spends| && Spender(w, i) && w.spends[i].fate == Open ==> Spender(v, i)
    ensures SpendsOk(v) && AppendsOk(v)
  {
    forall i | 0 <= i < |v.spends| ensures SpendOk(v, i) {
      assert SpendOk(w, i);
    }
    forall k | 0 <= k < |v.appends| ensures AppendOk(v, k) {
      assert AppendOk(w, k);
    }
  }

  lemma AlreadyMarked(w: World)
    requires SpendsOk(w)
    ensures StaysMarked(w, w.store)
  {
    forall i | 0 <= i < |w.spends| ensures Marked(w.store, w.spends[i]) {
      assert SpendOk(w, i);
    }
  }

  /** A row appended for an id that was not spent leaves the spent ones alone. */
  lemma StillMarked(w: World, row: Approval)
    requires SpendsOk(w)
    requires forall i :: 0 <= i < |w.spends| ==> w.spends[i].approval != row.id
    ensures StaysMarked(w, w.store + [row])
  {
    forall i | 0 <= i < |w.spends| ensures Marked(w.store + [row], w.spends[i]) {
      assert SpendOk(w, i);
      GetAfterAppend(w.store, row, w.spends[i].approval);
    }
  }

  lemma NotSpent(w: World, id: string)
    requires SpendsOk(w) && (Get(w.store, id).None? || Get(w.store, id).value.status != Consumed)
    ensures forall i :: 0 <= i < |w.spends| ==> w.spends[i].approval != id
  {
    forall i | 0 <= i < |w.spends| ensures w.spends[i].approval != id {
      assert SpendOk(w, i);
    }
  }

  lemma DecideKeeps(w: World, a: Action)
    requires Inv(w) && (a.Ask? || a.Decide?)
    ensures Inv(Do(w, a))
  {
    var v := Do(w, a);
    AlreadyMarked(w);
    if v.store != w.store {
      NotSpent(w, a.id);
      if a.Decide? {
        GetAfterAppend(w.store, Get(w.store, a.id).value, a.id);
      }
      StillMarked(w, v.store[|w.store|]);
    }
    QuietKeeps(w, v);
  }

  lemma StartKeeps(w: World, a: Action)
    requires Inv(w) && (a.StartConfirm? || a.StartDemote? || a.StartSync?)
    ensures Inv(Do(w, a))
  {
    AlreadyMarked(w);
    QuietKeeps(w, Do(w, a));
  }

  lemma TakeLockKeeps(w: World, p: nat)
    requires Inv(w) && p in w.procs
    ensures Inv(DoTakeLock(w, p))
  {
    AlreadyMarked(w);
    HistoryStays(w, DoTakeLock(w, p));
  }

  lemma EndKeeps(w: World, p: nat)
    requires Inv(w) && p in w.procs && !w.procs[p].ConfirmSpent?
    ensures Inv(End(w, p))
  {
    AlreadyMarked(w);
    HistoryStays(w, End(w, p));
  }

  lemma CheckKeeps(w: World, p: nat)
    requires Inv(w) && p in w.procs
    ensures Inv(DoCheck(w, p))
  {
    if w.procs[p].ConfirmHolds? {
      EndKeeps(w, p);
      AlreadyMarked(w);
      HistoryStays(w, DoCheck(w, p));
    }
  }

  lemma ConfirmIsPlanned(files: Files, store: seq<Approval>, env: Env, content: Content, id: string)
    requires RecordFromApproved(content, Resolve(files, store, env), id, env).Ok?
    ensures var status := Resolve(files, store, env);
            var r := RecordFromApproved(content, status, id, env).value;
            Appendable(r, files) ==> Planned(r, status, files) && r.transition != Demote && r.approval == Some(id)
  {
  }

  lemma DemotionIsPlanned(files: Files, store: seq<Approval>, env: Env, target: Stage, registrant: string, why: string)
    requires DemoteRecord(Resolve(files, store, env), target, registrant, why, env).Ok?
    ensures var status := Resolve(files, store, env);
            var r := DemoteRecord(status, target, registrant, why, env).value;
            Planned(r, status, files) && r.transition == Demote
  {
  }

  lemma PlannedKeeps(w: World, p: nat, q: Proc)
    requires Inv(w) && p in w.procs && w.lock == Some(p) && !w.procs[p].ConfirmSpent?
    requires (q.ConfirmPlanned? || q.DemotePlanned?) && ProcOk(w, q)
    ensures Inv(With(w, p, q))
  {
    AlreadyMarked(w);
    HistoryStays(w, With(w, p, q));
  }

  lemma PlanKeeps(w: World, p: nat)
    requires Inv(w) && p in w.procs
    ensures Inv(DoPlan(w, p))
  {
    if !w.procs[p].ConfirmSpent? {
      EndKeeps(w, p);
    }
    match w.procs[p]
    case ConfirmChecked(id, content, now) =>
      var env := At(w.env, now);
      var status := Resolve(w.files, w.store, env);
      var record := RecordFromApproved(content, status, id, env);
      if record.Ok? && Appendable(record.value, w.files) {
        ConfirmIsPlanned(w.files, w.store, env, content, id);
        PlannedKeeps(w, p, ConfirmPlanned(id, record.value, status, w.files, now));
      }
    case DemoteHolds(target, registrant, why, now) =>
      var env := At(w.env, now);
      var status := Resolve(w.files, w.store, env);
      var record := DemoteRecord(status, target, registrant, why, env);
      if record.Ok? {
        DemotionIsPlanned(w.files, w.store, env, target, registrant, why);
        PlannedKeeps(w, p, DemotePlanned(record.value, status, w.files));
      }
    case _ =>
  }

  lemma SpendKeeps(w: World, p: nat, ok: bool)
    requires Inv(w) && p in w.procs
    ensures Inv(DoSpend(w, p, ok))
  {
    if !w.procs[p].ConfirmSpent? {
      EndKeeps(w, p);
    }
    match w.procs[p]
    case ConfirmPlanned(id, record, status, seen, now) =>
      var latest := Get(w.store, id);
      if ok && latest.Some? && latest.value.status == Approved {
        var row := SpentRow(latest.value, record, now);
        NotSpent(w, id);
        GetAfterAppend(w.store, latest.value, id);
        StillMarked(w, row);
        GetAfterAppend(w.store, row, id);
        assert w.lock == Some(p) && ProcOk(w, w.procs[p]);
        NewSpendKeeps(w, DoSpend(w, p, ok), p, w.store + [row], Spend(id, record, w.files, Open), status);
      }
    case _ =>
  }

  /** A grant that was approved, and whose record can land, is spent. */
  lemma NewSpendKeeps(w: World, v: World, p: nat, store: seq<Approval>, s: Spend, status: Status)
    requires Inv(w) && p in w.procs && w.lock == Some(p) && !w.procs[p].ConfirmSpent?
    requires s.files == w.files && Planned(s.record, status, w.files) && s.record.transition != Demote
    requires s.record.approval == Some(s.approval) && s.fate == Open
    requires StaysMarked(w, store) && Marked(store, s)
    requires forall i :: 0 <= i < |w.spends| ==> w.spends[i].approval != s.approval
    requires v == With(w.(store := store, spends := w.spends + [s]), p,
                       ConfirmSpent(s.record, status, s.files, |w.spends|))
    ensures Inv(v)
  {
    forall i | 0 <= i < |v.spends| ensures SpendOk(v, i) {
      if i < |w.spends| {
        assert SpendOk(w, i);
      }
    }
    forall k | 0 <= k < |v.appends| ensures AppendOk(v, k) {
      assert AppendOk(w, k);
    }
  }

  lemma RowKeeps(w: World, p: nat, ok: bool)
    requires Inv(w) && p in w.procs
    ensures Inv(DoRow(w, p, ok))
  {
    match w.procs[p]
    case ConfirmSpent(record, status, seen, spend) => SpentRowKeeps(w, p, ok);
    case DemotePlanned(record, status, seen) =>
      EndKeeps(w, p);
      if ok && Appendable(record, w.files) {
        LandingKeeps(w, w, p, record, status, None);
      }
    case _ =>
  }

  /** `p` lands its record on the files it was planned on; `v` is the world with its spend, if any, already fated. */
  ghost predicate Lands(w: World, v: World, p: nat, record: Record, status: Status, spend: Option<nat>) {
    && p in w.procs && w.lock == Some(p) && Planned(record, status, w.files)
    && v == (if spend.Some? then Fated(w, spend.value, Landed(|w.appends|)) else w)
    && (spend.None? ==> record.transition == Demote && !w.procs[p].ConfirmSpent?)
    && (spend.Some? ==> w.procs[p].ConfirmSpent? && spend.value == w.procs[p].spend && record == w.procs[p].record)
  }

  lemma LandingKeeps(w: World, v: World, p: nat, record: Record, status: Status, spend: Option<nat>)
    requires Inv(w) && Lands(w, v, p, record, status, spend)
    ensures Inv(Landing(v, p, record, status, spend))
  {
    LandingKeepsSpends(w, v, p, record, status, spend);
    LandingKeepsAppends(w, v, p, record, status, spend);
    assert LastRow(Landing(v, p, record, status, spend).files.ledger) == Some(record);
  }

  lemma LandingKeepsSpends(w: World, v: World, p: nat, record: Record, status: Status, spend: Option<nat>)
    requires Inv(w) && Lands(w, v, p, record, status, spend)
    ensures SpendsOk(Landing(v, p, record, status, spend))
  {
    var u := Landing(v, p, record, status, spend);
    assert ProcOk(w, w.procs[p]);
    forall i | 0 <= i < |u.spends| ensures SpendOk(u, i) {
      assert SpendOk(w, i);
    }
  }

  lemma LandingKeepsAppends(w: World, v: World, p: nat, record: Record, status: Status, spend: Option<nat>)
    requires Inv(w) && Lands(w, v, p, record, status, spend)
    ensures AppendsOk(Landing(v, p, record, status, spend))
  {
    var u := Landing(v, p, record, status, spend);
    assert ProcOk(w, w.procs[p]);
    forall k | 0 <= k < |u.appends| ensures AppendOk(u, k) {
      if k < |w.appends| {
        assert AppendOk(w, k);
      }
    }
  }

  lemma SpentRowKeeps(w: World, p: nat, ok: bool)
    requires Inv(w) && p in w.procs && w.procs[p].ConfirmSpent?
    ensures Inv(DoRow(w, p, ok))
  {
    var record, status, spend := w.procs[p].record, w.procs[p].status, w.procs[p].spend;
    assert w.lock == Some(p) && ProcOk(w, w.procs[p]);
    if ok && Appendable(record, w.files) {
      LandingKeeps(w, Fated(w, spend, Landed(|w.appends|)), p, record, status, Some(spend));
      assert DoRow(w, p, ok) == Landing(Fated(w, spend, Landed(|w.appends|)), p, record, status, Some(spend));
    } else {
      LostKeeps(w, p, RowFailed);
    }
  }

  /** A spent grant whose row did not land keeps its mark. */
  lemma LostKeeps(w: World, p: nat, fate: Fate)
    requires Inv(w) && p in w.procs && w.procs[p].ConfirmSpent? && (fate == RowFailed || fate == Crashed)
    ensures Inv(End(Fated(w, w.procs[p].spend, fate), p))
  {
    LostKeepsSpends(w, p, fate);
    var v := End(Fated(w, w.procs[p].spend, fate), p);
    assert w.lock == Some(p) && ProcOk(w, w.procs[p]);
    forall k | 0 <= k < |v.appends| ensures AppendOk(v, k) {
      assert AppendOk(w, k);
    }
  }

  lemma LostKeepsSpends(w: World, p: nat, fate: Fate)
    requires Inv(w) && p in w.procs && w.procs[p].ConfirmSpent? && (fate == RowFailed || fate == Crashed)
    ensures SpendsOk(End(Fated(w, w.procs[p].spend, fate), p))
  {
    var v := End(Fated(w, w.procs[p].spend, fate), p);
    assert w.lock == Some(p) && ProcOk(w, w.procs[p]);
    forall i | 0 <= i < |v.spends| ensures SpendOk(v, i) {
      assert SpendOk(w, i);
    }
  }

  lemma FilesKeep(w: World, p: nat, files: Files, next: Proc)
    requires Inv(w) && p in w.procs && w.lock == Some(p) && !w.procs[p].ConfirmSpent?
    requires LastRow(files.ledger) == LastRow(w.files.ledger)
    requires next.AnchorTried? || next.Done?
    ensures next.AnchorTried? ==> Inv(With(w.(files := files), p, next))
    ensures next.Done? ==> Inv(End(w.(files := files), p))
  {
    AlreadyMarked(w);
    HistoryStays(w, With(w.(files := files), p, next));
    HistoryStays(w, End(w.(files := files), p));
  }

  lemma TailKeeps(w: World, a: Action)
    requires Inv(w) && (a.WriteAnchor? || a.WriteMirror? || a.Reanchor?)
    ensures Inv(Do(w, a))
  {
    if a.p in w.procs && w.lock == Some(a.p) {
      match w.procs[a.p]
      case RowWritten(_) => AnchorKeeps(w, a);
      case AnchorTried(_) => MirrorKeeps(w, a);
      case SyncHolds => SyncKeeps(w, a);
      case _ =>
    }
  }

  lemma AnchorKeeps(w: World, a: Action)
    requires Inv(w) && (a.WriteAnchor? || a.WriteMirror? || a.Reanchor?)
    requires a.p in w.procs && w.lock == Some(a.p) && w.procs[a.p].RowWritten?
    ensures Inv(Do(w, a))
  {
    var v := Do(w, a);
    if v != w {
      FilesKeep(w, a.p, v.files, AnchorTried(w.procs[a.p].record));
    }
  }

  lemma MirrorKeeps(w: World, a: Action)
    requires Inv(w) && (a.WriteAnchor? || a.WriteMirror? || a.Reanchor?)
    requires a.p in w.procs && w.lock == Some(a.p) && w.procs[a.p].AnchorTried?
    ensures Inv(Do(w, a))
  {
    var v := Do(w, a);
    if v != w {
      FilesKeep(w, a.p, v.files, Done);
    }
  }

  lemma SyncKeeps(w: World, a: Action)
    requires Inv(w) && (a.WriteAnchor? || a.WriteMirror? || a.Reanchor?)
    requires a.p in w.procs && w.lock == Some(a.p) && w.procs[a.p].SyncHolds?
    ensures Inv(Do(w, a))
  {
    var v := Do(w, a);
    if v != w {
      FilesKeep(w, a.p, v.files, Done);
    }
  }

  lemma StepKeeps(w: World, a: Action)
    requires Inv(w)
    ensures Inv(Do(w, a))
  {
    if OfProcess(a).Some? {
      if OfProcess(a).value in w.procs {
        OwnStepKeeps(w, a);
      }
    } else if a.Ask? || a.Decide? {
      DecideKeeps(w, a);
    } else if a.StartConfirm? || a.StartDemote? || a.StartSync? {
      StartKeeps(w, a);
    } else {
      AlreadyMarked(w);
      HistoryStays(w, Do(w, a));
    }
  }

  /** A step of a process that has started. */
  lemma OwnStepKeeps(w: World, a: Action)
    requires Inv(w) && OfProcess(a).Some? && OfProcess(a).value in w.procs
    ensures Inv(Do(w, a))
  {
    match a
    case TakeLock(p) => TakeLockKeeps(w, p);
    case Check(p) => CheckKeeps(w, p);
    case Plan(p) => PlanKeeps(w, p);
    case SpendGrant(p, ok) => SpendKeeps(w, p, ok);
    case WriteRow(p, ok) => RowKeeps(w, p, ok);
    case Crash(p) =>
      if w.procs[p].ConfirmSpent? {
        LostKeeps(w, p, Crashed);
      } else {
        EndKeeps(w, p);
      }
    case _ => TailKeeps(w, a);
  }

  lemma {:induction false} RunKeeps(w: World, actions: seq<Action>)
    requires Start(w)
    ensures Inv(Run(w, actions))
  {
    if actions != [] {
      RunKeeps(w, actions[..|actions| - 1]);
      StepKeeps(Run(w, actions[..|actions| - 1]), actions[|actions| - 1]);
    }
  }

  // ---------------------------------------------------------------------------------------------
  // What holds of every run
  // ---------------------------------------------------------------------------------------------

  lemma DistinctApprovals(v: World, j: nat, k: nat)
    requires Inv(v) && j < k < |v.appends| && v.appends[j].record.transition != Demote
             && v.appends[k].record.transition != Demote
    ensures v.appends[j].record.approval != v.appends[k].record.approval
  {
    assert AppendOk(v, j) && AppendOk(v, k);
    assert SpendOk(v, v.appends[j].spend.value) && SpendOk(v, v.appends[k].spend.value);
  }

  /** One approval appends at most one record. */
  lemma OneRecordPerApproval(w: World, actions: seq<Action>, j: nat, k: nat)
    requires Start(w)
    requires var v := Run(w, actions);
             && j < k < |v.appends|
             && v.appends[j].record.transition != Demote && v.appends[k].record.transition != Demote
    ensures var v := Run(w, actions); v.appends[j].record.approval != v.appends[k].record.approval
  {
    RunKeeps(w, actions);
    DistinctApprovals(Run(w, actions), j, k);
  }

  /** The append stands on its own spend. */
  predicate StandsOnSpend(v: World, k: nat)
    requires k < |v.appends|
  {
    var a := v.appends[k];
    && a.spend.Some? && a.spend.value < |v.spends|
    && var s := v.spends[a.spend.value];
       && s.record == a.record && a.record.approval == Some(s.approval) && s.files == a.over && s.fate == Landed(k)
       && Marked(v.store, s)
  }

  /** Every record that is not a demotion has its own approval, spent on exactly this record over exactly the files it
    * was appended to, and still marked CONSUMED with it. */
  lemma EveryClimbWasSpent(w: World, actions: seq<Action>, k: nat)
    requires Start(w)
    requires var v := Run(w, actions); k < |v.appends| && v.appends[k].record.transition != Demote
    ensures StandsOnSpend(Run(w, actions), k)
  {
    RunKeeps(w, actions);
    var v := Run(w, actions);
    assert AppendOk(v, k);
    assert SpendOk(v, v.appends[k].spend.value);
  }

  /** Spend `i` is the only one of its approval, could land, and did, or says why not. */
  ghost predicate SpentWell(v: World, i: nat)
    requires i < |v.spends|
  {
    var s := v.spends[i];
    && Appendable(s.record, s.files)
    && (forall j :: 0 <= j < |v.spends| && v.spends[j].approval == s.approval ==> j == i)
    && (s.fate == Open ==> Spender(v, i))
    && (s.fate.Landed? ==> s.fate.append < |v.appends| && v.appends[s.fate.append].record == s.record)
  }

  /** An approval is spent at most once, and never on a record that could not land: what was spent either landed, or
    * its row failed to write or its process died between the two, or the process still holds the lock. */
  lemma NothingSpentInVain(w: World, actions: seq<Action>, i: nat)
    requires Start(w) && i < |Run(w, actions).spends|
    ensures SpentWell(Run(w, actions), i)
  {
    RunKeeps(w, actions);
    var v := Run(w, actions);
    assert SpendOk(v, i);
    if v.spends[i].fate.Landed? {
      assert AppendOk(v, v.spends[i].fate.append);
    }
  }

  /** Append `k` follows the ladder from the tip it was planned on, which is the record appended before it. */
  ghost predicate FollowsOn(v: World, k: nat)
    requires k < |v.appends|
  {
    var a := v.appends[k];
    && LadderRule(a.record, Tip(a.over)) && AskedOver(a.record, Tip(a.over)) && a.status.record == Tip(a.over)
    && (!v.tampered && k > 0 ==>
          && LastRow(a.over.ledger) == Some(v.appends[k - 1].record)
          && (Tip(a.over) == Some(v.appends[k - 1].record) || Tip(a.over) == None))
  }

  /** Each record was planned from the tip it was appended over, an approved one was asked for over that same tip, and
    * with nobody else writing the files that tip is the record appended just before: no demotion is lost. */
  lemma NoDemotionLost(w: World, actions: seq<Action>, k: nat)
    requires Start(w) && k < |Run(w, actions).appends|
    ensures FollowsOn(Run(w, actions), k)
  {
    RunKeeps(w, actions);
    var v := Run(w, actions);
    assert AppendOk(v, k);
    if !v.tampered && k > 0 {
      assert LastRow(v.appends[k].over.ledger) == Some(v.appends[k - 1].record);
      TipIsLastRow(v.appends[k].over);
    }
  }

  lemma TipIsLastRow(files: Files)
    requires LastRow(files.ledger).Some?
    ensures Tip(files) == LastRow(files.ledger) || Tip(files) == None
  {
  }

  /** After a stop nothing climbs: the next record is another demotion, or a BOOTSTRAP at SHADOW or PAPER asked for over
    * the stop itself (over no record, where the ledger does not read any more). */
  lemma AfterStop(w: World, actions: seq<Action>, k: nat)
    requires Start(w) && !Run(w, actions).tampered && k + 1 < |Run(w, actions).appends|
    requires Run(w, actions).appends[k].record.stage == ReadOnly
    ensures BelowLive(Run(w, actions), k)
  {
    NoDemotionLost(w, actions, k + 1);
    var v := Run(w, actions);
    assert FollowsOn(v, k + 1) && v.appends[k].record.stage == ReadOnly;
  }

  predicate BelowLive(v: World, k: nat)
    requires k + 1 < |v.appends|
  {
    var stop, next := v.appends[k].record, v.appends[k + 1].record;
    next.transition == Demote
    || (next.transition == Bootstrap && Rank(next.stage) <= Rank(Paper)
        && next.id.OfContent? && next.id.content.ref == Tip(v.appends[k + 1].over)
        && (next.id.content.ref == Some(stop) || next.id.content.ref == None))
  }

  lemma {:induction false} StoreStaysSound(w: World, actions: seq<Action>)
    requires SoundStore(w.store)
    ensures SoundStore(Run(w, actions).store)
  {
    if actions != [] {
      var before, a := Run(w, actions[..|actions| - 1]), actions[|actions| - 1];
      StoreStaysSound(w, actions[..|actions| - 1]);
      StepKeepsSound(before, a);
    }
  }

  lemma StepKeepsSound(w: World, a: Action)
    requires SoundStore(w.store)
    ensures SoundStore(Do(w, a).store)
  {
    if a.Ask? {
      var env := At(w.env, a.askedAt);
      var status := Resolve(w.files, w.store, env);
      if PlanTransition(status, a.target, a.registrant, a.why, a.attestation, a.cycle, env).Ok? {
        PlanIsSound(w.files, w.store, a.target, a.registrant, a.why, a.attestation, a.cycle, env);
      }
    } else if a.Decide? {
      SameContentSound(w.store, a.id);
    } else if a.SpendGrant? {
      if a.p in w.procs && w.procs[a.p].ConfirmPlanned? {
        SameContentSound(w.store, w.procs[a.p].id);
      }
    }
  }

  lemma SameContentSound(store: seq<Approval>, id: string)
    requires SoundStore(store)
    ensures Get(store, id).Some? ==> SoundContent(Get(store, id).value.content)
  {
  }

  /** In every run, tampered with or not, and over any files whatsoever: no stage above READ_ONLY binds without a spent
    * approval at that stage or above for the running policy; LIVE_AUTONOMOUS binds only on a named testnet cycle, and
    * LIVE_SCALED never. */
  lemma NothingForgedBinds(w: World, actions: seq<Action>, files: Files, env: Env)
    requires SoundStore(w.store) && Resolve(files, Run(w, actions).store, env).Binding()
    ensures var store := Run(w, actions).store;
            var r := Resolve(files, store, env).record.value;
            && r.approval.Some? && Get(store, r.approval.value).Some?
            && Get(store, r.approval.value).value.status == Consumed
            && Rank(r.stage) <= Rank(Get(store, r.approval.value).value.content.to)
            && Some(Get(store, r.approval.value).value.content.policy) == env.policy
            && r.stage != LiveScaled && (r.stage == LiveAutonomous ==> r.evidence.cycle.Some?)
  {
    StoreStaysSound(w, actions);
    BindingIsApproved(files, Run(w, actions).store, env);
    NothingBindsUnproven(files, Run(w, actions).store, env);
  }

  // ---------------------------------------------------------------------------------------------
  // The doors, run alone
  // ---------------------------------------------------------------------------------------------

  /** Which of the writes succeed. */
  datatype Io = Io(spend: bool, row: bool, anchor: bool, mirror: bool)

  /** The files after the anchor and the mirror, once the row is in. */
  function Tailed(record: Record, row: Files, io: Io): Files {
    var anchored := if io.anchor then WithAnchor(row) else row;
    if io.mirror then anchored.(mirror := Mirror(record)) else anchored
  }

  function Written(record: Record, files: Files, io: Io): Files {
    Tailed(record, WithRow(record, files), io)
  }

  function PlanConfirm(files: Files, store: seq<Approval>, env: Env, id: string): Option<Record>
    requires Get(store, id).Some?
  {
    var r := RecordFromApproved(Get(store, id).value.content, Resolve(files, store, env), id, env);
    if r.Ok? && Appendable(r.value, files) then Some(r.value) else None
  }

  datatype Result = Result(files: Files, store: seq<Approval>, written: Option<Record>)

  function ConfirmOutcome(files: Files, store: seq<Approval>, env: Env, id: string, allowed: bool, now: int,
                          io: Io): Result {
    if !Spendable(store, id, allowed, now) then Result(files, store, None)
    else
      var r := PlanConfirm(files, store, At(env, now), id);
      if r.None? || !io.spend then Result(files, store, None)
      else
        var spent := store + [SpentRow(Get(store, id).value, r.value, now)];
        if io.row then Result(Written(r.value, files, io), spent, r) else Result(files, spent, None)
  }

  /** What a confirm answers when it writes nothing. */
  datatype ConfirmRefusal =
    | ExecutionStopped | UnknownApproval | AlreadyConsumed | NotApproved | ApprovalExpired
    | NotPlanned(reason: Refusal) | NotAppendable | SpendNotWritten | RowFailedAfterSpend

  /** Its first refusal, in the order of the checks. */
  function RefusalOf(files: Files, store: seq<Approval>, env: Env, id: string, allowed: bool, now: int,
                     io: Io): Option<ConfirmRefusal> {
    if !allowed then Some(ExecutionStopped)
    else if Get(store, id).None? then Some(UnknownApproval)
    else
      var a := Get(store, id).value;
      if a.status == Consumed then Some(AlreadyConsumed)
      else if a.status != Approved then Some(NotApproved)
      else if now >= a.expires then Some(ApprovalExpired)
      else
        var r := RecordFromApproved(a.content, Resolve(files, store, At(env, now)), id, At(env, now));
        if r.No? then Some(NotPlanned(r.refusal))
        else if !Appendable(r.value, files) then Some(NotAppendable)
        else if !io.spend then Some(SpendNotWritten)
        else if !io.row then Some(RowFailedAfterSpend) else None
  }

  /** A confirm that writes nothing says why, and every refusal but a failed row leaves the grant, the approvals and the
    * files as they were; a failed row leaves the files and the grant spent. */
  lemma RefusalSpendsNothing(files: Files, store: seq<Approval>, env: Env, id: string, allowed: bool, now: int, io: Io)
    ensures var refused := RefusalOf(files, store, env, id, allowed, now, io);
            var r := ConfirmOutcome(files, store, env, id, allowed, now, io);
            && (refused.None? <==> r.written.Some?)
            && (refused.Some? ==> r.files == files)
            && (refused.Some? && refused != Some(RowFailedAfterSpend) ==> r.store == store)
            && (refused == Some(RowFailedAfterSpend) ==>
                Get(r.store, id).Some? && Get(r.store, id).value.status == Consumed)
  {
    if Get(store, id).Some? {
      GetAfterAppend(store, Get(store, id).value, id);
    }
  }

  function DemoteOutcome(files: Files, store: seq<Approval>, env: Env, target: Stage, registrant: string, why: string,
                         now: int, io: Io): Result {
    var r := DemoteRecord(Resolve(files, store, At(env, now)), target, registrant, why, At(env, now));
    if r.No? || !io.row then Result(files, store, None) else Result(Written(r.value, files, io), store, Some(r.value))
  }

  /** A stop that must work: a record is there, whatever its state, that is not a valid READ_ONLY one, and the stop
    * names who and why. */
  ghost predicate StopIsDue(files: Files, store: seq<Approval>, env: Env, registrant: string, why: string) {
    var s := Resolve(files, store, env);
    && s.present && !(s.valid && RecordedAs(s, ReadOnly))
    && SaysSomething(registrant, env.space) && SaysSomething(why, env.space)
    && |Strip(registrant, env.space)| <= REGISTRANT_LIMIT
  }

  /** Where its row is written, such a stop is recorded, and whatever becomes of the anchor, the mirror, the approvals,
    * the policy and the clock, the machine reads READ_ONLY. */
  lemma StopWorks(files: Files, store: seq<Approval>, env: Env, registrant: string, why: string, now: int, io: Io,
                  storeThen: seq<Approval>, envThen: Env)
    requires StopIsDue(files, store, At(env, now), registrant, why) && io.row
    ensures var r := DemoteOutcome(files, store, env, ReadOnly, registrant, why, now, io);
            r.written.Some? && Resolve(r.files, storeThen, envThen).Effective() == ReadOnly
  {
    DemoteExactly(Resolve(files, store, At(env, now)), ReadOnly, registrant, why, At(env, now));
    var r := DemoteOutcome(files, store, env, ReadOnly, registrant, why, now, io);
    StoppedReadsStopped(r.written.value, files, io, storeThen, envThen);
  }

  lemma StoppedReadsStopped(r: Record, files: Files, io: Io, store: seq<Approval>, env: Env)
    requires r.stage == ReadOnly
    ensures Resolve(Written(r, files, io), store, env).Effective() == ReadOnly
  {
    var rows := Extended(r, files);
    assert rows[|rows| - 1] == r && Written(r, files, io).ledger == Rows(rows);
  }

  /** Row `i` is the newest of that approval, and may be spent: approved, and not expired. */
  predicate GrantAt(store: seq<Approval>, id: string, i: nat, now: int) {
    && i < |store| && store[i].id == id && store[i].status == Approved && now < store[i].expires
    && forall k :: i < k < |store| ==> store[k].id != id
  }

  lemma {:induction false} NewestIs(store: seq<Approval>, id: string, i: nat)
    requires i < |store| && store[i].id == id && forall k :: i < k < |store| ==> store[k].id != id
    ensures Get(store, id) == Some(store[i])
  {
    if i < |store| - 1 {
      NewestIs(store[..|store| - 1], id, i);
    }
  }

  lemma {:induction false} NewestExists(store: seq<Approval>, id: string) returns (i: nat)
    requires Get(store, id).Some?
    ensures i < |store| && store[i].id == id && Get(store, id) == Some(store[i])
    ensures forall k :: i < k < |store| ==> store[k].id != id
  {
    i := |store| - 1;
    if store[i].id != id {
      i := NewestExists(store[..|store| - 1], id);
    }
  }

  lemma PlannedIsAppendable(files: Files, store: seq<Approval>, env: Env, c: Content, id: string)
    requires RecordFromApproved(c, Resolve(files, store, env), id, env).Ok?
    ensures Appendable(RecordFromApproved(c, Resolve(files, store, env), id, env).value, files)
  {
    var status := Resolve(files, store, env);
    var again := Replan(c, status, env);
    if c.transition != Bootstrap {
      assert status.record.Some? && !status.anchorBehind;
      assert ChainToExtend(files).Some?;
    }
  }

  /** A confirm writes a record exactly when execution is allowed, the newest row of the approval is approved and not
    * expired, its content still becomes a record, and the spend and the row are written. */
  lemma ConfirmExactly(files: Files, store: seq<Approval>, env: Env, id: string, allowed: bool, now: int, io: Io)
    ensures var r := ConfirmOutcome(files, store, env, id, allowed, now, io);
            r.written.Some? <==>
              && allowed && io.spend && io.row
              && exists i :: 0 <= i < |store| && GrantAt(store, id, i, now)
                             && RecordFromApproved(store[i].content, Resolve(files, store, At(env, now)), id,
                                                   At(env, now)).Ok?
  {
    if Get(store, id).Some? {
      var i := NewestExists(store, id);
      var made := RecordFromApproved(store[i].content, Resolve(files, store, At(env, now)), id, At(env, now));
      if made.Ok? {
        PlannedIsAppendable(files, store, At(env, now), store[i].content, id);
      }
      assert Spendable(store, id, allowed, now) && made.Ok? ==> GrantAt(store, id, i, now);
    }
    forall i | 0 <= i < |store| && GrantAt(store, id, i, now) ensures Get(store, id) == Some(store[i]) {
      NewestIs(store, id, i);
    }
  }

  /** A grant whose content still becomes a record is confirmed, and read, where all writes succeed. */
  lemma ConfirmWorks(a: Approval, files: Files, store: seq<Approval>, env: Env, now: int, io: Io)
    requires Get(store, a.id) == Some(a) && a.status == Approved && now < a.expires
    requires RecordFromApproved(a.content, Resolve(files, store, At(env, now)), a.id, At(env, now)).Ok?
    requires ChainToExtend(files).Some? ==> forall r :: r in ChainToExtend(files).value ==> r.approval != Some(a.id)
    requires io.spend && io.row && io.anchor
    ensures var r := ConfirmOutcome(files, store, env, a.id, true, now, io);
            r.written.Some? && Resolve(r.files, r.store, At(env, now)).Effective() == a.content.to
  {
    var status := Resolve(files, store, At(env, now));
    PlannedIsAppendable(files, store, At(env, now), a.content, a.id);
    ConfirmReadsBack(a, status, At(env, now), files, store);
    var r := ConfirmOutcome(files, store, env, a.id, true, now, io);
    MirrorChangesNothing(WithAnchor(WithRow(r.written.value, files)), r.files.mirror, r.store, At(env, now));
  }

  lemma PlanIgnoresClock(status: Status, target: Stage, registrant: string, why: string, attestation: Option<string>,
                         cycle: Option<string>, env: Env, asked: int, now: int)
    ensures PlanTransition(status, target, registrant, why, attestation, cycle, At(env, asked))
            == PlanTransition(status, target, registrant, why, attestation, cycle, At(env, now))
  {
  }

  /** A demotion to another rung below a binding stage works too, where its row and its anchor are written. */
  lemma LoweringWorks(files: Files, store: seq<Approval>, env: Env, target: Stage, registrant: string, why: string,
                      now: int, io: Io)
    requires Resolve(files, store, At(env, now)).Binding() && target != ReadOnly
    requires Below(target, Resolve(files, store, At(env, now)).record.value.stage)
    requires SaysSomething(registrant, env.space) && SaysSomething(why, env.space)
    requires |Strip(registrant, env.space)| <= REGISTRANT_LIMIT && io.row && io.anchor
    ensures var r := DemoteOutcome(files, store, env, target, registrant, why, now, io);
            r.written.Some? && Resolve(r.files, store, At(env, now)).Effective() == target
  {
    var status := Resolve(files, store, At(env, now));
    DemoteExactly(status, target, registrant, why, At(env, now));
    DemotionReadsBack(status, target, registrant, why, At(env, now), files, store);
    var r := DemoteOutcome(files, store, env, target, registrant, why, now, io).written.value;
    MirrorChangesNothing(WithAnchor(WithRow(r, files)), Mirror(r), store, At(env, now));
  }

  /** Once there are rows, no decision reads the mirror. */
  lemma MirrorChangesNothing(files: Files, mirror: MirrorFile, store: seq<Approval>, env: Env)
    requires files.ledger.Rows?
    ensures Resolve(files.(mirror := mirror), store, env) == Resolve(files, store, env)
  {
  }

  /** The stage files, the approvals and the environment of one machine. */
  class Machine {
    var files: Files
    var store: seq<Approval>
    var env: Env

    /** `append_stage_record`: row, then anchor, then mirror; only a failed row raises. */
    method AppendStageRecord(record: Record, io: Io) returns (landed: bool)
      modifies this`files
      ensures landed <==> io.row && Appendable(record, old(files))
      ensures files == if landed then Written(record, old(files), io) else old(files)
    {
      var chain := ChainToExtend(files);
      if (chain.None? && !MayStartChain(record)) || !io.row {
        return false;
      }
      files := files.(ledger := Rows(if chain.Some? then chain.value + [record] else [record]));
      if io.anchor {
        files := WithAnchor(files);
      }
      if io.mirror {
        files := files.(mirror := Mirror(record));
      }
      landed := true;
    }

    /** `run_confirm`: everything that can refuse refuses before the spend. */
    method RunConfirm(id: string, allowed: bool, now: int, io: Io)
      returns (written: Option<Record>, refused: Option<ConfirmRefusal>)
      modifies this
      ensures Result(files, store, written) == ConfirmOutcome(old(files), old(store), old(env), id, allowed, now, io)
              && env == old(env)
      ensures refused == RefusalOf(old(files), old(store), old(env), id, allowed, now, io)
    {
      if !allowed {
        return None, Some(ExecutionStopped);
      }
      var approval := Get(store, id);
      if approval.None? {
        return None, Some(UnknownApproval);
      }
      if approval.value.status == Consumed {
        return None, Some(AlreadyConsumed);
      }
      if approval.value.status != Approved {
        return None, Some(NotApproved);
      }
      if now >= approval.value.expires {
        return None, Some(ApprovalExpired);
      }
      var status := Resolve(files, store, At(env, now));
      var record := RecordFromApproved(approval.value.content, status, id, At(env, now));
      if record.No? {
        return None, Some(NotPlanned(record.refusal));
      }
      if !Appendable(record.value, files) {
        return None, Some(NotAppendable);
      }
      if !io.spend {
        return None, Some(SpendNotWritten);
      }
      store := store + [SpentRow(approval.value, record.value, now)];
      var landed := AppendStageRecord(record.value, io);
      written := if landed then Some(record.value) else None;
      refused := if landed then None else Some(RowFailedAfterSpend);
    }

    /** `run_demote`. */
    method RunDemote(target: Stage, registrant: string, why: string, now: int, io: Io) returns (written: Option<Record>)
      modifies this`files
      ensures Result(files, store, written) == DemoteOutcome(old(files), store, env, target, registrant, why, now, io)
      ensures target == ReadOnly && StopIsDue(old(files), store, At(env, now), registrant, why) && io.row ==>
                written.Some? && Resolve(files, store, At(env, now)).Effective() == ReadOnly
    {
      ghost var due := target == ReadOnly && StopIsDue(files, store, At(env, now), registrant, why) && io.row;
      if due {
        StopWorks(files, store, env, registrant, why, now, io, store, At(env, now));
      }
      var status := Resolve(files, store, At(env, now));
      var record := DemoteRecord(status, target, registrant, why, At(env, now));
      if record.No? {
        return None;
      }
      DemotionIsPlanned(files, store, At(env, now), target, registrant, why);
      var landed := AppendStageRecord(record.value, io);
      written := if landed then Some(record.value) else None;
    }
  }

  /** A machine with one process. */
  function Alone(files: Files, store: seq<Approval>, env: Env, lock: bool, q: Proc): World {
    World(files, store, env, if lock then Some(0) else None, map[0 := q], [], [], false)
  }

  predicate Ended(w: World, r: Result) {
    w.files == r.files && w.store == r.store && 0 in w.procs && w.procs[0].Done? && w.lock.None?
    && r.written == if w.appends == [] then None else Some(w.appends[|w.appends| - 1].record)
  }

  predicate OwnStep(a: Action) {
    OfProcess(a) == Some(0) && !a.Crash?
  }

  lemma DoneStays(w: World, a: Action, r: Result)
    requires Ended(w, r) && OwnStep(a)
    ensures Ended(Do(w, a), r)
  {
  }

  /** The steps after the row leave what the sequential writer leaves. */
  lemma TailAlone(w: World, record: Record, io: Io, r: Result)
    requires 0 in w.procs && w.procs[0] == RowWritten(record) && w.lock == Some(0)
    requires w.appends != [] && w.appends[|w.appends| - 1].record == record
    requires r == Result(Tailed(record, w.files, io), w.store, Some(record))
    ensures Ended(Do(Do(w, WriteAnchor(0, io.anchor)), WriteMirror(0, io.mirror)), r)
  {
    var v := DoAnchor(w, 0, io.anchor);
    assert Do(w, WriteAnchor(0, io.anchor)) == v;
    MirrorAlone(v, record, io.mirror, r);
  }

  lemma MirrorAlone(w: World, record: Record, ok: bool, r: Result)
    requires 0 in w.procs && w.procs[0] == AnchorTried(record) && w.lock == Some(0)
    requires w.appends != [] && w.appends[|w.appends| - 1].record == record
    requires r == Result(if ok then w.files.(mirror := Mirror(record)) else w.files, w.store, Some(record))
    ensures Ended(Do(w, WriteMirror(0, ok)), r)
  {
  }

  /** The row is in, or its write failed and the process has ended. */
  lemma RowAlone(w: World, record: Record, io: Io, r: Result)
    requires 0 in w.procs
    requires io.row ==> w.procs[0] == RowWritten(record) && w.lock == Some(0)
    requires io.row ==> w.appends != [] && w.appends[|w.appends| - 1].record == record
    requires io.row ==> r == Result(Tailed(record, w.files, io), w.store, Some(record))
    requires !io.row ==> Ended(w, r)
    ensures Ended(Do(Do(w, WriteAnchor(0, io.anchor)), WriteMirror(0, io.mirror)), r)
  {
    if io.row {
      TailAlone(w, record, io, r);
    } else {
      DoneStays(w, WriteAnchor(0, io.anchor), r);
      DoneStays(Do(w, WriteAnchor(0, io.anchor)), WriteMirror(0, io.mirror), r);
    }
  }

  /** A confirm with no other process about: its steps, one after the other, are `RunConfirm`. */
  lemma ConfirmAlone(files: Files, store: seq<Approval>, env: Env, id: string, allowed: bool, now: int, io: Io)
    ensures var w := World(files, store, env, None, map[], [], [], false);
            var locked := Do(Do(Do(w, StartConfirm(0, id, allowed, now)), TakeLock(0)), Check(0));
            var spent := Do(Do(locked, Plan(0)), SpendGrant(0, io.spend));
            var landed := Do(spent, WriteRow(0, io.row));
            Ended(Do(Do(landed, WriteAnchor(0, io.anchor)), WriteMirror(0, io.mirror)),
                  ConfirmOutcome(files, store, env, id, allowed, now, io))
  {
    var w := World(files, store, env, None, map[], [], [], false);
    var r := ConfirmOutcome(files, store, env, id, allowed, now, io);
    var started := Do(w, StartConfirm(0, id, allowed, now));
    var locked := Do(Do(started, TakeLock(0)), Check(0));
    if !Spendable(store, id, allowed, now) {
      assert Ended(started, r);
      DoneStays(locked, Plan(0), r);
      DoneStays(Do(locked, Plan(0)), SpendGrant(0, io.spend), r);
      RowStays(Do(Do(locked, Plan(0)), SpendGrant(0, io.spend)), io, r);
    } else {
      ConfirmIsChecked(files, store, env, id, allowed, now);
      CheckedAlone(files, store, env, id, now, io, r);
    }
  }

  lemma ConfirmIsChecked(files: Files, store: seq<Approval>, env: Env, id: string, allowed: bool, now: int)
    requires Spendable(store, id, allowed, now)
    ensures var w := World(files, store, env, None, map[], [], [], false);
            Do(Do(Do(w, StartConfirm(0, id, allowed, now)), TakeLock(0)), Check(0))
            == Alone(files, store, env, true, ConfirmChecked(id, Get(store, id).value.content, now))
  {
    var w := World(files, store, env, None, map[], [], [], false);
    var content := Get(store, id).value.content;
    var started := Alone(files, store, env, false, ConfirmWaits(id, content, now));
    var locked := Alone(files, store, env, true, ConfirmHolds(id, content, now));
    assert Do(w, StartConfirm(0, id, allowed, now)) == DoStart(w, StartConfirm(0, id, allowed, now)) == started;
    assert Do(started, TakeLock(0)) == DoTakeLock(started, 0) == locked;
    assert Do(locked, Check(0)) == DoCheck(locked, 0);
  }

  /** An ask is recorded where it can be planned under an id that is free, and decided once: neither a spend nor a
    * second decision is taken for one. */
  lemma AskedAndDecided(w: World, ask: Action, verdict: ApprovalStatus, later: ApprovalStatus)
    requires ask.Ask? && Get(w.store, ask.id).None?
    ensures var status := Resolve(w.files, w.store, At(w.env, ask.askedAt));
            var plan := PlanTransition(status, ask.target, ask.registrant, ask.why, ask.attestation, ask.cycle,
                                       At(w.env, ask.askedAt));
            var asked := Do(w, ask);
            var decided := Do(asked, Decide(ask.id, verdict));
            && (plan.No? ==> decided == asked == w)
            && (plan.Ok? ==>
                  && asked == w.(store := w.store + [Approval(ask.id, plan.value, ask.expires, Pending, None)])
                  && decided == (if verdict == Consumed then asked
                                 else w.(store := asked.store
                                                  + [Approval(ask.id, plan.value, ask.expires, verdict, None)]))
                  && (verdict != Consumed && verdict != Pending ==> Do(decided, Decide(ask.id, later)) == decided))
  {
    var plan := PlanTransition(Resolve(w.files, w.store, At(w.env, ask.askedAt)), ask.target, ask.registrant, ask.why,
                               ask.attestation, ask.cycle, At(w.env, ask.askedAt));
    assert Do(w, ask) == DoAsk(w, ask);
    if plan.Ok? {
      var pending := Approval(ask.id, plan.value, ask.expires, Pending, None);
      GetAfterAppend(w.store, pending, ask.id);
      GetAfterAppend(w.store + [pending], pending.(status := verdict), ask.id);
    }
  }

  /** The machine after an ask and its approval. */
  ghost function Granted(files: Files, store: seq<Approval>, env: Env, ask: Action): World
    requires ask.Ask?
  {
    Do(Do(World(files, store, env, None, map[], [], [], false), ask), Decide(ask.id, Approved))
  }

  lemma GrantHolds(files: Files, store: seq<Approval>, env: Env, ask: Action, now: int) returns (a: Approval)
    requires ask.Ask? && Get(store, ask.id).None? && now < ask.expires
    requires PlanTransition(Resolve(files, store, At(env, ask.askedAt)), ask.target, ask.registrant, ask.why,
                            ask.attestation, ask.cycle, At(env, ask.askedAt)).Ok?
    requires Confirmable(ask.registrant, ask.why, ask.attestation, ask.cycle, env)
    requires ChainToExtend(files).Some? ==> forall r :: r in ChainToExtend(files).value ==> r.approval != Some(ask.id)
    requires Resolve(files, Granted(files, store, env, ask).store, At(env, now))
             == Resolve(files, store, At(env, ask.askedAt))
    ensures var w := Granted(files, store, env, ask);
            && w == World(files, w.store, env, None, map[], [], [], false)
            && Get(w.store, ask.id) == Some(a) && a.id == ask.id && a.expires == ask.expires && a.status == Approved
            && a.content.to == ask.target
            && RecordFromApproved(a.content, Resolve(files, w.store, At(env, now)), ask.id, At(env, now)).Ok?
  {
    var status := Resolve(files, store, At(env, ask.askedAt));
    var c := PlanTransition(status, ask.target, ask.registrant, ask.why, ask.attestation, ask.cycle,
                            At(env, ask.askedAt)).value;
    a := Approval(ask.id, c, ask.expires, Approved, None);
    var w := World(files, store, env, None, map[], [], [], false);
    AskedAndDecided(w, ask, Approved, Approved);
    assert Granted(files, store, env, ask).store == Do(w, ask).store + [a];
    GetAfterAppend(Do(w, ask).store, a, ask.id);
    PlanIgnoresClock(status, ask.target, ask.registrant, ask.why, ask.attestation, ask.cycle, env, ask.askedAt, now);
    AskThenConfirm(status, ask.target, ask.registrant, ask.why, ask.attestation, ask.cycle, ask.id, At(env, now));
  }

  /** A whole climb: an ask whose texts fit, under an id that is free, approved and then confirmed before it expires
    * while the machine reads as it did at the ask, with no other process about and all writes but perhaps the
    * mirror's succeeding, makes the machine read the stage asked for. */
  lemma ClimbWorks(files: Files, store: seq<Approval>, env: Env, ask: Action, now: int, mirror: bool)
    requires ask.Ask? && Get(store, ask.id).None? && now < ask.expires
    requires PlanTransition(Resolve(files, store, At(env, ask.askedAt)), ask.target, ask.registrant, ask.why,
                            ask.attestation, ask.cycle, At(env, ask.askedAt)).Ok?
    requires Confirmable(ask.registrant, ask.why, ask.attestation, ask.cycle, env)
    requires ChainToExtend(files).Some? ==> forall r :: r in ChainToExtend(files).value ==> r.approval != Some(ask.id)
    requires Resolve(files, Granted(files, store, env, ask).store, At(env, now))
             == Resolve(files, store, At(env, ask.askedAt))
    ensures var granted := Granted(files, store, env, ask);
            var checked := Do(Do(Do(granted, StartConfirm(0, ask.id, true, now)), TakeLock(0)), Check(0));
            var landed := Do(Do(Do(checked, Plan(0)), SpendGrant(0, true)), WriteRow(0, true));
            var v := Do(Do(landed, WriteAnchor(0, true)), WriteMirror(0, mirror));
            Resolve(v.files, v.store, At(env, now)).Effective() == ask.target
  {
    var a := GrantHolds(files, store, env, ask, now);
    var io := Io(true, true, true, mirror);
    ConfirmWorks(a, files, Granted(files, store, env, ask).store, env, now, io);
    ConfirmAlone(files, Granted(files, store, env, ask).store, env, ask.id, true, now, io);
  }

  lemma RowStays(w: World, io: Io, r: Result)
    requires Ended(w, r)
    ensures Ended(Do(Do(Do(w, WriteRow(0, io.row)), WriteAnchor(0, io.anchor)), WriteMirror(0, io.mirror)), r)
  {
  }

  lemma CheckedAlone(files: Files, store: seq<Approval>, env: Env, id: string, now: int, io: Io, r: Result)
    requires Get(store, id).Some? && Get(store, id).value.status == Approved && now < Get(store, id).value.expires
    requires r == ConfirmOutcome(files, store, env, id, true, now, io)
    ensures var w := Alone(files, store, env, true, ConfirmChecked(id, Get(store, id).value.content, now));
            var landed := Do(Do(Do(w, Plan(0)), SpendGrant(0, io.spend)), WriteRow(0, io.row));
            Ended(Do(Do(landed, WriteAnchor(0, io.anchor)), WriteMirror(0, io.mirror)), r)
  {
    var w := Alone(files, store, env, true, ConfirmChecked(id, Get(store, id).value.content, now));
    var planned := Do(w, Plan(0));
    var record := PlanConfirm(files, store, At(env, now), id);
    var status := Resolve(files, store, At(env, now));
    CheckedPlans(files, store, env, id, now);
    if record.None? {
      DoneStays(planned, SpendGrant(0, io.spend), r);
      RowStays(Do(planned, SpendGrant(0, io.spend)), io, r);
    } else {
      PlannedAlone(files, store, env, id, record.value, status, now, io, r);
    }
  }

  lemma CheckedPlans(files: Files, store: seq<Approval>, env: Env, id: string, now: int)
    requires Get(store, id).Some?
    ensures var w := Alone(files, store, env, true, ConfirmChecked(id, Get(store, id).value.content, now));
            var record := PlanConfirm(files, store, At(env, now), id);
            var status := Resolve(files, store, At(env, now));
            Do(w, Plan(0)) == if record.None? then End(w, 0)
                              else Alone(files, store, env, true, ConfirmPlanned(id, record.value, status, files, now))
  {
    var w := Alone(files, store, env, true, ConfirmChecked(id, Get(store, id).value.content, now));
    assert Do(w, Plan(0)) == DoPlan(w, 0);
  }

  lemma PlannedAlone(files: Files, store: seq<Approval>, env: Env, id: string, record: Record, status: Status, now: int,
                     io: Io, r: Result)
    requires Get(store, id).Some? && Get(store, id).value.status == Approved && Appendable(record, files)
    requires var spent := store + [SpentRow(Get(store, id).value, record, now)];
             r == if !io.spend then Result(files, store, None)
                  else if io.row then Result(Written(record, files, io), spent, Some(record))
                  else Result(files, spent, None)
    ensures var w := Alone(files, store, env, true, ConfirmPlanned(id, record, status, files, now));
            var landed := Do(Do(w, SpendGrant(0, io.spend)), WriteRow(0, io.row));
            Ended(Do(Do(landed, WriteAnchor(0, io.anchor)), WriteMirror(0, io.mirror)), r)
  {
    var w := Alone(files, store, env, true, ConfirmPlanned(id, record, status, files, now));
    var spent := DoSpend(w, 0, io.spend);
    assert spent == Do(w, SpendGrant(0, io.spend));
    if !io.spend {
      RowStays(spent, io, r);
    } else {
      assert spent.procs[0] == ConfirmSpent(record, status, files, 0) && spent.files == files && spent.lock == Some(0);
      SpentAlone(spent, record, status, files, io, r);
    }
  }

  lemma SpentAlone(w: World, record: Record, status: Status, files: Files, io: Io, r: Result)
    requires 0 in w.procs && w.procs[0] == ConfirmSpent(record, status, files, 0) && w.lock == Some(0)
             && w.appends == []
    requires w.files == files && Appendable(record, files)
    requires r == if io.row then Result(Written(record, files, io), w.store, Some(record))
                  else Result(files, w.store, None)
    ensures Ended(Do(Do(Do(w, WriteRow(0, io.row)), WriteAnchor(0, io.anchor)), WriteMirror(0, io.mirror)), r)
  {
    var landed := DoRow(w, 0, io.row);
    assert landed == Do(w, WriteRow(0, io.row));
    RowAlone(landed, record, io, r);
  }

  /** The same for a demotion. */
  lemma DemoteAlone(files: Files, store: seq<Approval>, env: Env, target: Stage, registrant: string, why: string,
                    now: int, io: Io)
    ensures var w := World(files, store, env, None, map[], [], [], false);
            var planned := Do(Do(Do(w, StartDemote(0, target, registrant, why, now)), TakeLock(0)), Plan(0));
            var landed := Do(planned, WriteRow(0, io.row));
            Ended(Do(Do(landed, WriteAnchor(0, io.anchor)), WriteMirror(0, io.mirror)),
                  DemoteOutcome(files, store, env, target, registrant, why, now, io))
  {
    var w := World(files, store, env, None, map[], [], [], false);
    var r := DemoteOutcome(files, store, env, target, registrant, why, now, io);
    var started := Do(w, StartDemote(0, target, registrant, why, now));
    assert started == Alone(files, store, env, false, DemoteWaits(target, registrant, why, now));
    var locked := Do(started, TakeLock(0));
    assert locked == Alone(files, store, env, true, DemoteHolds(target, registrant, why, now));
    HeldAlone(files, store, env, target, registrant, why, now, io, r);
  }

  lemma HeldAlone(files: Files, store: seq<Approval>, env: Env, target: Stage, registrant: string, why: string,
                  now: int, io: Io, r: Result)
    requires r == DemoteOutcome(files, store, env, target, registrant, why, now, io)
    ensures var w := Alone(files, store, env, true, DemoteHolds(target, registrant, why, now));
            var landed := Do(Do(w, Plan(0)), WriteRow(0, io.row));
            Ended(Do(Do(landed, WriteAnchor(0, io.anchor)), WriteMirror(0, io.mirror)), r)
  {
    var w := Alone(files, store, env, true, DemoteHolds(target, registrant, why, now));
    var status := Resolve(files, store, At(env, now));
    var record := DemoteRecord(status, target, registrant, why, At(env, now));
    HeldPlans(files, store, env, target, registrant, why, now);
    if record.No? {
      RowStays(End(w, 0), io, r);
    } else {
      DemotionIsPlanned(files, store, At(env, now), target, registrant, why);
      DemotedAlone(files, store, env, record.value, status, io, r);
    }
  }

  lemma HeldPlans(files: Files, store: seq<Approval>, env: Env, target: Stage, registrant: string, why: string,
                  now: int)
    ensures var w := Alone(files, store, env, true, DemoteHolds(target, registrant, why, now));
            var status := Resolve(files, store, At(env, now));
            var record := DemoteRecord(status, target, registrant, why, At(env, now));
            Do(w, Plan(0)) == if record.No? then End(w, 0)
                              else Alone(files, store, env, true, DemotePlanned(record.value, status, files))
  {
    var w := Alone(files, store, env, true, DemoteHolds(target, registrant, why, now));
    assert Do(w, Plan(0)) == DoPlan(w, 0);
  }

  lemma DemotedAlone(files: Files, store: seq<Approval>, env: Env, record: Record, status: Status, io: Io, r: Result)
    requires Appendable(record, files)
    requires r == if io.row then Result(Written(record, files, io), store, Some(record)) else Result(files, store, None)
    ensures var w := Alone(files, store, env, true, DemotePlanned(record, status, files));
            Ended(Do(Do(Do(w, WriteRow(0, io.row)), WriteAnchor(0, io.anchor)), WriteMirror(0, io.mirror)), r)
  {
    var w := Alone(files, store, env, true, DemotePlanned(record, status, files));
    var landed := DoRow(w, 0, io.row);
    assert landed == Do(w, WriteRow(0, io.row));
    RowAlone(landed, record, io, r);
  }
}
