/** runtime/mvp_runtime/crypto/execution_stage.py: the stage ladder, its ledger and anchor, and what the registration
  * door plans, writes and reads back. A hash is the hashed value itself, so it is injective: a row's hash is the
  * whole chain up to it, a stage id is the content it was computed from. */
module ExecutionStage {
  import opened Wrappers

  datatype Stage = ReadOnly | Shadow | Paper | SignedTestnet | LiveAutonomous | LiveScaled

  function Rank(s: Stage): nat {
    match s
    case ReadOnly => 0
    case Shadow => 1
    case Paper => 2
    case SignedTestnet => 3
    case LiveAutonomous => 4
    case LiveScaled => 5
  }

  datatype Transition = Bootstrap | Climb | Rebind | Demote

  datatype Policy = Policy(version: string, safety: string)

  /** A completed signed testnet cycle: its id and the hash of its row. */
  datatype Cycle = Cycle(id: string, sha: string)

  datatype Evidence = Evidence(attestation: Option<string>, replacedStage: Option<Stage>,
                               replacedReason: Option<Reason>, cycle: Option<Cycle>)

  const NO_EVIDENCE := Evidence(None, None, None, None)

  /** What an ask binds. `ref` names the record it was asked against. */
  datatype Content = Content(transition: Transition, from: Option<Stage>, to: Stage, ref: Option<Record>,
                             policy: Policy, registrant: string, why: string, evidence: Evidence)

  datatype StageId =
    | OfContent(content: Content)
    | OfDemotion(stage: Stage, previous: Option<Stage>, effective: int, registrant: string, why: string,
                 approval: Option<string>, witnessId: Option<StageId>, policy: Option<Policy>, evidence: Evidence,
                 fromId: Option<StageId>)

  datatype Record = Record(id: StageId, stage: Stage, previous: Option<Stage>, transition: Transition, effective: int,
                           registrant: string, why: string, approval: Option<string>, witnessId: Option<StageId>,
                           policy: Option<Policy>, evidence: Evidence)

  datatype Reason =
    | RecordMissing | RecordUnreadable | RecordTampered | RecordInvalid | NotYetEffective | TransitionInvalid
    | PolicyUnreadable | PolicyVersionChanged | PolicySafetyChanged | ApprovalNotConsumed | WitnessMismatch
    | LedgerMissing | LedgerUnreadable | LedgerBroken | RolledBack | AnchorMissing | AnchorTampered | AnchorBehind

  /** Why a ledger does not even read as linked rows. */
  type Damage = r: Reason | r == LedgerUnreadable || r == LedgerBroken || r == RecordUnreadable || r == RecordTampered
                            || r == RecordInvalid witness LedgerBroken

  /** The ledger on disk: absent, damaged below the level of its rows, or rows whose hashes link. */
  datatype LedgerFile = NoLedger | Garbled(reason: Damage) | Rows(rows: seq<Record>)

  /** The anchor names a row, that is, the chain up to it. */
  datatype AnchorFile = NoAnchor | BadAnchor | Anchor(chain: seq<Record>)

  datatype MirrorFile = NoMirror | BadMirror | Mirror(record: Record)

  datatype Files = Files(ledger: LedgerFile, anchor: AnchorFile, mirror: MirrorFile)

  datatype ApprovalStatus = Pending | Approved | Rejected | Expired | Consumed

  datatype Consumption = Consumption(at: int, ref: StageId)

  datatype Approval = Approval(id: string, content: Content, expires: int, status: ApprovalStatus,
                               consumption: Option<Consumption>)

  /** What the door reads besides the stage files and the approvals: the running policy, the completed testnet cycles
    * with the hashes of their rows, the clock, and which characters `strip` removes. */
  datatype Env = Env(policy: Option<Policy>, cycles: map<string, string>, now: int, space: char -> bool)

  // ---------------------------------------------------------------------------------------------
  // Reading
  // ---------------------------------------------------------------------------------------------

  /** `ApprovalStore.get`: the store is append-only and the latest row of an id wins. */
  function Get(store: seq<Approval>, id: string): Option<Approval> {
    if store == [] then None
    else if store[|store| - 1].id == id then Some(store[|store| - 1]) else Get(store[..|store| - 1], id)
  }

  lemma {:induction false} GetAfterAppend(store: seq<Approval>, row: Approval, id: string)
    ensures Get(store + [row], id) == if row.id == id then Some(row) else Get(store, id)
    ensures Get(store, id).Some? ==> Get(store, id).value in store && Get(store, id).value.id == id
  {
    assert (store + [row])[..|store|] == store;
    if store != [] && store[|store| - 1].id != id {
      GetAfterAppend(store[..|store| - 1], row, id);
    }
  }

  predicate Continues(rows: seq<Record>, i: nat)
    requires i < |rows|
  {
    i == 0 || rows[i].transition == Bootstrap || rows[i].previous == Some(rows[i - 1].stage)
  }

  predicate OwnApproval(r: Record) {
    r.transition != Demote && r.approval.Some?
  }

  /** Every row continues the row before it, and no two approved rows name the same approval. */
  predicate Verifies(rows: seq<Record>) {
    && (forall i :: 0 <= i < |rows| ==> Continues(rows, i))
    && forall i, j :: 0 <= i < j < |rows| && OwnApproval(rows[i]) && OwnApproval(rows[j]) ==>
         rows[i].approval != rows[j].approval
  }

  /** The row loop of `read_ledger`. */
  method VerifyRows(rows: seq<Record>) returns (ok: bool)
    ensures ok <==> Verifies(rows)
  {
    var approvals: set<string> := {};
    for i := 0 to |rows|
      invariant forall j :: 0 <= j < i ==> Continues(rows, j)
      invariant forall a :: a in approvals ==>
                  exists j :: 0 <= j < i && OwnApproval(rows[j]) && rows[j].approval.value == a
      invariant forall j :: 0 <= j < i && OwnApproval(rows[j]) ==> rows[j].approval.value in approvals
      invariant Verifies(rows[..i])
    {
      assert rows[..i + 1][..i] == rows[..i];
      if i > 0 && rows[i].transition != Bootstrap && rows[i].previous != Some(rows[i - 1].stage) {
        assert !Continues(rows, i);
        return false;
      }
      ghost var upTo := rows[..i + 1];
      forall j | 0 <= j < |upTo| ensures Continues(upTo, j) {
        assert Continues(rows, j);
      }
      if rows[i].transition != Demote && rows[i].approval.Some? {
        if rows[i].approval.value in approvals {
          return false;
        }
        approvals := approvals + {rows[i].approval.value};
      }
    }
    assert rows[..|rows|] == rows;
    ok := true;
  }

  datatype Chain = Chain(rows: seq<Record>) | Refused(reason: Reason)

  /** `read_ledger`: no rows when there is no ledger. */
  function ReadLedger(l: LedgerFile): Chain {
    match l
    case NoLedger => Chain([])
    case Garbled(reason) => Refused(reason)
    case Rows(rows) =>
      if rows == [] then Refused(LedgerUnreadable) else if Verifies(rows) then Chain(rows) else Refused(LedgerBroken)
  }

  /** `_anchor_problem`: the row the anchor names must be on the chain, at most one row behind the tip. */
  function AnchorProblem(rows: seq<Record>, anchor: AnchorFile): Option<Reason> {
    match anchor
    case NoAnchor => Some(AnchorMissing)
    case BadAnchor => Some(AnchorTampered)
    case Anchor(chain) =>
      if chain == [] || !(chain <= rows) then Some(RolledBack)
      else if |rows| - |chain| > 1 then Some(AnchorBehind) else None
  }

  /** What the machine's stage is: `record` is what the file says, whether or not it binds. */
  datatype Status = Status(valid: bool, reason: Option<Reason>, present: bool, record: Option<Record>,
                           anchorBehind: bool)
  {
    function Recorded(): Option<Stage> {
      if record.None? then None else Some(record.value.stage)
    }

    /** The effective stage. */
    function Effective(): Stage {
      if valid && record.Some? then record.value.stage else ReadOnly
    }

    predicate Binding() {
      valid && Effective() != ReadOnly
    }
  }

  function Unbound(reason: Reason, record: Option<Record>, present: bool): Status {
    Status(false, Some(reason), present, record, false)
  }

  predicate Witnessed(r: Record) {
    r.approval.Some? && r.witnessId.Some?
  }

  predicate OwnWitness(r: Record) {
    Witnessed(r) && r.witnessId.value == r.id
  }

  /** `_transition_consistent`. */
  predicate TransitionConsistent(r: Record) {
    if r.transition == Bootstrap then
      r.previous.None? && (r.stage == Shadow || r.stage == Paper) && OwnWitness(r) && r.policy.Some?
      && r.evidence.attestation.Some?
    else if r.stage == LiveAutonomous && r.transition != Demote && r.evidence.cycle.None? then false
    else if r.transition == Climb then
      r.previous.Some? && r.previous.value != ReadOnly && Rank(r.stage) == Rank(r.previous.value) + 1 && OwnWitness(r)
      && r.policy.Some?
    else if r.transition == Rebind then
      r.previous == Some(r.stage) && r.stage != ReadOnly && OwnWitness(r) && r.policy.Some?
    else if r.stage == ReadOnly then
      r.previous != Some(ReadOnly) && r.approval.None? && r.witnessId.None?
    else
      r.previous.Some? && Rank(r.stage) < Rank(r.previous.value) && Witnessed(r) && !OwnWitness(r) && r.policy.Some?
  }

  /** `_witness_reason`: an approved record carries exactly what its spent approval was granted for; a demotion carries
    * the approval it descends from and sits strictly below it; a demotion to READ_ONLY needs none. */
  function WitnessReason(r: Record, store: seq<Approval>): Option<Reason> {
    if r.transition == Demote && r.stage == ReadOnly then None
    else if r.approval.None? || Get(store, r.approval.value).None? then Some(ApprovalNotConsumed)
    else
      var a := Get(store, r.approval.value).value;
      var c := a.content;
      if a.status != Consumed || a.consumption.None? || Some(a.consumption.value.ref) != r.witnessId then
        Some(ApprovalNotConsumed)
      else if r.witnessId != Some(OfContent(c)) then Some(WitnessMismatch)
      else if r.transition != Demote then
        if r.transition != c.transition || r.stage != c.to || r.policy != Some(c.policy) || r.registrant != c.registrant
           || r.why != c.why || r.evidence != c.evidence || r.previous != c.from
           || r.effective != a.consumption.value.at
        then Some(WitnessMismatch) else None
      else if c.transition == Demote || Rank(r.stage) >= Rank(c.to) || r.policy != Some(c.policy)
      then Some(WitnessMismatch) else None
  }

  function PolicyReason(r: Record, policy: Option<Policy>): Option<Reason> {
    if r.stage == ReadOnly then None
    else if policy.None? then Some(PolicyUnreadable)
    else if r.policy.None? || policy.value.version != r.policy.value.version then Some(PolicyVersionChanged)
    else if policy.value.safety != r.policy.value.safety then Some(PolicySafetyChanged)
    else None
  }

  /** `_resolve`. */
  function Resolve(files: Files, store: seq<Approval>, env: Env): Status {
    var chain := ReadLedger(files.ledger);
    if chain.Refused? then Unbound(chain.reason, None, true)
    else if chain.rows == [] then
      match files.mirror
      case NoMirror => Unbound(RecordMissing, None, false)
      case BadMirror => Unbound(LedgerMissing, None, true)
      case Mirror(r) => Unbound(LedgerMissing, Some(r), true)
    else
      var r := chain.rows[|chain.rows| - 1];
      var problem := AnchorProblem(chain.rows, files.anchor);
      if problem.Some? then Unbound(problem.value, Some(r), true)
      else if !TransitionConsistent(r) then Unbound(TransitionInvalid, Some(r), true)
      else if r.effective > env.now then Unbound(NotYetEffective, Some(r), true)
      else if WitnessReason(r, store).Some? then Unbound(WitnessReason(r, store).value, Some(r), true)
      else if PolicyReason(r, env.policy).Some? then Unbound(PolicyReason(r, env.policy).value, Some(r), true)
      else Status(true, None, true, Some(r), files.anchor.chain != chain.rows)
  }

  /** The record the files name, whatever the approvals, the policy and the clock say. */
  function Tip(files: Files): Option<Record> {
    match ReadLedger(files.ledger)
    case Refused(_) => None
    case Chain(rows) =>
      if rows != [] then Some(rows[|rows| - 1]) else if files.mirror.Mirror? then Some(files.mirror.record) else None
  }

  // ---------------------------------------------------------------------------------------------
  // Planning
  // ---------------------------------------------------------------------------------------------

  function StripLeft(s: string, space: char -> bool): string {
    if s != [] && space(s[0]) then StripLeft(s[1..], space) else s
  }

  function StripRight(s: string, space: char -> bool): string {
    if s != [] && space(s[|s| - 1]) then StripRight(s[..|s| - 1], space) else s
  }

  function Strip(s: string, space: char -> bool): string {
    StripRight(StripLeft(s, space), space)
  }

  function Clip(s: string, n: nat): string {
    if |s| > n then s[..n] else s
  }

  const WHY_LIMIT: nat := 600
  const ATTESTATION_LIMIT: nat := 2000
  const REGISTRANT_LIMIT: nat := 120
  const CYCLE_LIMIT: nat := 200

  datatype Refusal =
    | AnchorSyncRequired | Unnamed | AlreadyBinds | UseDemote | SkipRefused | NotDefined | AttestationRequired
    | RebindFirst | BootstrapOnlyShadowOrPaper | CycleRequired | CycleIncomplete | EvidenceNotApplicable
    | PolicyCannotBeRead | StageChanged | PolicyChangedSinceAsk | NotSchemaValid | NothingToDemote | NotLower
    | DemoteFromUnbound | NeedsBinding

  datatype Outcome<+T> = Ok(value: T) | No(refusal: Refusal)

  predicate Text(s: Option<string>, space: char -> bool) {
    s.Some? && Strip(s.value, space) != ""
  }

  predicate Rebindable(status: Status) {
    !status.valid && (status.reason == Some(PolicyVersionChanged) || status.reason == Some(PolicySafetyChanged))
  }

  /** Which transition the ladder allows, from which stage, and what the record replaces. */
  function Allowed(status: Status, target: Stage, attested: bool): Outcome<(Transition, Option<Stage>, Evidence)> {
    var recorded := status.Recorded();
    if status.Binding() then
      if target == recorded.value then No(AlreadyBinds)
      else if Rank(target) < Rank(recorded.value) then No(UseDemote)
      else if Rank(target) != Rank(recorded.value) + 1 then No(SkipRefused)
      else if target == LiveScaled then No(NotDefined)
      else Ok((Climb, recorded, NO_EVIDENCE))
    else if Rebindable(status) && recorded == Some(target) then
      Ok((Rebind, recorded, NO_EVIDENCE.(replacedReason := status.reason)))
    else if target == Shadow || target == Paper then
      if !attested then No(AttestationRequired)
      else if status.present && !(status.valid && recorded == Some(ReadOnly)) then
        Ok((Bootstrap, None, NO_EVIDENCE.(replacedStage := recorded, replacedReason := status.reason)))
      else Ok((Bootstrap, None, NO_EVIDENCE))
    else if Rebindable(status) then No(RebindFirst)
    else No(BootstrapOnlyShadowOrPaper)
  }

  /** The entry condition of the target rung, whatever the transition. */
  function RungEvidence(target: Stage, cycle: Option<string>, env: Env): Outcome<Option<Cycle>> {
    if target == LiveAutonomous then
      if !Text(cycle, env.space) then No(CycleRequired)
      else
        var id := Strip(cycle.value, env.space);
        if id in env.cycles then Ok(Some(Cycle(id, env.cycles[id]))) else No(CycleIncomplete)
    else if cycle.Some? then No(EvidenceNotApplicable)
    else Ok(None)
  }

  /** `plan_transition`. */
  function PlanTransition(status: Status, target: Stage, registrant: string, why: string, attestation: Option<string>,
                          cycle: Option<string>, env: Env): Outcome<Content> {
    if status.anchorBehind then No(AnchorSyncRequired)
    else if Strip(registrant, env.space) == "" || Strip(why, env.space) == "" then No(Unnamed)
    else
      var attested := Text(attestation, env.space);
      var allowed := Allowed(status, target, attested);
      if allowed.No? then No(allowed.refusal)
      else
        var rung := RungEvidence(target, cycle, env);
        if rung.No? then No(rung.refusal)
        else if env.policy.None? then No(PolicyCannotBeRead)
        else
          var (transition, from, replaced) := allowed.value;
          var words := if attested then Some(Clip(Strip(attestation.value, env.space), ATTESTATION_LIMIT)) else None;
          Ok(Content(transition, from, target, status.record, env.policy.value, Strip(registrant, env.space),
                     Clip(Strip(why, env.space), WHY_LIMIT), replaced.(attestation := words, cycle := rung.value)))
  }

  /** The length limits of the record's schema that text from outside can break. */
  predicate SchemaValid(r: Record) {
    |r.registrant| <= REGISTRANT_LIMIT && (r.evidence.cycle.Some? ==> |r.evidence.cycle.value.id| <= CYCLE_LIMIT)
  }

  function ApprovedRecord(c: Content, approval: string, now: int): Record {
    Record(OfContent(c), c.to, c.from, c.transition, now, c.registrant, c.why, Some(approval), Some(OfContent(c)),
           Some(c.policy), c.evidence)
  }

  function Replan(c: Content, status: Status, env: Env): Outcome<Content> {
    PlanTransition(status, c.to, c.registrant, c.why, c.evidence.attestation,
                   if c.evidence.cycle.Some? then Some(c.evidence.cycle.value.id) else None, env)
  }

  /** `record_from_approved`. */
  function RecordFromApproved(c: Content, status: Status, approval: string, env: Env): Outcome<Record> {
    if c.ref != status.record then No(StageChanged)
    else if env.policy != Some(c.policy) then No(PolicyChangedSinceAsk)
    else
      var again := Replan(c, status, env);
      if again.No? then No(again.refusal)
      else if again.value != c then No(StageChanged)
      else if !SchemaValid(ApprovedRecord(c, approval, env.now)) then No(NotSchemaValid)
      else Ok(ApprovedRecord(c, approval, env.now))
  }

  function DemotionTo(status: Status, target: Stage, previous: Option<Stage>, registrant: string, why: string,
                      approval: Option<string>, witnessId: Option<StageId>, policy: Option<Policy>, evidence: Evidence,
                      now: int): Record {
    var id := OfDemotion(target, previous, now, registrant, why, approval, witnessId, policy, evidence,
                         if status.record.Some? then Some(status.record.value.id) else None);
    Record(id, target, previous, Demote, now, registrant, why, approval, witnessId, policy, evidence)
  }

  /** `demote_record`. */
  function DemoteRecord(status: Status, target: Stage, registrant: string, why: string, env: Env): Outcome<Record> {
    var who, reason := Strip(registrant, env.space), Clip(Strip(why, env.space), WHY_LIMIT);
    if who == "" || Strip(why, env.space) == "" then No(Unnamed)
    else if target == ReadOnly then
      if !status.present then No(NothingToDemote)
      else if status.valid && status.Recorded() == Some(ReadOnly) then No(NotLower)
      else if |who| > REGISTRANT_LIMIT then No(NotSchemaValid)
      else
        Ok(DemotionTo(status, ReadOnly,
                      if status.Recorded() == Some(ReadOnly) then None else status.Recorded(), who, reason,
                      None, None, env.policy,
                      if status.valid then NO_EVIDENCE else NO_EVIDENCE.(replacedReason := status.reason), env.now))
    else if !status.Binding() then No(DemoteFromUnbound)
    else
      var r := status.record.value;
      if Rank(target) >= Rank(r.stage) then No(NotLower)
      else if |who| > REGISTRANT_LIMIT then No(NotSchemaValid)
      else Ok(DemotionTo(status, target, Some(r.stage), who, reason, r.approval, r.witnessId, r.policy, NO_EVIDENCE,
                         env.now))
  }

  // ---------------------------------------------------------------------------------------------
  // Writing
  // ---------------------------------------------------------------------------------------------

  /** `_chain_to_extend`: an anchor behind the tip still vouches. */
  function ChainToExtend(files: Files): Option<seq<Record>> {
    match ReadLedger(files.ledger)
    case Refused(_) => None
    case Chain(rows) =>
      if rows == [] || !files.anchor.Anchor? || AnchorProblem(rows, files.anchor) == Some(RolledBack) then None
      else Some(rows)
  }

  predicate MayStartChain(r: Record) {
    r.transition == Bootstrap || (r.transition == Demote && r.stage == ReadOnly)
  }

  /** `assert_appendable`. */
  predicate Appendable(r: Record, files: Files) {
    ChainToExtend(files).Some? || MayStartChain(r)
  }

  /** The chain a record becomes the tip of. */
  function Extended(r: Record, files: Files): seq<Record> {
    var chain := ChainToExtend(files);
    if chain.Some? then chain.value + [r] else [r]
  }

  /** `write` of the row: the one write that changes the stage. */
  function WithRow(r: Record, files: Files): Files {
    files.(ledger := Rows(Extended(r, files)))
  }

  /** The anchor names the tip. */
  function WithAnchor(files: Files): Files {
    if files.ledger.Rows? then files.(anchor := Anchor(files.ledger.rows)) else files
  }

  // ---------------------------------------------------------------------------------------------
  // The ladder
  // ---------------------------------------------------------------------------------------------

  /** What a record may be when `tip` is the record it was written over. */
  predicate LadderRule(r: Record, tip: Option<Record>) {
    match r.transition
    case Climb => tip.Some? && tip.value.stage != ReadOnly && Rank(r.stage) == Rank(tip.value.stage) + 1
                  && r.stage != LiveScaled && r.previous == Some(tip.value.stage)
                  && (r.stage == LiveAutonomous ==> r.evidence.cycle.Some?)
    case Rebind => tip.Some? && r.stage == tip.value.stage && r.stage != ReadOnly && r.previous == Some(r.stage)
                   && (r.stage == LiveAutonomous ==> r.evidence.cycle.Some?)
    case Bootstrap => (r.stage == Shadow || r.stage == Paper) && r.previous.None? && r.evidence.attestation.Some?
    case Demote =>
      && r.evidence.cycle.None?
      && if r.stage == ReadOnly then
           r.approval.None? && r.witnessId.None?
           && r.previous == if tip.Some? && tip.value.stage != ReadOnly then Some(tip.value.stage) else None
         else
           tip.Some? && Rank(r.stage) < Rank(tip.value.stage) && r.previous == Some(tip.value.stage)
           && r.approval == tip.value.approval && r.witnessId == tip.value.witnessId && r.policy == tip.value.policy
  }

  /** Every record names who registered it and why. */
  predicate Signed(r: Record) {
    r.registrant != "" && r.why != ""
  }

  /** An approved record is bound to the record it was asked against. */
  predicate AskedOver(r: Record, tip: Option<Record>) {
    r.transition != Demote ==> r.id.OfContent? && r.id.content.ref == tip && r.witnessId == Some(r.id)
  }

  lemma ApprovedFollowsLadder(c: Content, status: Status, approval: string, env: Env, files: Files,
                              store: seq<Approval>)
    requires status == Resolve(files, store, env)
    requires RecordFromApproved(c, status, approval, env).Ok?
    ensures var r := RecordFromApproved(c, status, approval, env).value;
            && LadderRule(r, status.record) && AskedOver(r, status.record) && Signed(r)
            && r.transition != Demote && r.approval == Some(approval) && r.policy == env.policy
  {
  }

  lemma DemotionFollowsLadder(status: Status, target: Stage, registrant: string, why: string, env: Env)
    requires DemoteRecord(status, target, registrant, why, env).Ok?
    ensures var r := DemoteRecord(status, target, registrant, why, env).value;
            LadderRule(r, status.record) && AskedOver(r, status.record) && Signed(r) && r.transition == Demote
            && r.stage == target
  {
  }

  // ---------------------------------------------------------------------------------------------
  // What was asked can be confirmed
  // ---------------------------------------------------------------------------------------------

  predicate Trimmed(s: string, space: char -> bool) {
    s == [] || (!space(s[0]) && !space(s[|s| - 1]))
  }

  lemma {:induction false} StripLeftFirst(s: string, space: char -> bool)
    ensures var t := StripLeft(s, space); t == [] || !space(t[0])
  {
    if s != [] && space(s[0]) {
      StripLeftFirst(s[1..], space);
    }
  }

  lemma {:induction false} StripRightEnds(s: string, space: char -> bool)
    requires s == [] || !space(s[0])
    ensures Trimmed(StripRight(s, space), space)
  {
    if s != [] && space(s[|s| - 1]) {
      StripRightEnds(s[..|s| - 1], space);
    }
  }

  lemma StripTrims(s: string, space: char -> bool)
    ensures Trimmed(Strip(s, space), space)
  {
    StripLeftFirst(s, space);
    StripRightEnds(StripLeft(s, space), space);
  }

  lemma TrimmedIsStripped(s: string, space: char -> bool)
    ensures Strip(s, space) == s <==> Trimmed(s, space)
  {
    StripTrims(s, space);
  }

  /** The text, stripped, fits the limit, or its last kept character is not one `strip` removes. */
  predicate CutsClean(s: string, limit: nat, space: char -> bool)
    requires limit > 0
  {
    var t := Strip(s, space);
    |t| <= limit || !space(t[limit - 1])
  }

  lemma ClipStaysStripped(s: string, limit: nat, space: char -> bool)
    requires limit > 0
    ensures var t := Clip(Strip(s, space), limit);
            && (Strip(t, space) == t <==> CutsClean(s, limit, space))
            && (Clip(Strip(t, space), limit) == t <==> CutsClean(s, limit, space))
            && (Strip(t, space) == "" <==> Strip(s, space) == "")
  {
    var whole := Strip(s, space);
    var t := Clip(whole, limit);
    StripTrims(s, space);
    TrimmedIsStripped(t, space);
    StripShorter(t, space);
    if whole != "" {
      assert !space(t[0]);
      StripKeepsFirst(t, space);
    }
  }

  lemma {:induction false} StripRightShorter(s: string, space: char -> bool)
    ensures |StripRight(s, space)| <= |s|
  {
    if s != [] && space(s[|s| - 1]) {
      StripRightShorter(s[..|s| - 1], space);
    }
  }

  lemma {:induction false} StripLeftShorter(s: string, space: char -> bool)
    ensures |StripLeft(s, space)| <= |s|
  {
    if s != [] && space(s[0]) {
      StripLeftShorter(s[1..], space);
    }
  }

  lemma StripShorter(s: string, space: char -> bool)
    ensures |Strip(s, space)| <= |s|
  {
    StripLeftShorter(s, space);
    StripRightShorter(StripLeft(s, space), space);
  }

  lemma {:induction false} StripKeepsFirst(s: string, space: char -> bool)
    requires s != [] && !space(s[0])
    ensures Strip(s, space) != []
    decreases |s|
  {
    if |s| > 1 && space(s[|s| - 1]) {
      StripKeepsFirst(s[..|s| - 1], space);
    }
  }

  /** The words an ask carries into the record survive the second planning. */
  predicate Confirmable(registrant: string, why: string, attestation: Option<string>, cycle: Option<string>, env: Env) {
    && |Strip(registrant, env.space)| <= REGISTRANT_LIMIT
    && CutsClean(why, WHY_LIMIT, env.space)
    && (Text(attestation, env.space) ==> CutsClean(attestation.value, ATTESTATION_LIMIT, env.space))
    && (cycle.Some? ==> |Strip(cycle.value, env.space)| <= CYCLE_LIMIT)
  }

  lemma WordsAgain(s: Option<string>, limit: nat, space: char -> bool)
    requires limit > 0 && Text(s, space)
    ensures var t := Some(Clip(Strip(s.value, space), limit));
            Text(t, space) && (Clip(Strip(t.value, space), limit) == t.value <==> CutsClean(s.value, limit, space))
  {
    ClipStaysStripped(s.value, limit, space);
  }

  lemma StripTwice(s: string, space: char -> bool)
    ensures Strip(Strip(s, space), space) == Strip(s, space)
  {
    StripTrims(s, space);
    TrimmedIsStripped(Strip(s, space), space);
  }

  lemma RungAgain(target: Stage, cycle: Option<string>, env: Env)
    requires RungEvidence(target, cycle, env).Ok?
    ensures var found := RungEvidence(target, cycle, env).value;
            RungEvidence(target, if found.Some? then Some(found.value.id) else None, env) == Ok(found)
    ensures RungEvidence(target, cycle, env).value.Some? <==> cycle.Some?
    ensures cycle.Some? ==> RungEvidence(target, cycle, env).value.value.id == Strip(cycle.value, env.space)
  {
    if cycle.Some? {
      StripTwice(cycle.value, env.space);
    }
  }

  /** On an unchanged machine the second planning gives the content back, exactly when no text was cut at a character
    * that `strip` removes. */
  lemma PlanAgain(status: Status, target: Stage, registrant: string, why: string, attestation: Option<string>,
                  cycle: Option<string>, env: Env)
    requires PlanTransition(status, target, registrant, why, attestation, cycle, env).Ok?
    ensures var c := PlanTransition(status, target, registrant, why, attestation, cycle, env).value;
            Replan(c, status, env) == Ok(c) <==>
            && CutsClean(why, WHY_LIMIT, env.space)
            && (Text(attestation, env.space) ==> CutsClean(attestation.value, ATTESTATION_LIMIT, env.space))
  {
    var c := PlanTransition(status, target, registrant, why, attestation, cycle, env).value;
    StripTwice(registrant, env.space);
    ClipStaysStripped(why, WHY_LIMIT, env.space);
    RungAgain(target, cycle, env);
    if Text(attestation, env.space) {
      WordsAgain(attestation, ATTESTATION_LIMIT, env.space);
      assert Text(c.evidence.attestation, env.space);
    } else {
      assert c.evidence.attestation == None;
    }
    assert Allowed(status, target, Text(c.evidence.attestation, env.space))
           == Allowed(status, target, Text(attestation, env.space));
  }

  /** What was asked for can be confirmed against the same stage record and policy, exactly when its texts fit: an ask
    * whose reason is cut at 600 characters right after a space is refused as if the stage had changed, always. */
  lemma AskThenConfirm(status: Status, target: Stage, registrant: string, why: string, attestation: Option<string>,
                       cycle: Option<string>, approval: string, env: Env)
    requires PlanTransition(status, target, registrant, why, attestation, cycle, env).Ok?
    ensures var c := PlanTransition(status, target, registrant, why, attestation, cycle, env).value;
            RecordFromApproved(c, status, approval, env).Ok? <==> Confirmable(registrant, why, attestation, cycle, env)
  {
    PlanAgain(status, target, registrant, why, attestation, cycle, env);
    RungAgain(target, cycle, env);
  }

  /** Five hundred and ninety-nine characters, a space, and one more. */
  const LONG_WHY := seq(599, _ => 'a') + " b"

  /** Such an ask exists: SHADOW asked for on a fresh machine, with that reason. */
  lemma LongReasonIsNeverConfirmed(space: char -> bool, approval: string, policy: Policy, now: int)
    requires forall c :: space(c) <==> c == ' '
    ensures var status, env := Unbound(RecordMissing, None, false), Env(Some(policy), map[], now, space);
            var plan := PlanTransition(status, Shadow, "thomas", LONG_WHY, Some("seen"), None, env);
            plan.Ok? && RecordFromApproved(plan.value, status, approval, env) == No(StageChanged)
  {
    var status, env := Unbound(RecordMissing, None, false), Env(Some(policy), map[], now, space);
    TrimmedIsStripped("thomas", space);
    TrimmedIsStripped("seen", space);
    assert |LONG_WHY| == 601 && LONG_WHY[0] == 'a' && LONG_WHY[599] == ' ' && LONG_WHY[600] == 'b';
    TrimmedIsStripped(LONG_WHY, space);
    var plan := PlanTransition(status, Shadow, "thomas", LONG_WHY, Some("seen"), None, env);
    assert !CutsClean(LONG_WHY, WHY_LIMIT, space);
    ClipStaysStripped(LONG_WHY, WHY_LIMIT, space);
    var again := Replan(plan.value, status, env);
    assert plan.value.why == Clip(LONG_WHY, WHY_LIMIT) && again.Ok?
           && again.value.why == Clip(Strip(plan.value.why, space), WHY_LIMIT);
  }

  // ---------------------------------------------------------------------------------------------
  // What was written reads back
  // ---------------------------------------------------------------------------------------------

  /** The approval is not yet the own approval of a row of the chain. */
  ghost predicate FreshFor(r: Record, files: Files) {
    var chain := ChainToExtend(files);
    OwnApproval(r) && chain.Some? ==>
      forall i :: 0 <= i < |chain.value| && OwnApproval(chain.value[i]) ==> chain.value[i].approval != r.approval
  }

  /** A second demotion to READ_ONLY over a READ_ONLY tip that does not bind: its record names no previous stage. */
  ghost predicate StopOverStop(r: Record, files: Files) {
    && r.transition == Demote && r.stage == ReadOnly && ChainToExtend(files).Some?
    && Tip(files).Some? && Tip(files).value.stage == ReadOnly
  }

  /** An appended record leaves a chain that verifies, except for a stop written over a stop: it extends the chain
    * without continuing it, and the whole ledger reads broken from then on. */
  lemma AppendKeepsChain(r: Record, files: Files)
    requires LadderRule(r, Tip(files)) && FreshFor(r, files) && Appendable(r, files)
    ensures ReadLedger(WithRow(r, files).ledger) ==
            if StopOverStop(r, files) then Refused(LedgerBroken) else Chain(Extended(r, files))
  {
    var chain := ChainToExtend(files);
    var rows := Extended(r, files);
    if chain.Some? {
      var n := |chain.value|;
      assert rows[..n] == chain.value && rows[n] == r && rows[n - 1] == Tip(files).value;
      forall i | 0 <= i < n ensures Continues(rows, i) {
        assert Continues(chain.value, i);
      }
      assert StopOverStop(r, files) <==> !Continues(rows, n);
      if !StopOverStop(r, files) {
        assert Verifies(rows);
      }
    } else {
      assert Continues(rows, 0);
    }
  }

  /** The row that marks the approval spent on `r`. */
  function SpentRow(a: Approval, r: Record, now: int): Approval {
    a.(status := Consumed, consumption := Some(Consumption(now, r.id)))
  }

  /** A confirmed record, once its row and anchor are written, is the stage the machine reads; without the anchor it
    * is so exactly when the anchor named the row before it. */
  lemma ConfirmReadsBack(a: Approval, status: Status, env: Env, files: Files, store: seq<Approval>)
    requires status == Resolve(files, store, env) && Get(store, a.id) == Some(a)
    requires RecordFromApproved(a.content, status, a.id, env).Ok?
    requires var r := RecordFromApproved(a.content, status, a.id, env).value; Appendable(r, files) && FreshFor(r, files)
    ensures var r := RecordFromApproved(a.content, status, a.id, env).value;
            var spent := store + [SpentRow(a, r, env.now)];
            && Resolve(WithAnchor(WithRow(r, files)), spent, env) == Status(true, None, true, Some(r), false)
            && (ChainToExtend(files).Some? ==>
                  (Resolve(WithRow(r, files), spent, env).valid <==> files.anchor.chain == ChainToExtend(files).value))
  {
    var r := RecordFromApproved(a.content, status, a.id, env).value;
    ConfirmedStands(a, status, env, files, store);
    ApprovedFollowsLadder(a.content, status, a.id, env, files, store);
    AppendKeepsChain(r, files);
    AnchoredReadsBack(r, files, store + [SpentRow(a, r, env.now)], env);
    UnanchoredReadsBack(r, files, store + [SpentRow(a, r, env.now)], env);
  }

  lemma ConfirmedStands(a: Approval, status: Status, env: Env, files: Files, store: seq<Approval>)
    requires status == Resolve(files, store, env) && RecordFromApproved(a.content, status, a.id, env).Ok?
    ensures var r := RecordFromApproved(a.content, status, a.id, env).value;
            Stands(r, store + [SpentRow(a, r, env.now)], env)
  {
    var r := RecordFromApproved(a.content, status, a.id, env).value;
    GetAfterAppend(store, SpentRow(a, r, env.now), a.id);
    ApprovedFollowsLadder(a.content, status, a.id, env, files, store);
  }

  /** Nothing but the ledger and the anchor can keep the record from binding. */
  predicate Stands(r: Record, store: seq<Approval>, env: Env) {
    TransitionConsistent(r) && r.effective <= env.now && WitnessReason(r, store).None?
    && PolicyReason(r, env.policy).None?
  }

  /** Once its row and its anchor are written, such a record is the stage the machine reads. */
  lemma AnchoredReadsBack(r: Record, files: Files, store: seq<Approval>, env: Env)
    requires ReadLedger(WithRow(r, files).ledger) == Chain(Extended(r, files)) && Stands(r, store, env)
    ensures Resolve(WithAnchor(WithRow(r, files)), store, env) == Status(true, None, true, Some(r), false)
  {
    var rows := Extended(r, files);
    assert rows[|rows| - 1] == r && AnchorProblem(rows, Anchor(rows)) == None;
  }

  /** Without the anchor it is, exactly when the anchor named the row before it. */
  lemma UnanchoredReadsBack(r: Record, files: Files, store: seq<Approval>, env: Env)
    requires ReadLedger(WithRow(r, files).ledger) == Chain(Extended(r, files)) && Stands(r, store, env)
    ensures ChainToExtend(files).Some? ==>
              (Resolve(WithRow(r, files), store, env).valid <==> files.anchor.chain == ChainToExtend(files).value)
  {
    var rows := Extended(r, files);
    if ChainToExtend(files).Some? {
      assert rows[|rows| - 1] == r;
      assert files.anchor.chain <= ChainToExtend(files).value;
      assert files.anchor.chain <= rows;
    }
  }

  /** A climb binds even when its anchor write is lost: it waits for the anchor to have caught up before. */
  lemma ClimbOutlivesAnchor(a: Approval, status: Status, env: Env, files: Files, store: seq<Approval>)
    requires status == Resolve(files, store, env) && Get(store, a.id) == Some(a) && a.content.transition == Climb
    requires RecordFromApproved(a.content, status, a.id, env).Ok?
    requires FreshFor(RecordFromApproved(a.content, status, a.id, env).value, files)
    ensures var r := RecordFromApproved(a.content, status, a.id, env).value;
            Resolve(WithRow(r, files), store + [SpentRow(a, r, env.now)], env).Effective() == r.stage
  {
    var again := Replan(a.content, status, env);
    assert again.Ok? && !status.anchorBehind && status.Binding();
    assert ChainToExtend(files).Some? && files.anchor.chain == ChainToExtend(files).value;
    ConfirmReadsBack(a, status, env, files, store);
    ClimbedStatus(a, status, env, files, store);
  }

  lemma ClimbedStatus(a: Approval, status: Status, env: Env, files: Files, store: seq<Approval>)
    requires RecordFromApproved(a.content, status, a.id, env).Ok? && ChainToExtend(files).Some?
    ensures var r := RecordFromApproved(a.content, status, a.id, env).value;
            var after := Resolve(WithRow(r, files), store + [SpentRow(a, r, env.now)], env);
            after.valid ==> after.Effective() == r.stage
  {
    var r := RecordFromApproved(a.content, status, a.id, env).value;
    assert Extended(r, files)[|Extended(r, files)| - 1] == r;
  }

  /** A demotion, once its row and anchor are written, is the stage the machine reads. To READ_ONLY it always reads
    * READ_ONLY; it binds unless it is a stop over a stop, after which the ledger no longer verifies. */
  lemma DemotionReadsBack(status: Status, target: Stage, registrant: string, why: string, env: Env, files: Files,
                          store: seq<Approval>)
    requires status == Resolve(files, store, env)
    requires DemoteRecord(status, target, registrant, why, env).Ok?
    ensures var r := DemoteRecord(status, target, registrant, why, env).value;
            var after := Resolve(WithAnchor(WithRow(r, files)), store, env);
            && Appendable(r, files) && after.Effective() == target
            && (StopOverStop(r, files) ==> after == Unbound(LedgerBroken, None, true))
            && (!StopOverStop(r, files) ==> after == Status(true, None, true, Some(r), false))
  {
    var r := DemoteRecord(status, target, registrant, why, env).value;
    DemotionFollowsLadder(status, target, registrant, why, env);
    DemotedStands(status, target, registrant, why, env, files, store);
    AppendKeepsChain(r, files);
    if !StopOverStop(r, files) {
      AnchoredReadsBack(r, files, store, env);
    }
  }

  lemma DemotedStands(status: Status, target: Stage, registrant: string, why: string, env: Env, files: Files,
                      store: seq<Approval>)
    requires status == Resolve(files, store, env) && DemoteRecord(status, target, registrant, why, env).Ok?
    ensures var r := DemoteRecord(status, target, registrant, why, env).value;
            Appendable(r, files) && Stands(r, store, env)
  {
    var r := DemoteRecord(status, target, registrant, why, env).value;
    if target != ReadOnly {
      LoweredStands(status, target, registrant, why, env, files, store);
    }
  }

  lemma LoweredStands(status: Status, target: Stage, registrant: string, why: string, env: Env, files: Files,
                      store: seq<Approval>)
    requires status == Resolve(files, store, env) && DemoteRecord(status, target, registrant, why, env).Ok?
    requires target != ReadOnly
    ensures var r := DemoteRecord(status, target, registrant, why, env).value;
            Appendable(r, files) && Stands(r, store, env)
  {
    var r := DemoteRecord(status, target, registrant, why, env).value;
    assert WitnessReason(status.record.value, store) == None;
    assert WitnessReason(r, store) == None;
    assert ChainToExtend(files).Some?;
  }

  /** The stop over a stop happens: over a READ_ONLY tip whose last two anchor writes were lost, a stop asked for
    * again. */
  lemma StopOverStopBreaksLedger(rows: seq<Record>, registrant: string, why: string, store: seq<Approval>, env: Env)
    requires |rows| > 2 && Verifies(rows) && rows[|rows| - 1].stage == ReadOnly
    requires 0 < |Strip(registrant, env.space)| <= REGISTRANT_LIMIT && Strip(why, env.space) != ""
    ensures var files := Files(Rows(rows), Anchor(rows[..|rows| - 2]), NoMirror);
            var status := Resolve(files, store, env);
            var again := DemoteRecord(status, ReadOnly, registrant, why, env);
            && status.reason == Some(AnchorBehind) && again.Ok? && again.value.previous == None
            && Resolve(WithAnchor(WithRow(again.value, files)), store, env) == Unbound(LedgerBroken, None, true)
  {
    var files := Files(Rows(rows), Anchor(rows[..|rows| - 2]), NoMirror);
    var status := Resolve(files, store, env);
    assert rows[..|rows| - 2] <= rows;
    DemotionReadsBack(status, ReadOnly, registrant, why, env, files, store);
  }

  // ---------------------------------------------------------------------------------------------
  // Re-anchoring
  // ---------------------------------------------------------------------------------------------

  /** `sync_anchor`: re-anchors the verified tip, unless the anchor is missing, damaged or names a row off the chain. */
  function SyncAnchor(files: Files): Option<Files> {
    var chain := ChainToExtend(files);
    if chain.None? then None else Some(files.(anchor := Anchor(chain.value)))
  }

  /** It moves no row, keeps a binding stage, and gives a stage back only where the anchor had fallen behind. */
  lemma SyncKeepsStage(files: Files, store: seq<Approval>, env: Env)
    requires SyncAnchor(files).Some?
    ensures var before, after := Resolve(files, store, env), Resolve(SyncAnchor(files).value, store, env);
            && after.record == before.record && !after.anchorBehind && SyncAnchor(files).value.ledger == files.ledger
            && (before.valid ==> after.valid)
            && (after.valid && !before.valid ==> before.reason == Some(AnchorBehind))
  {
  }

  /** Everything that makes a tip bind above READ_ONLY holds of it, the anchor apart. */
  predicate BindsButForAnchor(tip: Record, store: seq<Approval>, env: Env) {
    tip.stage != ReadOnly && Stands(tip, store, env)
  }

  /** Re-anchoring changes the stage the machine reads exactly when the anchor is more than one row behind a tip that
    * otherwise binds above READ_ONLY; the stage it then reads is the tip's. */
  lemma SyncChangesStageExactly(files: Files, store: seq<Approval>, env: Env)
    requires SyncAnchor(files).Some?
    ensures var before, after := Resolve(files, store, env), Resolve(SyncAnchor(files).value, store, env);
            && Tip(files).Some?
            && (after.Effective() != before.Effective() <==>
                  before.reason == Some(AnchorBehind) && BindsButForAnchor(Tip(files).value, store, env))
            && (after.Effective() != before.Effective() ==>
                before.Effective() == ReadOnly && after.Effective() == Tip(files).value.stage)
  {
    var rows := ChainToExtend(files).value;
    assert AnchorProblem(rows, Anchor(rows)) == None;
  }

  /** A climb and then a demotion above READ_ONLY, both without their anchor writes. */
  ghost predicate TwoAnchorsLost(a: Approval, target: Stage, registrant: string, why: string, env: Env, files: Files,
                                 store: seq<Approval>) {
    var climb := RecordFromApproved(a.content, Resolve(files, store, env), a.id, env);
    && Get(store, a.id) == Some(a) && a.content.transition == Climb && climb.Ok? && target != ReadOnly
    && FreshFor(climb.value, files)
    && var climbed, spent := WithRow(climb.value, files), store + [SpentRow(a, climb.value, env.now)];
       DemoteRecord(Resolve(climbed, spent, env), target, registrant, why, env).Ok?
  }

  /** The machine then reads READ_ONLY, and a re-anchoring brings the demoted stage back. */
  lemma SyncBringsStageBack(a: Approval, target: Stage, registrant: string, why: string, env: Env, files: Files,
                            store: seq<Approval>)
    requires TwoAnchorsLost(a, target, registrant, why, env, files, store)
    ensures var climb := RecordFromApproved(a.content, Resolve(files, store, env), a.id, env).value;
            var climbed, spent := WithRow(climb, files), store + [SpentRow(a, climb, env.now)];
            var demoted := WithRow(DemoteRecord(Resolve(climbed, spent, env), target, registrant, why, env).value,
                                   climbed);
            && Resolve(demoted, spent, env).reason == Some(AnchorBehind)
            && Resolve(demoted, spent, env).Effective() == ReadOnly
            && SyncAnchor(demoted).Some? && Resolve(SyncAnchor(demoted).value, spent, env).Effective() == target
  {
    var status := Resolve(files, store, env);
    var climb := RecordFromApproved(a.content, status, a.id, env).value;
    var climbed, spent := WithRow(climb, files), store + [SpentRow(a, climb, env.now)];
    ClimbOutlivesAnchor(a, status, env, files, store);
    ClimbExtends(a, status, env, files, store);
    DemotedTwoBehind(climbed, spent, target, registrant, why, env);
  }

  /** A climb without its anchor leaves the anchor at the row before it. */
  lemma ClimbExtends(a: Approval, status: Status, env: Env, files: Files, store: seq<Approval>)
    requires status == Resolve(files, store, env) && a.content.transition == Climb
    requires RecordFromApproved(a.content, status, a.id, env).Ok?
    requires FreshFor(RecordFromApproved(a.content, status, a.id, env).value, files)
    ensures var climbed := WithRow(RecordFromApproved(a.content, status, a.id, env).value, files);
            && climbed.ledger.Rows? && ReadLedger(climbed.ledger) == Chain(climbed.ledger.rows)
            && |climbed.ledger.rows| > 1
            && climbed.anchor == Anchor(climbed.ledger.rows[..|climbed.ledger.rows| - 1])
  {
    var r := RecordFromApproved(a.content, status, a.id, env).value;
    ApprovedFollowsLadder(a.content, status, a.id, env, files, store);
    var again := Replan(a.content, status, env);
    assert again.Ok? && !status.anchorBehind && status.Binding();
    var rows := ChainToExtend(files).value;
    AppendKeepsChain(r, files);
    assert (rows + [r])[..|rows|] == rows;
  }

  lemma DemotedTwoBehind(files: Files, store: seq<Approval>, target: Stage, registrant: string, why: string, env: Env)
    requires files.ledger.Rows? && |files.ledger.rows| > 1 && ReadLedger(files.ledger) == Chain(files.ledger.rows)
    requires files.anchor == Anchor(files.ledger.rows[..|files.ledger.rows| - 1])
    requires DemoteRecord(Resolve(files, store, env), target, registrant, why, env).Ok? && target != ReadOnly
    ensures var demoted := WithRow(DemoteRecord(Resolve(files, store, env), target, registrant, why, env).value, files);
            && Resolve(demoted, store, env).reason == Some(AnchorBehind)
            && Resolve(demoted, store, env).Effective() == ReadOnly
            && SyncAnchor(demoted).Some? && Resolve(SyncAnchor(demoted).value, store, env).Effective() == target
  {
    var status := Resolve(files, store, env);
    var r := DemoteRecord(status, target, registrant, why, env).value;
    var rows, before := files.ledger.rows, files.ledger.rows[..|files.ledger.rows| - 1];
    assert before <= rows && before <= rows + [r];
    assert ChainToExtend(files) == Some(rows);
    DemotionFollowsLadder(status, target, registrant, why, env);
    DemotionReadsBack(status, target, registrant, why, env, files, store);
    AppendKeepsChain(r, files);
    var demoted := WithRow(r, files);
    assert SyncAnchor(demoted) == Some(WithAnchor(demoted));
  }

  const SAMPLE_POLICY := Policy("v1", "safe")
  const SAMPLE_START := Content(Bootstrap, None, Paper, None, SAMPLE_POLICY, "thomas", "start",
                                NO_EVIDENCE.(attestation := Some("seen")))
  const SAMPLE_UP := Content(Climb, Some(Paper), SignedTestnet, Some(ApprovedRecord(SAMPLE_START, "a", 0)),
                             SAMPLE_POLICY, "thomas", "up", NO_EVIDENCE)

  const SAMPLE_FIRST := ApprovedRecord(SAMPLE_START, "a", 0)
  const SAMPLE_FILES := Files(Rows([SAMPLE_FIRST]), Anchor([SAMPLE_FIRST]), NoMirror)
  const SAMPLE_ASKED := Approval("b", SAMPLE_UP, 9, Approved, None)
  const SAMPLE_STORE := [Approval("a", SAMPLE_START, 9, Consumed, Some(Consumption(0, SAMPLE_FIRST.id))), SAMPLE_ASKED]

  lemma SampleBinds(env: Env)
    requires env.policy == Some(SAMPLE_POLICY) && env.now == 1
    ensures Resolve(SAMPLE_FILES, SAMPLE_STORE, env) == Status(true, None, true, Some(SAMPLE_FIRST), false)
    ensures Get(SAMPLE_STORE, "b") == Some(SAMPLE_ASKED)
  {
    var first := SAMPLE_STORE[0];
    assert SAMPLE_STORE[..1] == [first] && Get([first], "a") == Some(first);
    assert Get(SAMPLE_STORE, "b") == Some(SAMPLE_ASKED) && Get(SAMPLE_STORE, "a") == Some(first);
  }

  /** Such a machine exists: PAPER, bootstrapped and anchored; a climb to SIGNED_TESTNET approved; a demotion to
    * PAPER. */
  lemma SyncBringsPaperBack(space: char -> bool)
    requires forall c :: space(c) <==> c == ' '
    ensures TwoAnchorsLost(SAMPLE_ASKED, Paper, "thomas", "down", Env(Some(SAMPLE_POLICY), map[], 1, space),
                           SAMPLE_FILES, SAMPLE_STORE)
  {
    var env := Env(Some(SAMPLE_POLICY), map[], 1, space);
    WordsStay(space);
    SampleBinds(env);
    var status := Resolve(SAMPLE_FILES, SAMPLE_STORE, env);
    assert Replan(SAMPLE_UP, status, env) == Ok(SAMPLE_UP);
    assert RecordFromApproved(SAMPLE_UP, status, "b", env) == Ok(ApprovedRecord(SAMPLE_UP, "b", 1));
    ClimbOutlivesAnchor(SAMPLE_ASKED, status, env, SAMPLE_FILES, SAMPLE_STORE);
  }

  lemma WordsStay(space: char -> bool)
    requires forall c :: space(c) <==> c == ' '
    ensures Strip("thomas", space) == "thomas" && Strip("up", space) == "up" && Strip("down", space) == "down"
  {
    TrimmedIsStripped("thomas", space);
    TrimmedIsStripped("up", space);
    TrimmedIsStripped("down", space);
  }

  // ---------------------------------------------------------------------------------------------
  // What can be planned, exactly
  // ---------------------------------------------------------------------------------------------

  /** The rung above. */
  predicate NextRung(a: Stage, b: Stage) {
    || (a == ReadOnly && b == Shadow) || (a == Shadow && b == Paper) || (a == Paper && b == SignedTestnet)
    || (a == SignedTestnet && b == LiveAutonomous) || (a == LiveAutonomous && b == LiveScaled)
  }

  /** A rung below. */
  predicate Below(a: Stage, b: Stage) {
    match b
    case ReadOnly => false
    case Shadow => a == ReadOnly
    case Paper => a == ReadOnly || a == Shadow
    case SignedTestnet => a == ReadOnly || a == Shadow || a == Paper
    case LiveAutonomous => a != LiveAutonomous && a != LiveScaled
    case LiveScaled => a != LiveScaled
  }

  lemma RanksAre(a: Stage, b: Stage)
    ensures Rank(b) == Rank(a) + 1 <==> NextRung(a, b)
    ensures Rank(a) < Rank(b) <==> Below(a, b)
  {
  }

  /** `Strip` takes off exactly the leading and the trailing characters it is told to. */
  lemma StripExactly(s: string, space: char -> bool)
    ensures exists a, b :: 0 <= a <= b <= |s| && Strip(s, space) == s[a..b] && Surrounded(s, a, b, space)
  {
    var a := LeftEnd(s, space);
    var n := RightEnd(s[a..], space);
    assert s[a..][..n] == s[a..a + n];
    if n > 0 {
      assert StripLeft(s, space) == s[a..];
    }
    assert Surrounded(s, a, a + n, space);
  }

  /** Outside `a..b` everything is stripped, and `a..b` neither starts nor ends with such a character. */
  ghost predicate Surrounded(s: string, a: nat, b: nat, space: char -> bool)
    requires a <= b <= |s|
  {
    && (forall i :: 0 <= i < a || b <= i < |s| ==> space(s[i]))
    && (a < b ==> !space(s[a]) && !space(s[b - 1]))
  }

  lemma {:induction false} LeftEnd(s: string, space: char -> bool) returns (a: nat)
    ensures a <= |s| && StripLeft(s, space) == s[a..] && (forall i :: 0 <= i < a ==> space(s[i]))
    ensures a < |s| ==> !space(s[a])
  {
    if s != [] && space(s[0]) {
      var b := LeftEnd(s[1..], space);
      a := b + 1;
      assert s[1..][b..] == s[a..];
      assert forall i :: 1 <= i < a ==> s[i] == s[1..][i - 1];
    } else {
      a := 0;
    }
  }

  lemma {:induction false} RightEnd(s: string, space: char -> bool) returns (n: nat)
    ensures n <= |s| && StripRight(s, space) == s[..n] && (forall i :: n <= i < |s| ==> space(s[i]))
    ensures n > 0 ==> !space(s[n - 1])
  {
    if s != [] && space(s[|s| - 1]) {
      n := RightEnd(s[..|s| - 1], space);
      assert s[..|s| - 1][..n] == s[..n];
    } else {
      n := |s|;
    }
  }

  /** Some character is not stripped. */
  ghost predicate SaysSomething(s: string, space: char -> bool) {
    exists i :: 0 <= i < |s| && !space(s[i])
  }

  lemma StripEmpty(s: string, space: char -> bool)
    ensures Strip(s, space) != "" <==> SaysSomething(s, space)
  {
    StripExactly(s, space);
    var a, b :| 0 <= a <= b <= |s| && Strip(s, space) == s[a..b] && Surrounded(s, a, b, space);
    if a < b {
      assert !space(s[a]);
    }
  }

  /** A demotion is planned exactly when it names who and why, within the limit, and: to READ_ONLY, there is a
    * record, whatever its state, that is not a valid READ_ONLY one; to another rung, the recorded stage binds and is
    * above it. */
  lemma DemoteExactly(status: Status, target: Stage, registrant: string, why: string, env: Env)
    ensures DemoteRecord(status, target, registrant, why, env).Ok? <==>
            && SaysSomething(registrant, env.space) && SaysSomething(why, env.space)
            && |Strip(registrant, env.space)| <= REGISTRANT_LIMIT
            && (if target == ReadOnly then status.present && !(status.valid && RecordedAs(status, ReadOnly))
                else status.valid && status.record.Some? && status.record.value.stage != ReadOnly
                     && Below(target, status.record.value.stage))
  {
    StripEmpty(registrant, env.space);
    StripEmpty(why, env.space);
    if status.record.Some? {
      RanksAre(target, status.record.value.stage);
    }
  }

  predicate RecordedAs(status: Status, stage: Stage) {
    status.record.Some? && status.record.value.stage == stage
  }

  /** Why one is refused, in the order of the checks. */
  lemma DemoteRefusals(status: Status, target: Stage, registrant: string, why: string, env: Env)
    ensures var r := DemoteRecord(status, target, registrant, why, env);
            var named := SaysSomething(registrant, env.space) && SaysSomething(why, env.space);
            && (r == No(Unnamed) <==> !named)
            && (r == No(NothingToDemote) <==> named && target == ReadOnly && !status.present)
            && (r == No(DemoteFromUnbound) <==>
                  named && target != ReadOnly
                  && !(status.valid && status.record.Some? && status.record.value.stage != ReadOnly))
            && (r == No(NotLower) ==> status.valid && status.record.Some? && !Below(target, status.record.value.stage))
  {
    StripEmpty(registrant, env.space);
    StripEmpty(why, env.space);
    if status.record.Some? {
      RanksAre(target, status.record.value.stage);
    }
  }

  /** What a demotion writes: nothing of its own but the move, its author and its time. */
  lemma DemoteWrites(status: Status, target: Stage, registrant: string, why: string, env: Env)
    requires DemoteRecord(status, target, registrant, why, env).Ok?
    ensures var r := DemoteRecord(status, target, registrant, why, env).value;
            && r.stage == target && r.transition == Demote && r.effective == env.now && r.evidence.cycle.None?
            && r.registrant == Strip(registrant, env.space) && r.why <= Strip(why, env.space)
            && (r.why == Strip(why, env.space) || |r.why| == WHY_LIMIT < |Strip(why, env.space)|)
            && r.evidence.attestation.None? && r.evidence.replacedStage.None?
            && r.evidence.replacedReason == (if target == ReadOnly && !status.valid then status.reason else None)
            && (target == ReadOnly ==>
                  && r.approval.None? && r.witnessId.None? && r.policy == env.policy
                  && r.previous == if status.record.Some? && status.record.value.stage != ReadOnly
                                   then Some(status.record.value.stage) else None)
            && (target != ReadOnly ==>
                  var from := status.record.value;
                  r.previous == Some(from.stage) && r.approval == from.approval && r.witnessId == from.witnessId
                  && r.policy == from.policy)
  {
  }

  /** What an ask may be planned for. */
  ghost predicate MayPlan(status: Status, target: Stage, attested: bool) {
    || (status.valid && status.record.Some? && status.record.value.stage != ReadOnly
        && NextRung(status.record.value.stage, target) && target != LiveScaled)
    || (PolicyMoved(status) && RecordedAs(status, target))
    || (!(status.valid && status.record.Some? && status.record.value.stage != ReadOnly)
        && (target == Shadow || target == Paper) && attested)
  }

  /** The record does not bind because the policy moved on. */
  predicate PolicyMoved(status: Status) {
    !status.valid && (status.reason == Some(PolicyVersionChanged) || status.reason == Some(PolicySafetyChanged))
  }

  ghost predicate AttestedBy(attestation: Option<string>, space: char -> bool) {
    attestation.Some? && SaysSomething(attestation.value, space)
  }

  /** The target's own entry condition: LIVE_AUTONOMOUS on a completed testnet cycle, the others on none. */
  ghost predicate EntryHolds(target: Stage, cycle: Option<string>, env: Env) {
    if target == LiveAutonomous then
      cycle.Some? && SaysSomething(cycle.value, env.space) && Strip(cycle.value, env.space) in env.cycles
    else cycle.None?
  }

  /** A transition is planned exactly when the anchor names the tip, it names who and why, the policy can be read, the
    * entry condition of its target holds, and: the recorded stage binds and the target is the next rung up; or the
    * policy moved and the target is the recorded stage; or nothing above READ_ONLY binds and the target is SHADOW or
    * PAPER, with an attestation. */
  lemma PlanExactly(status: Status, target: Stage, registrant: string, why: string, attestation: Option<string>,
                    cycle: Option<string>, env: Env)
    ensures PlanTransition(status, target, registrant, why, attestation, cycle, env).Ok? <==>
            && !status.anchorBehind && SaysSomething(registrant, env.space) && SaysSomething(why, env.space)
            && env.policy.Some? && EntryHolds(target, cycle, env)
            && MayPlan(status, target, AttestedBy(attestation, env.space))
  {
    StripEmpty(registrant, env.space);
    StripEmpty(why, env.space);
    if attestation.Some? {
      StripEmpty(attestation.value, env.space);
    }
    if cycle.Some? {
      StripEmpty(cycle.value, env.space);
    }
    AllowedExactly(status, target, Text(attestation, env.space));
  }

  lemma AllowedExactly(status: Status, target: Stage, attested: bool)
    ensures Allowed(status, target, attested).Ok? <==> MayPlan(status, target, attested)
  {
    if status.record.Some? {
      RanksAre(status.record.value.stage, target);
      RanksAre(target, status.record.value.stage);
    }
  }

  /** What is planned: the content an ask binds. */
  lemma PlanWrites(status: Status, target: Stage, registrant: string, why: string, attestation: Option<string>,
                   cycle: Option<string>, env: Env)
    requires PlanTransition(status, target, registrant, why, attestation, cycle, env).Ok?
    ensures var c := PlanTransition(status, target, registrant, why, attestation, cycle, env).value;
            && c.to == target && c.ref == status.record && Some(c.policy) == env.policy
            && c.registrant == Strip(registrant, env.space) && c.why <= Strip(why, env.space)
            && (c.why == Strip(why, env.space) || |c.why| == WHY_LIMIT < |Strip(why, env.space)|)
            && (c.transition == Climb <==> status.valid && status.record.Some? && status.record.value.stage != ReadOnly)
            && (c.transition == Rebind <==> PolicyMoved(status) && RecordedAs(status, target))
            && c.transition != Demote
            && c.from == (if c.transition == Bootstrap then None else Some(status.record.value.stage))
            && (c.evidence.cycle.Some? <==> target == LiveAutonomous)
            && (target == LiveAutonomous ==>
                  var id := Strip(cycle.value, env.space); c.evidence.cycle == Some(Cycle(id, env.cycles[id])))
            && (c.evidence.attestation.Some? <==> AttestedBy(attestation, env.space))
            && (c.evidence.attestation.Some? ==>
                  var t, full := c.evidence.attestation.value, Strip(attestation.value, env.space);
                  t <= full && (t == full || |t| == ATTESTATION_LIMIT < |full|))
            && (c.evidence.replacedStage.Some? <==>
                  c.transition == Bootstrap && Replaces(status) && status.record.Some?)
            && (c.evidence.replacedStage.Some? ==> RecordedAs(status, c.evidence.replacedStage.value))
            && c.evidence.replacedReason
               == (if c.transition == Rebind || (c.transition == Bootstrap && Replaces(status)) then status.reason
                   else None)
  {
    if attestation.Some? {
      StripEmpty(attestation.value, env.space);
    }
  }

  /** There is a record that is not a valid READ_ONLY one: a bootstrap says what it replaces. */
  predicate Replaces(status: Status) {
    status.present && !(status.valid && RecordedAs(status, ReadOnly))
  }

  /** Why an ask is refused once the anchor names the tip and it says who and why, in the order of the checks. */
  lemma PlanRefusals(status: Status, target: Stage, registrant: string, why: string, attestation: Option<string>,
                     cycle: Option<string>, env: Env)
    requires !status.anchorBehind && SaysSomething(registrant, env.space) && SaysSomething(why, env.space)
    ensures var r := PlanTransition(status, target, registrant, why, attestation, cycle, env);
            var binds := status.valid && status.record.Some? && status.record.value.stage != ReadOnly;
            var low, moved := target == Shadow || target == Paper, PolicyMoved(status);
            var may := MayPlan(status, target, AttestedBy(attestation, env.space));
            && (r == No(AlreadyBinds) <==> binds && target == status.record.value.stage)
            && (r == No(UseDemote) <==> binds && Below(target, status.record.value.stage))
            && (r == No(SkipRefused) <==>
                  binds && Below(status.record.value.stage, target) && !NextRung(status.record.value.stage, target))
            && (r == No(NotDefined) <==>
                  binds && NextRung(status.record.value.stage, target) && target == LiveScaled)
            && (r == No(AttestationRequired) <==>
                  !binds && low && !AttestedBy(attestation, env.space) && !(moved && RecordedAs(status, target)))
            && (r == No(RebindFirst) <==> !binds && !low && moved && !RecordedAs(status, target))
            && (r == No(BootstrapOnlyShadowOrPaper) <==> !binds && !low && !moved)
            && (r == No(CycleRequired) <==> may && target == LiveAutonomous && !AttestedBy(cycle, env.space))
            && (r == No(CycleIncomplete) <==>
                  may && target == LiveAutonomous && AttestedBy(cycle, env.space)
                  && Strip(cycle.value, env.space) !in env.cycles)
            && (r == No(EvidenceNotApplicable) <==> may && target != LiveAutonomous && cycle.Some?)
            && (r == No(PolicyCannotBeRead) <==> may && EntryHolds(target, cycle, env) && env.policy.None?)
  {
    StripEmpty(registrant, env.space);
    StripEmpty(why, env.space);
    if attestation.Some? {
      StripEmpty(attestation.value, env.space);
    }
    if cycle.Some? {
      StripEmpty(cycle.value, env.space);
    }
    AllowedExactly(status, target, AttestedBy(attestation, env.space));
    AllowedRefusals(status, target, AttestedBy(attestation, env.space));
  }

  lemma AllowedRefusals(status: Status, target: Stage, attested: bool)
    ensures var r := Allowed(status, target, attested);
            var binds := status.valid && status.record.Some? && status.record.value.stage != ReadOnly;
            var low, moved := target == Shadow || target == Paper, PolicyMoved(status);
            r.No? ==>
              && (r.refusal == AlreadyBinds <==> binds && target == status.record.value.stage)
              && (r.refusal == UseDemote <==> binds && Below(target, status.record.value.stage))
              && (r.refusal == SkipRefused <==>
                    binds && Below(status.record.value.stage, target) && !NextRung(status.record.value.stage, target))
              && (r.refusal == NotDefined <==>
                    binds && NextRung(status.record.value.stage, target) && target == LiveScaled)
              && (r.refusal == AttestationRequired <==>
                    !binds && low && !attested && !(moved && RecordedAs(status, target)))
              && (r.refusal == RebindFirst <==> !binds && !low && moved && !RecordedAs(status, target))
              && (r.refusal == BootstrapOnlyShadowOrPaper <==> !binds && !low && !moved)
              && !(r.refusal in {CycleRequired, CycleIncomplete, EvidenceNotApplicable, PolicyCannotBeRead})
  {
    if status.record.Some? {
      RanksAre(status.record.value.stage, target);
      RanksAre(target, status.record.value.stage);
    }
  }

  /** An approved content becomes a record exactly when the record it was asked over and the policy are still the same,
    * planning again gives the same content, and the texts fit the record; the record then carries the content. */
  lemma RecordExactly(c: Content, status: Status, approval: string, env: Env)
    ensures var r := RecordFromApproved(c, status, approval, env);
            && (r.Ok? <==>
                  && c.ref == status.record && env.policy == Some(c.policy)
                  && PlanTransition(status, c.to, c.registrant, c.why, c.evidence.attestation,
                                    if c.evidence.cycle.Some? then Some(c.evidence.cycle.value.id) else None, env)
                     == Ok(c)
                  && |c.registrant| <= REGISTRANT_LIMIT
                  && (c.evidence.cycle.Some? ==> |c.evidence.cycle.value.id| <= CYCLE_LIMIT))
            && (r.Ok? ==> Carries(r.value, c, approval) && r.value.effective == env.now)
  {
  }

  /** The record says what the content says. */
  predicate Carries(r: Record, c: Content, approval: string) {
    && r.id == OfContent(c) && r.witnessId == Some(r.id) && r.approval == Some(approval)
    && r.stage == c.to && r.previous == c.from && r.transition == c.transition && r.registrant == c.registrant
    && r.why == c.why && r.policy == Some(c.policy) && r.evidence == c.evidence
  }

  // ---------------------------------------------------------------------------------------------
  // What binds, exactly
  // ---------------------------------------------------------------------------------------------

  /** The move a record claims is one the ladder has. */
  predicate MoveHolds(r: Record) {
    match r.transition
    case Bootstrap =>
      r.previous.None? && (r.stage == Shadow || r.stage == Paper) && r.evidence.attestation.Some?
      && OwnWords(r)
    case Climb =>
      r.previous.Some? && r.previous != Some(ReadOnly) && NextRung(r.previous.value, r.stage)
      && (r.stage == LiveAutonomous ==> r.evidence.cycle.Some?) && OwnWords(r)
    case Rebind =>
      r.previous == Some(r.stage) && r.stage != ReadOnly
      && (r.stage == LiveAutonomous ==> r.evidence.cycle.Some?) && OwnWords(r)
    case Demote =>
      if r.stage == ReadOnly then r.previous != Some(ReadOnly) && r.approval.None? && r.witnessId.None?
      else r.previous.Some? && Below(r.stage, r.previous.value) && r.approval.Some? && r.witnessId.Some?
           && r.witnessId != Some(r.id) && r.policy.Some?
  }

  /** It names its own approval, and its policy. */
  predicate OwnWords(r: Record) {
    r.approval.Some? && r.witnessId == Some(r.id) && r.policy.Some?
  }

  /** The spent approval the record stands on. */
  ghost predicate StandsOn(r: Record, a: Approval) {
    && a.status == Consumed && a.consumption.Some? && r.witnessId == Some(a.consumption.value.ref)
    && r.witnessId == Some(OfContent(a.content))
    && if r.transition != Demote then
         && r.stage == a.content.to && r.previous == a.content.from && r.transition == a.content.transition
         && r.registrant == a.content.registrant && r.why == a.content.why && r.policy == Some(a.content.policy)
         && r.evidence == a.content.evidence && r.effective == a.consumption.value.at
       else a.content.transition != Demote && Below(r.stage, a.content.to) && r.policy == Some(a.content.policy)
  }

  /** A stop needs no approval; any other record stands on the latest row of its own. */
  ghost predicate Witness(r: Record, store: seq<Approval>) {
    || (r.transition == Demote && r.stage == ReadOnly)
    || (r.approval.Some? && Get(store, r.approval.value).Some? && StandsOn(r, Get(store, r.approval.value).value))
  }

  /** The ledger's rows are a chain, and the anchor names its tip or the row before it. */
  ghost predicate Vouched(files: Files) {
    && files.ledger.Rows? && files.ledger.rows != [] && Verifies(files.ledger.rows) && files.anchor.Anchor?
    && files.anchor.chain != [] && files.anchor.chain <= files.ledger.rows
    && |files.ledger.rows| <= |files.anchor.chain| + 1
  }

  lemma ConsistentExactly(r: Record)
    ensures TransitionConsistent(r) <==> MoveHolds(r)
  {
    if r.previous.Some? {
      RanksAre(r.previous.value, r.stage);
      RanksAre(r.stage, r.previous.value);
    }
  }

  lemma WitnessExactly(r: Record, store: seq<Approval>)
    ensures WitnessReason(r, store).None? <==> Witness(r, store)
  {
    if r.approval.Some? && Get(store, r.approval.value).Some? {
      RanksAre(r.stage, Get(store, r.approval.value).value.content.to);
    }
  }

  /** A stage record is valid exactly when the chain is vouched for, the tip's move is one the ladder has, its time has
    * come, it stands on its approval, and above READ_ONLY the policy is the running one. */
  lemma ValidExactly(files: Files, store: seq<Approval>, env: Env)
    ensures var s := Resolve(files, store, env);
            s.valid <==>
              && Vouched(files)
              && var r := files.ledger.rows[|files.ledger.rows| - 1];
                 && MoveHolds(r) && r.effective <= env.now && Witness(r, store)
                 && (r.stage != ReadOnly ==> env.policy.Some? && r.policy == env.policy)
                 && s.record == Some(r)
                 && (s.anchorBehind <==> |files.anchor.chain| < |files.ledger.rows|)
  {
    if files.ledger.Rows? && files.ledger.rows != [] {
      var r := files.ledger.rows[|files.ledger.rows| - 1];
      ConsistentExactly(r);
      WitnessExactly(r, store);
    }
  }

  /** It can be rebound exactly when all of that holds but the policy, which can be read and is another one. */
  lemma PolicyMovedExactly(files: Files, store: seq<Approval>, env: Env)
    ensures PolicyMoved(Resolve(files, store, env)) <==>
              && Vouched(files)
              && var r := files.ledger.rows[|files.ledger.rows| - 1];
                 && MoveHolds(r) && r.effective <= env.now && Witness(r, store)
                 && r.stage != ReadOnly && env.policy.Some? && r.policy != env.policy
  {
    if files.ledger.Rows? && files.ledger.rows != [] {
      var r := files.ledger.rows[|files.ledger.rows| - 1];
      ConsistentExactly(r);
      WitnessExactly(r, store);
    }
  }

  /** A chain can be extended exactly when its rows verify and the anchor names one of them. */
  lemma ExtendsExactly(files: Files, chain: seq<Record>)
    ensures ChainToExtend(files) == Some(chain) <==>
            && files.ledger == Rows(chain) && chain != [] && Verifies(chain)
            && files.anchor.Anchor? && files.anchor.chain != [] && files.anchor.chain <= chain
  {
  }

  /** A record may be written over these files exactly when it extends such a chain or may start one: a bootstrap, or a
    * stop. */
  lemma AppendableExactly(r: Record, files: Files)
    ensures Appendable(r, files) <==>
            || r.transition == Bootstrap || (r.transition == Demote && r.stage == ReadOnly)
            || (files.ledger.Rows? && files.ledger.rows != [] && Verifies(files.ledger.rows) && files.anchor.Anchor?
                && files.anchor.chain != [] && files.anchor.chain <= files.ledger.rows)
  {
    if files.ledger.Rows? {
      ExtendsExactly(files, files.ledger.rows);
    }
  }

  /** What keeps the files from naming a stage that binds: check `k` of the reader, in its order, fails with `x`. */
  ghost predicate Spoils(files: Files, store: seq<Approval>, env: Env, k: nat, x: Reason) {
    || (k == 0 && files.ledger.Garbled? && x == files.ledger.reason)
    || (k == 1 && files.ledger == Rows([]) && x == LedgerUnreadable)
    || (k == 2 && files.ledger.Rows? && !Verifies(files.ledger.rows) && x == LedgerBroken)
    || (k == 3 && files.ledger.NoLedger? && files.mirror.NoMirror? && x == RecordMissing)
    || (k == 4 && files.ledger.NoLedger? && !files.mirror.NoMirror? && x == LedgerMissing)
    || (files.ledger.Rows? && files.ledger.rows != []
        && (SpoilsAnchor(files.ledger.rows, files.anchor, k, x)
            || SpoilsRecord(files.ledger.rows[|files.ledger.rows| - 1], store, env, k, x)))
  }

  ghost predicate SpoilsAnchor(rows: seq<Record>, anchor: AnchorFile, k: nat, x: Reason) {
    || (k == 5 && anchor.NoAnchor? && x == AnchorMissing)
    || (k == 6 && anchor.BadAnchor? && x == AnchorTampered)
    || (k == 7 && anchor.Anchor? && !([] < anchor.chain <= rows) && x == RolledBack)
    || (k == 8 && anchor.Anchor? && |anchor.chain| + 1 < |rows| && x == AnchorBehind)
  }

  ghost predicate SpoilsRecord(r: Record, store: seq<Approval>, env: Env, k: nat, x: Reason) {
    || (k == 9 && !MoveHolds(r) && x == TransitionInvalid)
    || (k == 10 && r.effective > env.now && x == NotYetEffective)
    || (k == 11 && !(r.transition == Demote && r.stage == ReadOnly) && !Spent(r, store) && x == ApprovalNotConsumed)
    || (k == 12 && !Witness(r, store) && x == WitnessMismatch)
    || (k == 13 && r.stage != ReadOnly && env.policy.None? && x == PolicyUnreadable)
    || (k == 14 && r.stage != ReadOnly && env.policy.Some? && x == PolicyVersionChanged
        && (r.policy.None? || r.policy.value.version != env.policy.value.version))
    || (k == 15 && r.stage != ReadOnly && env.policy.Some? && r.policy != env.policy && x == PolicySafetyChanged)
  }

  /** The newest row of its approval was spent on the record it names. */
  ghost predicate Spent(r: Record, store: seq<Approval>) {
    r.approval.Some? && Get(store, r.approval.value).Some?
    && var a := Get(store, r.approval.value).value;
       a.status == Consumed && a.consumption.Some? && r.witnessId == Some(a.consumption.value.ref)
  }

  /** The check that fails first; 16 when none does. */
  ghost function FirstSpoiled(files: Files, store: seq<Approval>, env: Env): nat {
    match files.ledger
    case Garbled(_) => 0
    case NoLedger => if files.mirror.NoMirror? then 3 else 4
    case Rows(rows) =>
      if rows == [] then 1 else if !Verifies(rows) then 2
      else if AnchorProblem(rows, files.anchor).Some? then FirstAnchor(rows, files.anchor)
      else FirstRecord(rows[|rows| - 1], store, env)
  }

  ghost function FirstAnchor(rows: seq<Record>, anchor: AnchorFile): nat {
    if anchor.NoAnchor? then 5 else if anchor.BadAnchor? then 6 else if !([] < anchor.chain <= rows) then 7 else 8
  }

  ghost function FirstRecord(r: Record, store: seq<Approval>, env: Env): nat {
    if !MoveHolds(r) then 9 else if r.effective > env.now then 10
    else if !(r.transition == Demote && r.stage == ReadOnly) && !Spent(r, store) then 11
    else if !Witness(r, store) then 12
    else if r.stage == ReadOnly then 16
    else if env.policy.None? then 13
    else if r.policy.None? || r.policy.value.version != env.policy.value.version then 14
    else if r.policy != env.policy then 15 else 16
  }

  lemma RecordSpoils(r: Record, store: seq<Approval>, env: Env)
    ensures var k := FirstRecord(r, store, env);
            var why := if !TransitionConsistent(r) then Some(TransitionInvalid)
                       else if r.effective > env.now then Some(NotYetEffective)
                       else if WitnessReason(r, store).Some? then WitnessReason(r, store)
                       else PolicyReason(r, env.policy);
            && (why.None? <==> k == 16) && (why.Some? ==> SpoilsRecord(r, store, env, k, why.value))
            && forall i: nat, x :: i < k ==> !SpoilsRecord(r, store, env, i, x)
  {
    ConsistentExactly(r);
    WitnessExactly(r, store);
    SpentExactly(r, store);
  }

  lemma SpentExactly(r: Record, store: seq<Approval>)
    ensures WitnessReason(r, store) == Some(ApprovalNotConsumed) <==>
            !(r.transition == Demote && r.stage == ReadOnly) && !Spent(r, store)
    ensures WitnessReason(r, store).Some? ==>
              WitnessReason(r, store) == Some(ApprovalNotConsumed) || WitnessReason(r, store) == Some(WitnessMismatch)
  {
  }

  lemma AnchorSpoils(rows: seq<Record>, anchor: AnchorFile)
    ensures var k := FirstAnchor(rows, anchor);
            && (AnchorProblem(rows, anchor).Some? ==> SpoilsAnchor(rows, anchor, k, AnchorProblem(rows, anchor).value))
            && (AnchorProblem(rows, anchor).Some? ==> forall i: nat, x :: i < k ==> !SpoilsAnchor(rows, anchor, i, x))
            && (AnchorProblem(rows, anchor).None? ==> forall i: nat, x :: !SpoilsAnchor(rows, anchor, i, x))
  {
  }

  lemma RowsSpoil(files: Files, store: seq<Approval>, env: Env)
    requires files.ledger.Rows? && files.ledger.rows != [] && Verifies(files.ledger.rows)
    ensures var s, k := Resolve(files, store, env), FirstSpoiled(files, store, env);
            && (s.reason.None? <==> k == 16) && (s.reason.Some? ==> Spoils(files, store, env, k, s.reason.value))
            && forall i, x :: 0 <= i < k ==> !Spoils(files, store, env, i, x)
  {
    var rows := files.ledger.rows;
    var r := rows[|rows| - 1];
    RecordSpoils(r, store, env);
    AnchorSpoils(rows, files.anchor);
    forall i: nat, x | i < 9 ensures !SpoilsRecord(r, store, env, i, x) {
      OneRecordReason(r, store, env, i, x, x);
    }
  }

  lemma FirstSpoils(files: Files, store: seq<Approval>, env: Env)
    ensures var s, k := Resolve(files, store, env), FirstSpoiled(files, store, env);
            && (s.reason.None? <==> k == 16) && (s.reason.Some? ==> Spoils(files, store, env, k, s.reason.value))
            && forall i, x :: 0 <= i < k ==> !Spoils(files, store, env, i, x)
  {
    if files.ledger.Rows? && files.ledger.rows != [] {
      if Verifies(files.ledger.rows) {
        RowsSpoil(files, store, env);
      } else {
        LateChecks(files, store, env);
      }
    }
  }

  lemma LateChecks(files: Files, store: seq<Approval>, env: Env)
    requires files.ledger.Rows? && files.ledger.rows != []
    ensures forall i: nat, x :: i < 2 ==> !Spoils(files, store, env, i, x)
  {
    var rows := files.ledger.rows;
    forall i: nat, x | i < 2 ensures !Spoils(files, store, env, i, x) {
      OneAnchorReason(rows, files.anchor, i, x, x);
      OneRecordReason(rows[|rows| - 1], store, env, i, x, x);
    }
  }

  /** Why a machine reads READ_ONLY where nothing binds: the first check of the reader that fails. */
  lemma ReasonExactly(files: Files, store: seq<Approval>, env: Env, x: Reason)
    ensures Resolve(files, store, env).reason == Some(x) <==>
            exists k :: 0 <= k < 16 && Spoils(files, store, env, k, x)
                        && forall i, y :: 0 <= i < k ==> !Spoils(files, store, env, i, y)
  {
    FirstSpoils(files, store, env);
    var first := FirstSpoiled(files, store, env);
    if k :| 0 <= k < 16 && Spoils(files, store, env, k, x)
            && forall i, y :: 0 <= i < k ==> !Spoils(files, store, env, i, y) {
      if first < 16 {
        assert Spoils(files, store, env, first, Resolve(files, store, env).reason.value);
      }
      assert k == first;
      OneReason(files, store, env, k, x, Resolve(files, store, env).reason.value);
    }
  }

  lemma OneReason(files: Files, store: seq<Approval>, env: Env, k: nat, x: Reason, y: Reason)
    requires Spoils(files, store, env, k, x) && Spoils(files, store, env, k, y)
    ensures x == y
  {
    if k >= 5 {
      var rows := files.ledger.rows;
      var r := rows[|rows| - 1];
      OneAnchorReason(rows, files.anchor, k, x, y);
      OneRecordReason(r, store, env, k, x, y);
      if k >= 9 {
        assert SpoilsRecord(r, store, env, k, x) && SpoilsRecord(r, store, env, k, y);
      } else {
        assert SpoilsAnchor(rows, files.anchor, k, x) && SpoilsAnchor(rows, files.anchor, k, y);
      }
    }
  }

  lemma OneAnchorReason(rows: seq<Record>, anchor: AnchorFile, k: nat, x: Reason, y: Reason)
    ensures SpoilsAnchor(rows, anchor, k, x) ==> 5 <= k < 9
    ensures SpoilsAnchor(rows, anchor, k, y) ==> 5 <= k < 9
    ensures SpoilsAnchor(rows, anchor, k, x) && SpoilsAnchor(rows, anchor, k, y) ==> x == y
  {
  }

  lemma OneRecordReason(r: Record, store: seq<Approval>, env: Env, k: nat, x: Reason, y: Reason)
    ensures SpoilsRecord(r, store, env, k, x) ==> k >= 9
    ensures SpoilsRecord(r, store, env, k, y) ==> k >= 9
    ensures SpoilsRecord(r, store, env, k, x) && SpoilsRecord(r, store, env, k, y) ==> x == y
  {
  }

  /** Whatever binds, a record is there unless neither a ledger nor a mirror is, and it is the tip of a ledger that
    * verifies or, without a ledger, the mirror's. */
  lemma RecordedExactly(files: Files, store: seq<Approval>, env: Env)
    ensures var s := Resolve(files, store, env);
            && (s.present <==> files.ledger != NoLedger || files.mirror != NoMirror)
            && (s.record.Some? <==>
                  || (files.ledger.Rows? && files.ledger.rows != [] && Verifies(files.ledger.rows))
                  || (files.ledger == NoLedger && files.mirror.Mirror?))
            && (s.record.Some? ==>
                  s.record.value == if files.ledger.Rows? then files.ledger.rows[|files.ledger.rows| - 1]
                                    else files.mirror.record)
            && (s.valid <==> s.reason.None?)
  {
  }

  // ---------------------------------------------------------------------------------------------
  // What binds was approved
  // ---------------------------------------------------------------------------------------------

  /** A content an ask may hold: never a demotion, never LIVE_SCALED, and LIVE_AUTONOMOUS only on a testnet cycle. */
  predicate SoundContent(c: Content) {
    c.transition != Demote && c.to != LiveScaled && (c.to == LiveAutonomous ==> c.evidence.cycle.Some?)
  }

  predicate SoundStore(store: seq<Approval>) {
    forall i :: 0 <= i < |store| ==> SoundContent(store[i].content)
  }

  /** Whatever the files hold, a stage above READ_ONLY binds only on a spent approval at that stage or above, granted
    * for the running policy. */
  lemma BindingIsApproved(files: Files, store: seq<Approval>, env: Env)
    requires Resolve(files, store, env).Binding()
    ensures var r := Resolve(files, store, env).record.value;
            && r.approval.Some? && Get(store, r.approval.value).Some?
            && var a := Get(store, r.approval.value).value;
               && a.status == Consumed && a.content.transition != Demote && Some(a.content.policy) == env.policy
               && (if r.transition == Demote then Rank(r.stage) < Rank(a.content.to)
                   else r.stage == a.content.to && r.evidence == a.content.evidence
                        && r.effective == a.consumption.value.at)
  {
  }

  /** Over a store of sound contents nothing binds LIVE_SCALED, and LIVE_AUTONOMOUS stands on a named testnet cycle,
    * even over files put there by hand. */
  lemma NothingBindsUnproven(files: Files, store: seq<Approval>, env: Env)
    requires SoundStore(store) && Resolve(files, store, env).Binding()
    ensures var r := Resolve(files, store, env).record.value;
            && r.stage != LiveScaled
            && (r.stage == LiveAutonomous ==> r.transition != Demote && r.evidence.cycle.Some?)
  {
    var r := Resolve(files, store, env).record.value;
    BindingIsApproved(files, store, env);
    var a := Get(store, r.approval.value).value;
    GetAfterAppend(store, a, r.approval.value);
    assert SoundContent(a.content);
  }

  /** What is planned from such a store is sound again. */
  lemma PlanIsSound(files: Files, store: seq<Approval>, target: Stage, registrant: string, why: string,
                    attestation: Option<string>, cycle: Option<string>, env: Env)
    requires SoundStore(store)
    requires PlanTransition(Resolve(files, store, env), target, registrant, why, attestation, cycle, env).Ok?
    ensures var c := PlanTransition(Resolve(files, store, env), target, registrant, why, attestation, cycle, env).value;
            SoundContent(c) && (c.to == LiveAutonomous ==> c.evidence.cycle.value.id in env.cycles)
  {
    var status := Resolve(files, store, env);
    var c := PlanTransition(status, target, registrant, why, attestation, cycle, env).value;
    if c.transition == Rebind {
      var r := status.record.value;
      assert WitnessReason(r, store) == None;
      var a := Get(store, r.approval.value).value;
      GetAfterAppend(store, a, r.approval.value);
      assert SoundContent(a.content);
    }
  }
}
