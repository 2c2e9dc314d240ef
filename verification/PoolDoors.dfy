/** runtime/mvp_runtime/crypto/pool_state.py and live_tier.py: the doors that write the active pool file: promotion
  * (read without the lock, install under it with the digest of what was read), disarm, lifecycle moves and the
  * history import, interleaved in any order. */
module PoolDoors {
  import opened Wrappers
  import opened StrategyPool

  /** The pool file's content; its digest is the content itself, and `None` is no file. */
  datatype Pool = Pool(entries: seq<Entry>, updatedBy: string, updatedAt: string)

  // ---------------------------------------------------------------------------------------------
  // Validity of a pool
  // ---------------------------------------------------------------------------------------------

  /** The last loop of `assert_pool_identity_unique`: no entry inherits a lineage another one holds or inherited. */
  predicate InheritsAlone(es: seq<Entry>) {
    forall i, j, k :: 0 <= i < |es| && 0 <= j < |es| && i != j && k in es[i].predecessors && !k.Sid? ==>
      k !in OwnKeys(es[j]) && k !in es[j].predecessors
  }

  predicate IdentityUnique(es: seq<Entry>) {
    UniqueIds(es) && InheritsAlone(es)
  }

  /** Why two entries cannot stand in one pool: they share a strategy id or a candidate id, or `e` inherits, under
    * better than a display name, what `f` is or inherited. */
  ghost predicate Clash(e: Entry, f: Entry) {
    || (e.sid == f.sid && e.sid.Some? && e.sid.value != "") || (e.cid == f.cid && e.cid.Some? && e.cid.value != "")
    || exists k :: k in e.predecessors && !k.Sid? && NamesLineage(f, k)
  }

  /** A pool keeps identity exactly when no two of its entries clash. */
  lemma IdentityExactly(es: seq<Entry>)
    ensures IdentityUnique(es) <==> forall i, j :: 0 <= i < |es| && 0 <= j < |es| && i != j ==> !Clash(es[i], es[j])
  {
    if IdentityUnique(es) {
      forall i, j | 0 <= i < |es| && 0 <= j < |es| && i != j ensures !Clash(es[i], es[j]) {
        forall k | k in es[i].predecessors && !k.Sid? ensures !NamesLineage(es[j], k) {
          OwnOrInherited(es[j], k);
        }
      }
    }
    if forall i, j :: 0 <= i < |es| && 0 <= j < |es| && i != j ==> !Clash(es[i], es[j]) {
      forall i, j, k | 0 <= i < |es| && 0 <= j < |es| && i != j && k in es[i].predecessors && !k.Sid?
        ensures k !in OwnKeys(es[j]) && k !in es[j].predecessors
      {
        assert !Clash(es[i], es[j]);
        OwnOrInherited(es[j], k);
      }
      forall i, j | 0 <= i < j < |es|
        ensures (Named(es[i].sid) ==> es[i].sid != es[j].sid) && (Named(es[i].cid) ==> es[i].cid != es[j].cid)
      {
        assert !Clash(es[i], es[j]);
      }
    }
  }

  lemma OwnOrInherited(e: Entry, k: Key)
    requires !k.Sid?
    ensures NamesLineage(e, k) <==> k in OwnKeys(e) || k in e.predecessors
  {
  }

  predicate StampsHold(es: seq<Entry>) {
    forall i :: 0 <= i < |es| ==> es[i].stampHolds
  }

  function EntriesOf(disk: Option<Pool>): seq<Entry> {
    if disk.None? then [] else disk.value.entries
  }

  // ---------------------------------------------------------------------------------------------
  // The writers
  // ---------------------------------------------------------------------------------------------

  function DisarmedEntry(e: Entry, now: string): Entry {
    e.(live := false, approval := None, disarmedAt := Some(now))
  }

  predicate Moves(e: Entry, ids: set<string>) {
    Show(e.sid) in ids && e.live
  }

  /** `disarm_live_tier`: every LIVE entry named becomes OBSERVATION and loses its approval. */
  function Disarmed(es: seq<Entry>, ids: set<string>, now: string): seq<Entry> {
    seq(|es|, i requires 0 <= i < |es| => if Moves(es[i], ids) then DisarmedEntry(es[i], now) else es[i])
  }

  /** `after` is `es` with every LIVE entry of those names at OBSERVATION, without its approval. */
  ghost predicate DisarmedAs(es: seq<Entry>, after: seq<Entry>, ids: set<string>, now: string) {
    && |after| == |es|
    && forall i :: 0 <= i < |es| ==>
         after[i] == if es[i].live && Show(es[i].sid) in ids
                     then es[i].(live := false, approval := None, disarmedAt := Some(now)) else es[i]
  }

  function MoveCount(es: seq<Entry>, ids: set<string>): nat {
    if es == [] then 0 else MoveCount(es[..|es| - 1], ids) + if Moves(es[|es| - 1], ids) then 1 else 0
  }

  /** A lifecycle move of one entry: its status and its failure streak, nothing else. A retired entry is final. */
  datatype Move = Move(sid: string, retire: bool, failures: nat)

  predicate MoveFits(es: seq<Entry>, m: Move, i: nat) {
    i < |es| && es[i].sid == Some(m.sid) && !es[i].retired
  }

  function Moved(es: seq<Entry>, m: Move): seq<Entry> {
    seq(|es|, i requires 0 <= i < |es| =>
      if MoveFits(es, m, i) then es[i].(retired := m.retire, failures := m.failures) else es[i])
  }

  /** The history import carries another file's pool, every entry at OBSERVATION. */
  function Imported(es: seq<Entry>): seq<Entry> {
    seq(|es|, i requires 0 <= i < |es| => es[i].(live := false))
  }

  /** What a promotion asks for. `approval` is the one that was verified, if it goes through one. */
  datatype Request = Request(cs: seq<Candidate>, keepActive: bool, live: bool, approval: Option<string>,
                             promotedBy: string, now: string)

  function ArmOf(q: Request): Arm {
    Arm(q.live, q.approval)
  }

  /** The pool a promotion builds on `base`, when the assembly completes. */
  ghost function Promoted(base: Option<Pool>, q: Request): Option<Pool> {
    var a := Assemble(EntriesOf(base), q.cs, q.keepActive, ArmOf(q));
    if a.Assembled? then Some(Pool(a.entries, q.promotedBy, q.now)) else None
  }

  // ---------------------------------------------------------------------------------------------
  // The file, door by door
  // ---------------------------------------------------------------------------------------------

  class PoolFile {
    var disk: Option<Pool>

    /** `install_active_pool`: validated, then written under the lock if the file is still the one `expected` names;
      * without one, whatever is there is replaced. */
    method Install(pool: Pool, expected: Option<Option<Pool>>) returns (ok: bool)
      modifies this
      ensures ok <==>
                IdentityUnique(pool.entries) && StampsHold(pool.entries)
                && (expected.Some? ==> expected.value == old(disk))
      ensures disk == if ok then Some(pool) else old(disk)
    {
      if !IdentityUnique(pool.entries) || !StampsHold(pool.entries) {
        return false;
      }
      if expected.Some? && disk != expected.value {
        return false;
      }
      disk := Some(pool);
      ok := true;
    }

    /** `disarm_live_tier`: reads past a stamp that no longer holds; writes only if something moved. */
    method Disarm(ids: set<string>, now: string) returns (moved: Option<nat>)
      modifies this
      ensures moved.None? <==> ids != {} && !IdentityUnique(EntriesOf(old(disk)))
      ensures moved.Some? ==> moved.value == if ids == {} then 0 else MoveCount(EntriesOf(old(disk)), ids)
      ensures disk == if moved.Some? && moved.value > 0
                      then Some(old(disk).value.(entries := Disarmed(old(disk).value.entries, ids, now))) else old(disk)
      ensures moved.Some? ==> DisarmedAs(EntriesOf(old(disk)), EntriesOf(disk), ids, now)
    {
      if ids == {} {
        return Some(0);
      }
      var es := EntriesOf(disk);
      if !IdentityUnique(es) {
        return None;
      }
      var out, n := es, 0;
      for i := 0 to |es|
        invariant |out| == |es| && n == MoveCount(es[..i], ids)
        invariant forall j :: 0 <= j < |es| ==>
                    out[j] == if j < i && Moves(es[j], ids) then DisarmedEntry(es[j], now) else es[j]
      {
        assert es[..i + 1][..i] == es[..i];
        if Show(out[i].sid) in ids && out[i].live {
          out := out[i := out[i].(live := false, approval := None, disarmedAt := Some(now))];
          n := n + 1;
        }
      }
      assert es[..|es|] == es && out == Disarmed(es, ids, now);
      if n == 0 {
        NothingMoves(es, ids);
      }
      if n > 0 {
        disk := Some(disk.value.(entries := out));
      }
      moved := Some(n);
    }

    /** `run_promotion` from its pool read on, with nobody else writing: the read, the assembly, the gates' verdict and
      * the install with the digest of the read. */
    method Promote(q: Request, gates: bool) returns (ok: bool)
      modifies this
      ensures ok ==> Promoted(old(disk), q).Some? && disk == Promoted(old(disk), q) && gates
      ensures !ok ==> disk == old(disk)
      ensures ok <== && IdentityUnique(EntriesOf(old(disk))) && StampsHold(EntriesOf(old(disk))) && gates
                     && Promoted(old(disk), q).Some? && IdentityUnique(Promoted(old(disk), q).value.entries)
    {
      var base := disk;
      if !IdentityUnique(EntriesOf(base)) || !StampsHold(EntriesOf(base)) {
        return false;
      }
      var a := AssemblePool(EntriesOf(base), q.cs, q.keepActive, ArmOf(q));
      if a.Refused? || !gates {
        return false;
      }
      AssembledStamps(EntriesOf(base), q);
      ok := Install(Pool(a.entries, q.promotedBy, q.now), Some(base));
    }
  }

  lemma {:induction false} NothingMoves(es: seq<Entry>, ids: set<string>)
    ensures MoveCount(es, ids) == 0 <==> forall e :: e in es ==> !(e.live && Show(e.sid) in ids)
  {
    if es != [] {
      var n := |es| - 1;
      NothingMoves(es[..n], ids);
      assert forall e :: e in es <==> e in es[..n] || e == es[n];
    }
  }

  lemma AssembledStamps(onDisk: seq<Entry>, q: Request)
    requires StampsHold(onDisk) && Assemble(onDisk, q.cs, q.keepActive, ArmOf(q)).Assembled?
    ensures StampsHold(Assemble(onDisk, q.cs, q.keepActive, ArmOf(q)).entries)
  {
    var es := Assemble(onDisk, q.cs, q.keepActive, ArmOf(q)).entries;
    forall j | 0 <= j < |es| ensures es[j].stampHolds {
      KeptOrNew(onDisk, q.cs, q.keepActive, ArmOf(q), j);
    }
  }

  // ---------------------------------------------------------------------------------------------
  // Interleaved runs
  // ---------------------------------------------------------------------------------------------

  /** A promotion under way: what it read, and what it was asked. */
  datatype Proc = Reading(base: Option<Pool>, q: Request) | Done

  datatype Write = ByPromotion(q: Request) | ByDisarm(ids: set<string>, now: string) | ByLifecycle(move: Move)
    | ByImport

  datatype Change = Change(write: Write, before: Option<Pool>, after: Option<Pool>)

  /** The file, the promotions under way, the approvals the door has verified, and every write so far. */
  datatype World = World(disk: Option<Pool>, procs: map<nat, Proc>, verified: set<string>, log: seq<Change>)

  datatype Action =
    | Begin(p: nat, q: Request, verifies: bool, withoutApproval: bool)
    | Finish(p: nat, gates: bool)
    | Disarm(ids: set<string>, now: string)
    | Lifecycle(move: Move, who: string, now: string)
    | Import(entries: seq<Entry>, at: string)

  function Put(w: World, pool: Pool, write: Write): World {
    w.(disk := Some(pool), log := w.log + [Change(write, w.disk, Some(pool))])
  }

  /** The door's first checks, then the pool read: no approval and no escape refuses, the escape cannot arm LIVE, an
    * approval that does not verify refuses, and so does a pool the read door refuses. */
  predicate Enters(w: World, a: Action)
    requires a.Begin?
  {
    && a.p !in w.procs
    && (a.q.approval.None? ==> a.withoutApproval && !a.q.live)
    && (a.q.approval.Some? ==> a.verifies)
    && IdentityUnique(EntriesOf(w.disk)) && StampsHold(EntriesOf(w.disk))
  }

  ghost function DoBegin(w: World, a: Action): World
    requires a.Begin?
  {
    if !Enters(w, a) then w
    else w.(procs := w.procs[a.p := Reading(w.disk, a.q)],
            verified := w.verified + if a.q.approval.Some? then {a.q.approval.value} else {})
  }

  ghost function DoFinish(w: World, p: nat, gates: bool): World {
    if p !in w.procs || w.procs[p].Done? then w
    else
      var base, q := w.procs[p].base, w.procs[p].q;
      var ended := w.(procs := w.procs[p := Done]);
      var pool := Promoted(base, q);
      if pool.Some? && gates && IdentityUnique(pool.value.entries) && StampsHold(pool.value.entries) && w.disk == base
      then Put(ended, pool.value, ByPromotion(q)) else ended
  }

  function DoDisarm(w: World, ids: set<string>, now: string): World {
    if IdentityUnique(EntriesOf(w.disk)) && MoveCount(EntriesOf(w.disk), ids) > 0 && w.disk.Some?
    then Put(w, w.disk.value.(entries := Disarmed(w.disk.value.entries, ids, now)), ByDisarm(ids, now)) else w
  }

  function DoLifecycle(w: World, m: Move, who: string, now: string): World {
    if w.disk.Some? && IdentityUnique(w.disk.value.entries) && StampsHold(w.disk.value.entries)
       && exists i: nat :: i < |w.disk.value.entries| && MoveFits(w.disk.value.entries, m, i)
    then Put(w, Pool(Moved(w.disk.value.entries, m), who, now), ByLifecycle(m)) else w
  }

  function DoImport(w: World, entries: seq<Entry>, at: string): World {
    if IdentityUnique(Imported(entries)) && StampsHold(Imported(entries))
    then Put(w, Pool(Imported(entries), "operator_import", at), ByImport) else w
  }

  ghost function Do(w: World, a: Action): World {
    match a
    case Begin(_, _, _, _) => DoBegin(w, a)
    case Finish(p, gates) => DoFinish(w, p, gates)
    case Disarm(ids, now) => DoDisarm(w, ids, now)
    case Lifecycle(m, who, now) => DoLifecycle(w, m, who, now)
    case Import(entries, at) => DoImport(w, entries, at)
  }

  ghost function Run(w: World, actions: seq<Action>): World {
    if actions == [] then w else Do(Run(w, actions[..|actions| - 1]), actions[|actions| - 1])
  }

  /** Every LIVE entry names an approval the door verified. */
  ghost predicate ArmedWell(es: seq<Entry>, verified: set<string>) {
    forall i :: 0 <= i < |es| && es[i].live ==> es[i].approval.Some? && es[i].approval.value in verified
  }

  /** A good pool to start from, nothing under way. */
  ghost predicate Start(w: World) {
    IdentityUnique(EntriesOf(w.disk)) && ArmedWell(EntriesOf(w.disk), w.verified) && w.procs == map[] && w.log == []
  }

  /** A promotion under way read a good pool, and arms LIVE only with a verified approval. */
  ghost predicate ProcOk(q: Proc, verified: set<string>) {
    q.Reading? ==> ArmedWell(EntriesOf(q.base), verified)
                   && (q.q.live ==> q.q.approval.Some? && q.q.approval.value in verified)
  }

  /** A promotion's write is its own function of the pool it replaced, not of an older one. */
  ghost predicate ChangeOk(c: Change) {
    c.write.ByPromotion? ==> c.after == Promoted(c.before, c.write.q)
  }

  ghost predicate Inv(w: World) {
    && IdentityUnique(EntriesOf(w.disk)) && ArmedWell(EntriesOf(w.disk), w.verified)
    && (forall p :: p in w.procs ==> ProcOk(w.procs[p], w.verified))
    && (forall i :: 0 <= i < |w.log| ==> ChangeOk(w.log[i]))
    && (w.log != [] ==> w.log[|w.log| - 1].after == w.disk)
    && forall i :: 0 < i < |w.log| ==> w.log[i].before == w.log[i - 1].after
  }

  lemma PromotedArmedWell(base: Option<Pool>, q: Request, verified: set<string>)
    requires ArmedWell(EntriesOf(base), verified) && Promoted(base, q).Some?
    requires q.live ==> q.approval.Some? && q.approval.value in verified
    ensures ArmedWell(Promoted(base, q).value.entries, verified)
  {
    var es := Promoted(base, q).value.entries;
    forall i | 0 <= i < |es| && es[i].live ensures es[i].approval.Some? && es[i].approval.value in verified {
      KeptOrNew(EntriesOf(base), q.cs, q.keepActive, ArmOf(q), i);
    }
  }

  lemma FinishKeeps(w: World, p: nat, gates: bool)
    requires Inv(w)
    ensures Inv(DoFinish(w, p, gates))
  {
    if p in w.procs && w.procs[p].Reading? {
      assert ProcOk(w.procs[p], w.verified);
      var base, q := w.procs[p].base, w.procs[p].q;
      var v := DoFinish(w, p, gates);
      if v.log != w.log {
        PromotedArmedWell(base, q, w.verified);
      }
    }
  }

  lemma DisarmKeeps(w: World, ids: set<string>, now: string)
    requires Inv(w)
    ensures Inv(DoDisarm(w, ids, now))
  {
    if DoDisarm(w, ids, now) != w {
      assert IdentityUnique(Disarmed(w.disk.value.entries, ids, now));
    }
  }

  lemma LifecycleKeeps(w: World, m: Move, who: string, now: string)
    requires Inv(w)
    ensures Inv(DoLifecycle(w, m, who, now))
  {
    if DoLifecycle(w, m, who, now) != w {
      assert IdentityUnique(Moved(w.disk.value.entries, m));
    }
  }

  lemma {:induction false} RunKeeps(w: World, actions: seq<Action>)
    requires Start(w)
    ensures Inv(Run(w, actions))
  {
    if actions != [] {
      var before := Run(w, actions[..|actions| - 1]);
      RunKeeps(w, actions[..|actions| - 1]);
      match actions[|actions| - 1]
      case Finish(p, gates) => FinishKeeps(before, p, gates);
      case Disarm(ids, now) => DisarmKeeps(before, ids, now);
      case Lifecycle(m, who, now) => LifecycleKeeps(before, m, who, now);
      case _ =>
    }
  }

  // ---------------------------------------------------------------------------------------------
  // What holds of every run
  // ---------------------------------------------------------------------------------------------

  /** In every run from a good pool, every LIVE entry on disk names a verified approval. */
  lemma LiveNamesApproval(w: World, actions: seq<Action>)
    requires Start(w)
    ensures var v := Run(w, actions); ArmedWell(EntriesOf(v.disk), v.verified)
  {
    RunKeeps(w, actions);
  }

  /** In every run, each promotion that wrote is a function of the pool it replaced: whatever a disarm or another door
    * wrote after the promotion's read is what it built on, or it wrote nothing. */
  lemma PromotionIsAtomic(w: World, actions: seq<Action>, i: nat)
    requires Start(w) && i < |Run(w, actions).log|
    ensures var log := Run(w, actions).log;
            && (log[i].write.ByPromotion? ==> log[i].after == Promoted(log[i].before, log[i].write.q))
            && (i > 0 ==> log[i].before == log[i - 1].after)
  {
    RunKeeps(w, actions);
    assert ChangeOk(Run(w, actions).log[i]);
  }

  lemma {:induction false} SomethingMoves(es: seq<Entry>, ids: set<string>) returns (i: nat)
    requires MoveCount(es, ids) > 0
    ensures i < |es| && Moves(es[i], ids)
  {
    if Moves(es[|es| - 1], ids) {
      i := |es| - 1;
    } else {
      i := SomethingMoves(es[..|es| - 1], ids);
    }
  }

  /** A disarm that moves an entry right after the promotion's read stays; `WritesOnlyOverItsRead` is about any run in
    * between. */
  lemma DisarmIsNotOverwritten(w: World, p: nat, gates: bool, ids: set<string>, now: string)
    requires p in w.procs && w.procs[p].Reading? && w.procs[p].base == w.disk && w.disk.Some?
    requires IdentityUnique(w.disk.value.entries) && MoveCount(w.disk.value.entries, ids) > 0
    ensures var v := DoDisarm(w, ids, now);
            && v.disk == Some(w.disk.value.(entries := Disarmed(w.disk.value.entries, ids, now)))
            && DoFinish(v, p, gates).disk == v.disk
  {
    var i := SomethingMoves(w.disk.value.entries, ids);
    var v := DoDisarm(w, ids, now);
    assert !v.disk.value.entries[i].live && w.disk.value.entries[i].live;
  }

  /** What a disarm leaves: with identity kept every LIVE entry named is at OBSERVATION, and otherwise nothing
    * changes. */
  lemma DisarmExactly(w: World, ids: set<string>, now: string)
    ensures var v := DoDisarm(w, ids, now);
            && v.procs == w.procs && v.verified == w.verified && (v.disk.None? <==> w.disk.None?)
            && (IdentityUnique(EntriesOf(w.disk)) ==> DisarmedAs(EntriesOf(w.disk), EntriesOf(v.disk), ids, now))
            && (v == w <==> !IdentityUnique(EntriesOf(w.disk))
                            || forall e :: e in EntriesOf(w.disk) ==> !(e.live && Show(e.sid) in ids))
  {
    NothingMoves(EntriesOf(w.disk), ids);
  }

  /** What a lifecycle move leaves: over a pool that holds, the entry of that id, unless it is retired, has the status
    * and the streak decided and is otherwise as it was, like all others; nothing is written if there is none. */
  lemma LifecycleExactly(w: World, m: Move, who: string, now: string)
    ensures var v := DoLifecycle(w, m, who, now);
            var es := EntriesOf(w.disk);
            var writes := IdentityUnique(es) && StampsHold(es)
                          && exists e :: e in es && e.sid == Some(m.sid) && !e.retired;
            && (!writes ==> v == w)
            && (writes ==>
                  && v.disk.Some? && v.disk.value.updatedBy == who && v.disk.value.updatedAt == now
                  && |v.disk.value.entries| == |es|
                  && forall i :: 0 <= i < |es| ==>
                       v.disk.value.entries[i] == if es[i].sid == Some(m.sid) && !es[i].retired
                                                  then es[i].(retired := m.retire, failures := m.failures) else es[i])
  {
    var es := EntriesOf(w.disk);
    if e :| e in es && e.sid == Some(m.sid) && !e.retired {
      var i: nat :| i < |es| && es[i] == e;
      assert MoveFits(es, m, i);
    }
    if i: nat :| i < |es| && MoveFits(es, m, i) {
      assert es[i] in es;
    }
  }

  /** A promotion from its entry to its install, with no other door in between, writes exactly when it goes through a
    * verified approval, or without one at OBSERVATION by the escape; the pool it reads holds; the assembly
    * completes, the gates pass and the new pool keeps identity. */
  lemma PromotionLands(w: World, begin: Action, gates: bool)
    requires begin.Begin? && begin.p !in w.procs
    ensures var done := Do(Do(w, begin), Finish(begin.p, gates));
            var q, es := begin.q, EntriesOf(w.disk);
            && (done.log != w.log <==>
                  && (if q.approval.Some? then begin.verifies else begin.withoutApproval && !q.live)
                  && IdentityUnique(es) && StampsHold(es) && gates
                  && Assemble(es, q.cs, q.keepActive, Arm(q.live, q.approval)).Assembled?
                  && IdentityUnique(Assemble(es, q.cs, q.keepActive, Arm(q.live, q.approval)).entries))
            && (done.log == w.log ==> done.disk == w.disk)
            && (done.log != w.log ==>
                  done.disk == Some(Pool(Assemble(es, q.cs, q.keepActive, Arm(q.live, q.approval)).entries,
                                         q.promotedBy, q.now)))
  {
    var es := EntriesOf(w.disk);
    if StampsHold(es) && Assemble(es, begin.q.cs, begin.q.keepActive, ArmOf(begin.q)).Assembled? {
      AssembledStamps(es, begin.q);
    }
  }

  /** Whatever the other doors and promotions do, one under way keeps what it read until it finishes itself. */
  lemma {:induction false} StillReading(w: World, p: nat, base: Option<Pool>, q: Request, actions: seq<Action>)
    requires p in w.procs && w.procs[p] == Reading(base, q)
    requires forall i :: 0 <= i < |actions| ==> !(actions[i].Finish? && actions[i].p == p)
    ensures var v := Run(w, actions); p in v.procs && v.procs[p] == Reading(base, q)
  {
    if actions != [] {
      var k := |actions| - 1;
      StillReading(w, p, base, q, actions[..k]);
    }
  }

  /** A promotion that enters and, after any run of the other doors, finishes: if it writes, the file is then exactly
    * the one it read, so no disarm, lifecycle move, import or other promotion that left the file different is
    * overwritten. */
  lemma WritesOnlyOverItsRead(w: World, begin: Action, actions: seq<Action>, gates: bool)
    requires begin.Begin? && Enters(w, begin)
    requires forall i :: 0 <= i < |actions| ==> !(actions[i].Finish? && actions[i].p == begin.p)
    ensures var v := Run(Do(w, begin), actions);
            var done := Do(v, Finish(begin.p, gates));
            && (done.log != v.log ==> v.disk == w.disk && done.disk == Promoted(w.disk, begin.q))
            && (done.log == v.log ==> done.disk == v.disk)
  {
    StillReading(Do(w, begin), begin.p, w.disk, begin.q, actions);
  }

  /** In particular, if an entry the promotion read as LIVE is not LIVE under its name when it finishes, it writes
    * nothing. */
  lemma DisarmedMeanwhileStays(w: World, begin: Action, actions: seq<Action>, gates: bool, e: Entry)
    requires begin.Begin? && Enters(w, begin)
    requires forall i :: 0 <= i < |actions| ==> !(actions[i].Finish? && actions[i].p == begin.p)
    requires e in EntriesOf(w.disk) && e.live
    requires var v := Run(Do(w, begin), actions); forall f :: f in EntriesOf(v.disk) && f.sid == e.sid ==> !f.live
    ensures var v := Run(Do(w, begin), actions); Do(v, Finish(begin.p, gates)).disk == v.disk
  {
    WritesOnlyOverItsRead(w, begin, actions, gates);
  }

  /** Nothing but a promotion that was asked for LIVE, under a verified approval, arms an entry. */
  lemma OnlyPromotionArms(w: World, a: Action, e: Entry)
    requires Inv(w) && e in EntriesOf(Do(w, a).disk) && e.live
    ensures (exists d :: d in EntriesOf(w.disk) && d.live
                         && d.sid == e.sid && d.cid == e.cid && d.approval == e.approval)
            || (a.Finish? && a.p in w.procs && w.procs[a.p].Reading? && w.procs[a.p].q.live
                && e.approval == w.procs[a.p].q.approval && e.approval.Some? && e.approval.value in w.verified)
  {
    var es, fs := EntriesOf(w.disk), EntriesOf(Do(w, a).disk);
    var i :| 0 <= i < |fs| && fs[i] == e;
    if Do(w, a).disk == w.disk {
      assert es[i] in es;
    } else if a.Finish? {
      assert ProcOk(w.procs[a.p], w.verified);
      NewOrKept(w.disk, w.procs[a.p].q, e);
    } else {
      assert a.Disarm? || a.Lifecycle?;
      assert es[i] in es && es[i].live;
    }
  }

  lemma NewOrKept(base: Option<Pool>, q: Request, e: Entry)
    requires Promoted(base, q).Some? && e in Promoted(base, q).value.entries && e.live
    ensures e in EntriesOf(base) || (q.live && e.approval == q.approval)
  {
    var es := Promoted(base, q).value.entries;
    var i :| 0 <= i < |es| && es[i] == e;
    KeptOrNew(EntriesOf(base), q.cs, q.keepActive, ArmOf(q), i);
  }
}
