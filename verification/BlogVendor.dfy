/** scripts/blog_vendor.py: cutting a vault module by line spans, and re-running the part of it that depends on
  * a path. */
module BlogVendor {
  import opened Wrappers

  // ---------------------------------------------------------------------------------------------
  // Module-level assignments and what they mean
  // ---------------------------------------------------------------------------------------------

  type Name = string
  type Value = int
  type Env = map<Name, Value>
  type Semantics = (string, seq<Value>) -> Value

  /** A right-hand side without side effects. Importing the module fails when it reads an unbound name. */
  datatype Expr = Literal(v: Value) | Ref(n: Name) | Call(f: string, args: seq<Expr>)

  /** `named = value` for each plain name target, and each name bound by unpacking a tuple target. */
  datatype Stmt = Assign(named: seq<Name>, unpacked: seq<Name>, value: Expr)

  const PATH_ROOTS: set<Name> := {"VAULT", "CACHE_DIR", "_TOOLS_DIR"}
  const EXCLUDED: set<Name> := {"C_AC", "C_VOL", "POSTS_PER_DAY"}

  function Names(e: Expr): set<Name> {
    match e
    case Literal(_) => {}
    case Ref(n) => {n}
    case Call(_, args) => set a, n | a in args && n in Names(a) :: n
  }

  function Bound(s: Stmt): set<Name> {
    (set n | n in s.named) + (set n | n in s.unpacked)
  }

  function Eval(sem: Semantics, e: Expr, env: Env): Option<Value> {
    match e
    case Literal(v) => Some(v)
    case Ref(n) => if n in env then Some(env[n]) else None
    case Call(f, args) =>
      var vs := EvalAll(sem, args, env);
      if vs.Some? then Some(sem(f, vs.value)) else None
  }

  function EvalAll(sem: Semantics, args: seq<Expr>, env: Env): Option<seq<Value>> {
    if args == [] then Some([])
    else
      var v, vs := Eval(sem, args[0], env), EvalAll(sem, args[1..], env);
      if v.Some? && vs.Some? then Some([v.value] + vs.value) else None
  }

  function Bindings(sem: Semantics, s: Stmt, v: Value): Env {
    (map n | n in s.unpacked :: sem("unpack " + n, [v])) + (map n | n in s.named :: v)
  }

  /** The statement that defines a root. A root's value is given, so running the module skips it. */
  predicate DefinesRoot(s: Stmt) {
    Bound(s) * PATH_ROOTS != {}
  }

  function Exec(sem: Semantics, s: Stmt, env: Env): Option<Env> {
    if DefinesRoot(s) then Some(env)
    else
      var v := Eval(sem, s.value, env);
      if v.Some? then Some(env + Bindings(sem, s, v.value)) else None
  }

  function Run(sem: Semantics, body: seq<Stmt>, env: Env): Option<Env> {
    if body == [] then Some(env)
    else
      var before := Run(sem, body[..|body| - 1], env);
      if before.Some? then Exec(sem, body[|body| - 1], before.value) else None
  }

  // ---------------------------------------------------------------------------------------------
  // The slice `configure` re-runs
  // ---------------------------------------------------------------------------------------------

  /** Whether the scan keeps `s` when `roots` are the names it takes for paths. */
  predicate Selected(roots: set<Name>, s: Stmt) {
    var targets := set n | n in s.named;
    && s.named != [] && targets * PATH_ROOTS == {}
    && Names(s.value) * roots != {} && targets * EXCLUDED == {}
  }

  /** `s` reads a path, but the scan passes over it: an excluded name, or names bound by unpacking only. */
  predicate Passed(roots: set<Name>, s: Stmt) {
    !DefinesRoot(s) && Names(s.value) * roots != {} && !Selected(roots, s)
  }

  /** After a prefix of the module: the names the scan takes for paths; those that depend on a path without its
    * knowing; of these, the ones the re-run leaves as they were; and every name bound so far. */
  datatype Marks = Marks(roots: set<Name>, lost: set<Name>, stale: set<Name>, bound: set<Name>)

  function Mark(m: Marks, s: Stmt): Marks {
    if Selected(m.roots, s) then
      Marks(m.roots + (set n | n in s.named), m.lost + (set n | n in s.unpacked), m.stale, m.bound + Bound(s))
    else if Passed(m.roots, s) then Marks(m.roots, m.lost + Bound(s), m.stale + Bound(s), m.bound + Bound(s))
    else m.(bound := m.bound + Bound(s))
  }

  function Scan(body: seq<Stmt>): Marks {
    if body == [] then Marks(PATH_ROOTS, {}, {}, {}) else Mark(Scan(body[..|body| - 1]), body[|body| - 1])
  }

  function Slice(body: seq<Stmt>): seq<Stmt> {
    if body == [] then []
    else
      var before, s := body[..|body| - 1], body[|body| - 1];
      if Selected(Scan(before).roots, s) then Slice(before) + [s] else Slice(before)
  }

  function SliceNames(body: seq<Stmt>): seq<Name> {
    if body == [] then []
    else
      var before, s := body[..|body| - 1], body[|body| - 1];
      if Selected(Scan(before).roots, s) then SliceNames(before) + s.named else SliceNames(before)
  }

  // ---------------------------------------------------------------------------------------------
  // The slice, by dependence
  // ---------------------------------------------------------------------------------------------

  /** Statement `i` has a plain target, and none that is a root or excluded. */
  ghost predicate Eligible(body: seq<Stmt>, i: nat)
    requires i < |body|
  {
    body[i].named != [] && forall n :: n in body[i].named ==> n !in PATH_ROOTS && n !in EXCLUDED
  }

  ghost predicate NamesRoot(body: seq<Stmt>, i: nat)
    requires i < |body|
  {
    exists n :: n in Names(body[i].value) && n in PATH_ROOTS
  }

  /** Statement `i` names a plain target of statement `j`. */
  ghost predicate NamesTarget(body: seq<Stmt>, i: nat, j: nat)
    requires i < |body| && j < |body|
  {
    exists n :: n in Names(body[i].value) && n in body[j].named
  }

  /** Statement `i` is eligible, and names a root or a plain target of an earlier statement that is kept. */
  ghost predicate Kept(body: seq<Stmt>, i: nat)
    requires i < |body|
    decreases i
  {
    Eligible(body, i) && ReadsPath(body, i)
  }

  ghost predicate ReadsPath(body: seq<Stmt>, i: nat)
    requires i < |body|
    decreases i, 0
  {
    NamesRoot(body, i) || exists j :: 0 <= j < i && NamesTarget(body, i, j) && Kept(body, j)
  }

  /** Eligible statements, the first naming a root, each other one a plain target of the one before it. */
  ghost predicate Chain(body: seq<Stmt>, at: seq<nat>) {
    && at != []
    && (forall k :: 0 <= k < |at| ==> at[k] < |body| && Eligible(body, at[k]))
    && NamesRoot(body, at[0])
    && forall k :: 0 < k < |at| ==> at[k - 1] < at[k] && NamesTarget(body, at[k], at[k - 1])
  }

  /** Kept are exactly the statements a chain from a root ends at: the dependence is transitive. */
  lemma {:induction false} KeptByChain(body: seq<Stmt>, i: nat)
    requires i < |body|
    ensures Kept(body, i) <==> exists at :: Chain(body, at) && at[|at| - 1] == i
    decreases i
  {
    if Kept(body, i) {
      var at := ChainTo(body, i);
    }
    if at :| Chain(body, at) && at[|at| - 1] == i {
      ChainKeeps(body, at);
    }
  }

  lemma {:induction false} ChainTo(body: seq<Stmt>, i: nat) returns (at: seq<nat>)
    requires i < |body| && Kept(body, i)
    ensures Chain(body, at) && at[|at| - 1] == i
    decreases i
  {
    if NamesRoot(body, i) {
      at := [i];
    } else {
      var j :| 0 <= j < i && NamesTarget(body, i, j) && Kept(body, j);
      var before := ChainTo(body, j);
      at := before + [i];
    }
  }

  lemma {:induction false} ChainKeeps(body: seq<Stmt>, at: seq<nat>)
    requires Chain(body, at)
    ensures Kept(body, at[|at| - 1])
    decreases |at|
  {
    var k := |at| - 1;
    if k > 0 {
      ChainKeeps(body, at[..k]);
      assert NamesTarget(body, at[k], at[k - 1]) && Kept(body, at[k - 1]);
    }
  }

  /** The kept ones of the first `n` statements, in order, and their plain targets. */
  ghost function KeptOf(body: seq<Stmt>, n: nat): seq<Stmt>
    requires n <= |body|
  {
    if n == 0 then [] else KeptOf(body, n - 1) + if Kept(body, n - 1) then [body[n - 1]] else []
  }

  ghost function KeptNames(body: seq<Stmt>, n: nat): seq<Name>
    requires n <= |body|
  {
    if n == 0 then [] else KeptNames(body, n - 1) + if Kept(body, n - 1) then body[n - 1].named else []
  }

  /** What the scan takes for a path after `n` statements. */
  ghost predicate PathName(body: seq<Stmt>, n: nat, x: Name)
    requires n <= |body|
  {
    x in PATH_ROOTS || exists j :: 0 <= j < n && Kept(body, j) && x in body[j].named
  }

  lemma ReadsPathIs(body: seq<Stmt>, i: nat)
    requires i < |body|
    ensures ReadsPath(body, i) <==> exists x :: x in Names(body[i].value) && PathName(body, i, x)
  {
    if NamesRoot(body, i) {
      var x :| x in Names(body[i].value) && x in PATH_ROOTS;
      assert PathName(body, i, x);
    }
    if j :| 0 <= j < i && NamesTarget(body, i, j) && Kept(body, j) {
      var x :| x in Names(body[i].value) && x in body[j].named;
      assert PathName(body, i, x);
    }
    if x :| x in Names(body[i].value) && PathName(body, i, x) {
      if x !in PATH_ROOTS {
        var j :| 0 <= j < i && Kept(body, j) && x in body[j].named;
        assert NamesTarget(body, i, j);
      }
    }
  }

  /** The scan's test at statement `i`, with the names it takes for paths there. */
  lemma SelectedIsKept(body: seq<Stmt>, i: nat, roots: set<Name>)
    requires i < |body| && forall x :: x in roots <==> PathName(body, i, x)
    ensures Selected(roots, body[i]) <==> Kept(body, i)
    ensures Names(body[i].value) * roots != {} <==> ReadsPath(body, i)
  {
    ReadsPathIs(body, i);
    var targets := set n | n in body[i].named;
    assert (forall n :: n in body[i].named ==> n !in PATH_ROOTS && n !in EXCLUDED)
           <==> targets * PATH_ROOTS == {} && targets * EXCLUDED == {} by {
      if targets * PATH_ROOTS == {} && targets * EXCLUDED == {} {
        forall n | n in body[i].named ensures n !in PATH_ROOTS && n !in EXCLUDED {
          assert n in targets;
          assert n in PATH_ROOTS ==> n in targets * PATH_ROOTS;
          assert n in EXCLUDED ==> n in targets * EXCLUDED;
        }
      }
    }
    if x :| x in Names(body[i].value) && PathName(body, i, x) {
      assert x in Names(body[i].value) * roots;
    }
    if x :| x in Names(body[i].value) * roots {
      assert PathName(body, i, x);
    }
  }

  /** The scan takes for paths exactly the roots and the plain targets of kept statements, and selects the kept ones. */
  lemma {:induction false} ScanFollows(body: seq<Stmt>, n: nat)
    requires n <= |body|
    ensures forall x :: x in Scan(body[..n]).roots <==> PathName(body, n, x)
    ensures Slice(body[..n]) == KeptOf(body, n) && SliceNames(body[..n]) == KeptNames(body, n)
  {
    if n > 0 {
      ScanFollows(body, n - 1);
      assert body[..n][..n - 1] == body[..n - 1] && body[..n][n - 1] == body[n - 1];
      SelectedIsKept(body, n - 1, Scan(body[..n - 1]).roots);
      forall x ensures PathName(body, n, x) <==>
                       PathName(body, n - 1, x) || (Kept(body, n - 1) && x in body[n - 1].named) {
        PathNameNext(body, n - 1, x);
      }
    }
  }

  lemma PathNameNext(body: seq<Stmt>, n: nat, x: Name)
    requires n < |body|
    ensures PathName(body, n + 1, x) <==> PathName(body, n, x) || (Kept(body, n) && x in body[n].named)
  {
  }

  /** `_path_assignments`: the statements that depend on a path root through kept ones, in source order, and their
    * plain targets. */
  method PathAssignments(body: seq<Stmt>) returns (out: seq<Stmt>, names: seq<Name>)
    ensures out == KeptOf(body, |body|) && names == KeptNames(body, |body|)
    ensures out == Slice(body) && names == SliceNames(body)
  {
    var roots := PATH_ROOTS;
    out, names := [], [];
    for i := 0 to |body|
      invariant roots == Scan(body[..i]).roots && out == Slice(body[..i]) && names == SliceNames(body[..i])
    {
      var s := body[i];
      assert body[..i + 1][..|body[..i + 1]| - 1] == body[..i];
      var targets := set n | n in s.named;
      if s.named == [] || targets * PATH_ROOTS != {} {
        continue;
      }
      if Names(s.value) * roots != {} && targets * EXCLUDED == {} {
        out := out + [s];
        names := names + s.named;
        roots := roots + targets;
      }
    }
    assert body[..|body|] == body;
    ScanFollows(body, |body|);
  }

  // ---------------------------------------------------------------------------------------------
  // Re-running the slice is re-running the module
  // ---------------------------------------------------------------------------------------------

  /** Each name is bound once, a root alone; and nothing reads a name the scan lost. */
  predicate Regular(body: seq<Stmt>, initial: set<Name>) {
    body == [] ||
    var before, s := body[..|body| - 1], body[|body| - 1];
    && Regular(before, initial)
    && (if DefinesRoot(s) then Bound(s) <= PATH_ROOTS else Fits(Scan(before), s, initial))
  }

  predicate Fits(m: Marks, s: Stmt, initial: set<Name>) {
    Bound(s) !! initial + m.bound && Names(s.value) !! m.lost
  }

  predicate Agree(a: Env, b: Env, names: set<Name>) {
    forall n :: n in names ==> (n in a <==> n in b) && (n in a ==> a[n] == b[n])
  }

  lemma {:induction false} EvalAgree(sem: Semantics, e: Expr, a: Env, b: Env)
    requires Agree(a, b, Names(e))
    ensures Eval(sem, e, a) == Eval(sem, e, b)
  {
    match e
    case Literal(_) =>
    case Ref(_) =>
    case Call(_, args) =>
      forall x | x in args ensures Agree(a, b, Names(x)) {}
      EvalAllAgree(sem, args, a, b);
  }

  lemma {:induction false} EvalAllAgree(sem: Semantics, args: seq<Expr>, a: Env, b: Env)
    requires forall x :: x in args ==> Agree(a, b, Names(x))
    ensures EvalAll(sem, args, a) == EvalAll(sem, args, b)
  {
    if args != [] {
      EvalAgree(sem, args[0], a, b);
      EvalAllAgree(sem, args[1..], a, b);
    }
  }

  lemma {:induction false} EvalReadsBound(sem: Semantics, e: Expr, env: Env)
    requires Eval(sem, e, env).Some?
    ensures Names(e) <= env.Keys
  {
    match e
    case Literal(_) =>
    case Ref(_) =>
    case Call(_, args) => EvalAllReadsBound(sem, args, env);
  }

  lemma {:induction false} EvalAllReadsBound(sem: Semantics, args: seq<Expr>, env: Env)
    requires EvalAll(sem, args, env).Some?
    ensures forall x :: x in args ==> Names(x) <= env.Keys
  {
    if args != [] {
      EvalReadsBound(sem, args[0], env);
      EvalAllReadsBound(sem, args[1..], env);
    }
  }

  /** What holds after each prefix of the module has run under the old roots (`was`) and the new ones (`now`), and
    * its slice has been re-run (`again`) on the finished old module. */
  ghost predicate InStep(m: Marks, initial: set<Name>, was: Env, now: Env, again: Env, finished: Env) {
    && InMarks(m, initial, was, now)
    && now.Keys <= again.Keys == finished.Keys + PATH_ROOTS
    && (forall n :: n in now && n !in m.stale ==> again[n] == now[n])
    && (forall n :: n in again && n !in PATH_ROOTS + m.bound ==> again[n] == finished[n])
  }

  ghost predicate InMarks(m: Marks, initial: set<Name>, was: Env, now: Env) {
    && PATH_ROOTS <= m.roots && m.stale <= m.lost
    && was.Keys <= now.Keys == was.Keys + PATH_ROOTS <= initial + PATH_ROOTS + m.bound
    && (forall n :: n in now && n !in m.roots + m.lost ==> n in was && was[n] == now[n])
  }

  /** A path-dependent statement the scan keeps: old and new values may differ, and the re-run gives the new one. */
  lemma StepSelected(sem: Semantics, m: Marks, s: Stmt, initial: set<Name>, was: Env, now: Env, again: Env,
                     finished: Env)
    returns (was': Env, now': Env, again': Env)
    requires InStep(m, initial, was, now, again, finished)
    requires !DefinesRoot(s) && Fits(m, s, initial) && Selected(m.roots, s)
    requires Exec(sem, s, was).Some? && Exec(sem, s, was).value.Keys <= finished.Keys
    ensures Exec(sem, s, was) == Some(was') && Exec(sem, s, now) == Some(now') && Exec(sem, s, again) == Some(again')
    ensures InStep(Mark(m, s), initial, was', now', again', finished)
  {
    EvalReadsBound(sem, s.value, was);
    EvalAgree(sem, s.value, now, again);
    EvalSucceeds(sem, s.value, was, now);
    var v, u := Eval(sem, s.value, was).value, Eval(sem, s.value, now).value;
    was', now', again' := was + Bindings(sem, s, v), now + Bindings(sem, s, u), again + Bindings(sem, s, u);
    SelectedInStep(sem, m, s, initial, was, now, again, finished, v, u);
  }

  lemma SelectedInStep(sem: Semantics, m: Marks, s: Stmt, initial: set<Name>, was: Env, now: Env, again: Env,
                       finished: Env, v: Value, u: Value)
    requires InStep(m, initial, was, now, again, finished)
    requires !DefinesRoot(s) && Fits(m, s, initial) && Selected(m.roots, s)
    requires (was + Bindings(sem, s, v)).Keys <= finished.Keys
    ensures InStep(Mark(m, s), initial, was + Bindings(sem, s, v), now + Bindings(sem, s, u),
                   again + Bindings(sem, s, u), finished)
  {
    assert Bindings(sem, s, u).Keys == Bindings(sem, s, v).Keys == Bound(s);
  }

  /** A path-dependent statement the scan passes over: its names are lost. */
  lemma StepPassed(sem: Semantics, m: Marks, s: Stmt, initial: set<Name>, was: Env, now: Env, again: Env, finished: Env)
    returns (was': Env, now': Env)
    requires InStep(m, initial, was, now, again, finished)
    requires Fits(m, s, initial) && Passed(m.roots, s)
    requires Exec(sem, s, was).Some? && Exec(sem, s, was).value.Keys <= finished.Keys
    ensures Exec(sem, s, was) == Some(was') && Exec(sem, s, now) == Some(now')
    ensures InStep(Mark(m, s), initial, was', now', again, finished)
  {
    EvalReadsBound(sem, s.value, was);
    EvalSucceeds(sem, s.value, was, now);
    var v, u := Eval(sem, s.value, was).value, Eval(sem, s.value, now).value;
    was', now' := was + Bindings(sem, s, v), now + Bindings(sem, s, u);
    assert Bindings(sem, s, u).Keys == Bindings(sem, s, v).Keys == Bound(s);
  }

  /** A statement that reads no path has the same value under the old roots and the new ones. */
  lemma StepIndependent(sem: Semantics, m: Marks, s: Stmt, initial: set<Name>, was: Env, now: Env, again: Env,
                        finished: Env)
    returns (was': Env, now': Env)
    requires InStep(m, initial, was, now, again, finished)
    requires !DefinesRoot(s) && Fits(m, s, initial) && Names(s.value) !! m.roots
    requires Exec(sem, s, was).Some? && Extends(finished, Exec(sem, s, was).value)
    ensures Exec(sem, s, was) == Some(was') && Exec(sem, s, now) == Some(now')
    ensures InStep(Mark(m, s), initial, was', now', again, finished)
  {
    EvalReadsBound(sem, s.value, was);
    EvalAgree(sem, s.value, was, now);
    var v := Eval(sem, s.value, was).value;
    was', now' := was + Bindings(sem, s, v), now + Bindings(sem, s, v);
    assert Bindings(sem, s, v).Keys == Bound(s);
    SameBindings(m, Bindings(sem, s, v), initial, was, now, again, finished);
    assert Mark(m, s) == m.(bound := m.bound + Bound(s));
  }

  /** New names bound alike under the old roots and the new ones, and finished so, need no mark. */
  lemma SameBindings(m: Marks, b: Env, initial: set<Name>, was: Env, now: Env, again: Env, finished: Env)
    requires InStep(m, initial, was, now, again, finished)
    requires b.Keys !! PATH_ROOTS + m.bound && Extends(finished, was + b)
    ensures InStep(m.(bound := m.bound + b.Keys), initial, was + b, now + b, again, finished)
  {
  }

  lemma {:induction false} EvalSucceeds(sem: Semantics, e: Expr, a: Env, b: Env)
    requires Eval(sem, e, a).Some? && a.Keys <= b.Keys
    ensures Eval(sem, e, b).Some?
  {
    match e
    case Literal(_) =>
    case Ref(_) =>
    case Call(_, args) => EvalAllSucceeds(sem, args, a, b);
  }

  lemma {:induction false} EvalAllSucceeds(sem: Semantics, args: seq<Expr>, a: Env, b: Env)
    requires EvalAll(sem, args, a).Some? && a.Keys <= b.Keys
    ensures EvalAll(sem, args, b).Some?
  {
    if args != [] {
      EvalSucceeds(sem, args[0], a, b);
      EvalAllSucceeds(sem, args[1..], a, b);
    }
  }

  lemma Step(sem: Semantics, m: Marks, s: Stmt, initial: set<Name>, was: Env, now: Env, again: Env, finished: Env)
    returns (was': Env, now': Env, again': Env)
    requires InStep(m, initial, was, now, again, finished)
    requires if DefinesRoot(s) then Bound(s) <= PATH_ROOTS else Fits(m, s, initial)
    requires Exec(sem, s, was).Some? && Extends(finished, Exec(sem, s, was).value)
    ensures Exec(sem, s, was) == Some(was') && Exec(sem, s, now) == Some(now')
    ensures if Selected(m.roots, s) then Exec(sem, s, again) == Some(again') else again' == again
    ensures InStep(Mark(m, s), initial, was', now', again', finished)
  {
    was', now', again' := was, now, again;
    if !DefinesRoot(s) {
      if Selected(m.roots, s) {
        was', now', again' := StepSelected(sem, m, s, initial, was, now, again, finished);
      } else if Passed(m.roots, s) {
        was', now' := StepPassed(sem, m, s, initial, was, now, again, finished);
      } else {
        was', now' := StepIndependent(sem, m, s, initial, was, now, again, finished);
      }
    } else {
      assert (set n | n in s.named) <= Bound(s);
    }
  }

  lemma {:induction false} RunKeys(sem: Semantics, body: seq<Stmt>, env: Env, initial: set<Name>)
    requires Run(sem, body, env).Some? && env.Keys <= initial + PATH_ROOTS
    ensures Run(sem, body, env).value.Keys <= initial + PATH_ROOTS + Scan(body).bound
  {
    if body != [] {
      RunKeys(sem, body[..|body| - 1], env, initial);
    }
  }

  lemma {:induction false} RunKeeps(sem: Semantics, body: seq<Stmt>, env: Env)
    requires Run(sem, body, env).Some? && Regular(body, env.Keys - PATH_ROOTS)
    ensures Extends(Run(sem, body, env).value, env)
  {
    if body != [] {
      var before := body[..|body| - 1];
      RunKeeps(sem, before, env);
      RunKeys(sem, before, env, env.Keys - PATH_ROOTS);
      PrefixKept(sem, Scan(before), body[|body| - 1], Run(sem, before, env).value, env.Keys - PATH_ROOTS,
                 Run(sem, body, env).value);
    }
  }

  lemma RunSnoc(sem: Semantics, before: seq<Stmt>, s: Stmt, env: Env)
    ensures Run(sem, before + [s], env) ==
            var r := Run(sem, before, env); if r.Some? then Exec(sem, s, r.value) else None
  {
  }

  lemma {:induction false} RerunPrefix(sem: Semantics, body: seq<Stmt>, initial: set<Name>, start: Env, restart: Env,
                                       finished: Env, reset: Env)
    returns (was: Env, now: Env, again: Env)
    requires InStep(Scan([]), initial, start, restart, reset, finished) && start.Keys <= initial + PATH_ROOTS
    requires Regular(body, initial) && Run(sem, body, start).Some? && Extends(finished, Run(sem, body, start).value)
    ensures Run(sem, body, start) == Some(was) && Run(sem, body, restart) == Some(now)
    ensures Run(sem, Slice(body), reset) == Some(again)
    ensures InStep(Scan(body), initial, was, now, again, finished)
    decreases |body|
  {
    if body == [] {
      was, now, again := start, restart, reset;
    } else {
      var before, s := body[..|body| - 1], body[|body| - 1];
      RunKeys(sem, before, start, initial);
      PrefixKept(sem, Scan(before), s, Run(sem, before, start).value, initial, finished);
      was, now, again := RerunPrefix(sem, before, initial, start, restart, finished, reset);
      was, now, again := Step(sem, Scan(before), s, initial, was, now, again, finished);
      RunSnoc(sem, Slice(before), s, reset);
    }
  }

  /** `finished` binds everything `w` binds, and to the same value apart from the roots. */
  ghost predicate Extends(finished: Env, w: Env) {
    w.Keys <= finished.Keys && forall n :: n in w && n !in PATH_ROOTS ==> w[n] == finished[n]
  }

  /** A statement changes nothing that was bound before it. */
  lemma PrefixKept(sem: Semantics, m: Marks, s: Stmt, w: Env, initial: set<Name>, finished: Env)
    requires w.Keys <= initial + PATH_ROOTS + m.bound && (DefinesRoot(s) || Fits(m, s, initial))
    requires Exec(sem, s, w).Some? && Extends(finished, Exec(sem, s, w).value)
    ensures Extends(finished, w)
  {
  }

  /** Re-running the slice after changing the roots gives what importing the whole module with the new roots gives,
    * on every name except those that depend on a path without being re-run (the excluded names `configure`
    * rebuilds itself, and names bound by unpacking only). */
  lemma RerunIsRun(sem: Semantics, body: seq<Stmt>, initial: Env, oldRoots: Env, newRoots: Env)
    returns (now: Env, again: Env)
    requires oldRoots.Keys <= PATH_ROOTS && newRoots.Keys == PATH_ROOTS && initial.Keys !! PATH_ROOTS
    requires Regular(body, initial.Keys) && Run(sem, body, initial + oldRoots).Some?
    ensures Run(sem, body, initial + newRoots) == Some(now)
    ensures Run(sem, Slice(body), Run(sem, body, initial + oldRoots).value + newRoots) == Some(again)
    ensures again.Keys == now.Keys
    ensures forall n :: n in now && n !in Scan(body).stale ==> again[n] == now[n]
  {
    var finished := Run(sem, body, initial + oldRoots).value;
    assert (initial + oldRoots).Keys - PATH_ROOTS == initial.Keys;
    RunKeeps(sem, body, initial + oldRoots);
    var was;
    was, now, again := RerunPrefix(sem, body, initial.Keys, initial + oldRoots, initial + newRoots,
                                   finished, finished + newRoots);
  }

  /** After `n` statements: `x` depends on a path, and its statement is not kept, or kept and binds it by unpacking. */
  ghost predicate LostName(body: seq<Stmt>, n: nat, x: Name)
    requires n <= |body|
  {
    exists j :: 0 <= j < n && ReadsPath(body, j) && LosesAt(body, j, x)
  }

  ghost predicate LosesAt(body: seq<Stmt>, j: nat, x: Name)
    requires j < |body|
  {
    if Kept(body, j) then x in body[j].unpacked else !DefinesRoot(body[j]) && x in Bound(body[j])
  }

  /** `x` is bound by a statement that reads a path and is not kept, so the re-run leaves it as it was. */
  ghost predicate StaleName(body: seq<Stmt>, n: nat, x: Name)
    requires n <= |body|
  {
    exists j :: 0 <= j < n && ReadsPath(body, j) && !Kept(body, j) && !DefinesRoot(body[j]) && x in Bound(body[j])
  }

  ghost predicate BoundName(body: seq<Stmt>, n: nat, x: Name)
    requires n <= |body|
  {
    exists j :: 0 <= j < n && x in Bound(body[j])
  }

  /** The scan's other marks, by dependence. */
  lemma {:induction false} MarksFollow(body: seq<Stmt>, n: nat, x: Name)
    requires n <= |body|
    ensures x in Scan(body[..n]).lost <==> LostName(body, n, x)
    ensures x in Scan(body[..n]).stale <==> StaleName(body, n, x)
    ensures x in Scan(body[..n]).bound <==> BoundName(body, n, x)
  {
    if n > 0 {
      var k := n - 1;
      var m := Scan(body[..k]);
      MarksFollow(body, k, x);
      ScanFollows(body, k);
      SelectedIsKept(body, k, m.roots);
      ScanNext(body, k);
      MarkAt(m, body[k], x);
      LostNext(body, k, x);
      StaleNext(body, k, x);
    }
  }

  lemma ScanNext(body: seq<Stmt>, n: nat)
    requires n < |body|
    ensures Scan(body[..n + 1]) == Mark(Scan(body[..n]), body[n])
  {
    assert body[..n + 1][..n] == body[..n];
  }

  lemma MarkAt(m: Marks, s: Stmt, x: Name)
    ensures x in Mark(m, s).bound <==> x in m.bound || x in Bound(s)
    ensures x in Mark(m, s).lost <==>
            x in m.lost || if Selected(m.roots, s) then x in s.unpacked
                           else !DefinesRoot(s) && Names(s.value) * m.roots != {} && x in Bound(s)
    ensures x in Mark(m, s).stale <==>
            x in m.stale
            || (!Selected(m.roots, s) && !DefinesRoot(s) && Names(s.value) * m.roots != {} && x in Bound(s))
  {
  }

  lemma LostNext(body: seq<Stmt>, n: nat, x: Name)
    requires n < |body|
    ensures LostName(body, n + 1, x) <==> LostName(body, n, x) || (ReadsPath(body, n) && LosesAt(body, n, x))
  {
  }

  lemma StaleNext(body: seq<Stmt>, n: nat, x: Name)
    requires n < |body|
    ensures StaleName(body, n + 1, x) <==>
            StaleName(body, n, x)
            || (ReadsPath(body, n) && !Kept(body, n) && !DefinesRoot(body[n]) && x in Bound(body[n]))
  {
  }

  /** Statement `i` defines a root and nothing else, or binds names that are new, and reads none that is lost. */
  ghost predicate RegularAt(body: seq<Stmt>, i: nat, initial: set<Name>)
    requires i < |body|
  {
    if DefinesRoot(body[i]) then Bound(body[i]) <= PATH_ROOTS
    else
      && (forall x :: x in Bound(body[i]) ==> x !in initial && !BoundName(body, i, x))
      && forall x :: x in Names(body[i].value) ==> !LostName(body, i, x)
  }

  /** The condition under which the re-run is right, by dependence alone. */
  lemma {:induction false} RegularExactly(body: seq<Stmt>, n: nat, initial: set<Name>)
    requires n <= |body|
    ensures Regular(body[..n], initial) <==> forall i :: 0 <= i < n ==> RegularAt(body, i, initial)
  {
    if n > 0 {
      var k := n - 1;
      RegularExactly(body, k, initial);
      RegularNext(body, k, initial);
      assert (forall i :: 0 <= i < n ==> RegularAt(body, i, initial))
             <==> (forall i :: 0 <= i < k ==> RegularAt(body, i, initial)) && RegularAt(body, k, initial);
    }
  }

  lemma RegularNext(body: seq<Stmt>, k: nat, initial: set<Name>)
    requires k < |body|
    ensures Regular(body[..k + 1], initial) <==> Regular(body[..k], initial) && RegularAt(body, k, initial)
  {
    assert body[..k + 1][..k] == body[..k] && body[..k + 1][k] == body[k];
    if !DefinesRoot(body[k]) {
      FitsAt(body, k, initial);
    }
  }

  lemma FitsAt(body: seq<Stmt>, i: nat, initial: set<Name>)
    requires i < |body| && !DefinesRoot(body[i])
    ensures Fits(Scan(body[..i]), body[i], initial) <==> RegularAt(body, i, initial)
  {
    var m := Scan(body[..i]);
    forall x ensures (x in m.lost <==> LostName(body, i, x)) && (x in m.bound <==> BoundName(body, i, x)) {
      MarksFollow(body, i, x);
    }
  }

  const SAMPLE_NAVER := Assign(["NAVER"], [], Call("join", [Ref("VAULT"), Literal(1)]))
  const SAMPLE_AFF := Assign(["AFF"], [], Call("join", [Ref("NAVER"), Literal(2)]))
  const SAMPLE_CHAIN := [SAMPLE_NAVER, SAMPLE_AFF]

  /** `NAVER = join(VAULT, "naver")`, then `AFF = join(NAVER, "aff")`: both are kept. */
  lemma ChainIsKept()
    ensures KeptOf(SAMPLE_CHAIN, 2) == SAMPLE_CHAIN && KeptNames(SAMPLE_CHAIN, 2) == ["NAVER", "AFF"]
  {
    var body := SAMPLE_CHAIN;
    SampleNames();
    assert NamesRoot(body, 0) && Eligible(body, 0) && Kept(body, 0);
    assert NamesTarget(body, 1, 0) && Eligible(body, 1) && Kept(body, 1);
    assert KeptOf(body, 0) == [] && KeptNames(body, 0) == [];
    assert KeptOf(body, 1) == [] + [body[0]] && KeptNames(body, 1) == [] + ["NAVER"];
  }

  lemma SampleNames()
    ensures "VAULT" in Names(SAMPLE_NAVER.value) && "NAVER" in Names(SAMPLE_AFF.value)
  {
    assert "VAULT" in Names(Ref("VAULT")) && "NAVER" in Names(Ref("NAVER"));
    assert [Ref("VAULT"), Literal(1)][0] == Ref("VAULT") && [Ref("NAVER"), Literal(2)][0] == Ref("NAVER");
  }

  /** The re-run gives both what importing the module under the new roots gives them. */
  lemma ChainIsRerun(sem: Semantics, oldRoots: Env, newRoots: Env) returns (was: Env, now: Env, again: Env)
    requires oldRoots.Keys == newRoots.Keys == PATH_ROOTS
    ensures Run(sem, SAMPLE_CHAIN, oldRoots) == Some(was) && Run(sem, SAMPLE_CHAIN, newRoots) == Some(now)
    ensures Run(sem, KeptOf(SAMPLE_CHAIN, 2), was + newRoots) == Some(again) && again == now
    ensures var naver := sem("join", [newRoots["VAULT"], 1]);
            now == newRoots["NAVER" := naver]["AFF" := sem("join", [naver, 2])]
  {
    ChainIsKept();
    was := ChainRuns(sem, oldRoots);
    now := ChainRuns(sem, newRoots);
    again := ChainRuns(sem, was + newRoots);
    SameEnds(oldRoots, newRoots, was["NAVER"], was["AFF"], now["NAVER"], now["AFF"]);
  }

  lemma SameEnds(oldRoots: Env, newRoots: Env, a: Value, b: Value, c: Value, d: Value)
    requires oldRoots.Keys == newRoots.Keys == PATH_ROOTS
    ensures (oldRoots["NAVER" := a]["AFF" := b] + newRoots)["NAVER" := c]["AFF" := d]
            == newRoots["NAVER" := c]["AFF" := d]
    ensures (oldRoots["NAVER" := a]["AFF" := b] + newRoots)["VAULT"] == newRoots["VAULT"]
  {
  }

  lemma ChainRuns(sem: Semantics, env: Env) returns (after: Env)
    requires PATH_ROOTS <= env.Keys
    ensures Run(sem, SAMPLE_CHAIN, env) == Some(after)
    ensures var naver := sem("join", [env["VAULT"], 1]);
            after == env["NAVER" := naver]["AFF" := sem("join", [naver, 2])]
  {
    var naver := sem("join", [env["VAULT"], 1]);
    after := env["NAVER" := naver]["AFF" := sem("join", [naver, 2])];
    JoinIs(sem, "VAULT", 1, env);
    JoinIs(sem, "NAVER", 2, env["NAVER" := naver]);
    ExecNamed(sem, "NAVER", SAMPLE_NAVER.value, env);
    ExecNamed(sem, "AFF", SAMPLE_AFF.value, env["NAVER" := naver]);
    RunTwo(sem, SAMPLE_NAVER, SAMPLE_AFF, env);
  }

  lemma JoinIs(sem: Semantics, n: Name, v: Value, env: Env)
    requires n in env
    ensures Eval(sem, Call("join", [Ref(n), Literal(v)]), env) == Some(sem("join", [env[n], v]))
  {
    var one, both := [Literal(v)], [Ref(n), Literal(v)];
    assert one[1..] == [] && both[1..] == one;
    assert EvalAll(sem, one[1..], env) == Some([]) && Eval(sem, one[0], env) == Some(v);
    assert EvalAll(sem, one, env) == Some([v] + []) && [v] + [] == [v];
    assert Eval(sem, both[0], env) == Some(env[n]);
    assert EvalAll(sem, both, env) == Some([env[n]] + [v]) && [env[n]] + [v] == [env[n], v];
  }

  /** Each name being bound once is needed: with `a = VAULT; a = 0`, the re-run leaves `a` a path. */
  lemma ReassignedNameIsWrong(sem: Semantics, a: Name, root: Name, roots: Env, v: Value)
    requires roots.Keys == PATH_ROOTS && a !in PATH_ROOTS && a !in EXCLUDED && root in roots && roots[root] == v != 0
    ensures var body := [Assign([a], [], Ref(root)), Assign([a], [], Literal(0))];
            && Run(sem, body, roots) == Some(roots[a := 0]) && Scan(body).stale == {}
            && Run(sem, Slice(body), roots[a := 0] + roots) == Some(roots[a := v])
  {
    ReassignedRun(sem, a, root, roots, v);
    ReassignedSlice(a, root);
    ReassignedRerun(sem, a, root, roots, v);
  }

  lemma ReassignedRerun(sem: Semantics, a: Name, root: Name, roots: Env, v: Value)
    requires roots.Keys == PATH_ROOTS && a !in PATH_ROOTS && root in roots && roots[root] == v
    ensures Run(sem, [Assign([a], [], Ref(root))], roots[a := 0] + roots) == Some(roots[a := v])
  {
    RunOne(sem, Assign([a], [], Ref(root)), roots[a := 0] + roots);
    ExecNamed(sem, a, Ref(root), roots[a := 0] + roots);
    assert (roots[a := 0] + roots)[a := v] == roots[a := v];
  }

  lemma ReassignedRun(sem: Semantics, a: Name, root: Name, roots: Env, v: Value)
    requires roots.Keys == PATH_ROOTS && a !in PATH_ROOTS && root in roots && roots[root] == v
    ensures Run(sem, [Assign([a], [], Ref(root)), Assign([a], [], Literal(0))], roots) == Some(roots[a := 0])
  {
    var one, two := Assign([a], [], Ref(root)), Assign([a], [], Literal(0));
    ExecNamed(sem, a, Ref(root), roots);
    ExecNamed(sem, a, Literal(0), roots[a := v]);
    RunTwo(sem, one, two, roots);
    assert roots[a := v][a := 0] == roots[a := 0];
  }

  lemma RunOne(sem: Semantics, s: Stmt, env: Env)
    ensures Run(sem, [s], env) == Exec(sem, s, env)
  {
    RunSnoc(sem, [], s, env);
    assert [] + [s] == [s];
  }

  lemma ReassignedSlice(a: Name, root: Name)
    requires a !in PATH_ROOTS && a !in EXCLUDED && root in PATH_ROOTS
    ensures var body := [Assign([a], [], Ref(root)), Assign([a], [], Literal(0))];
            Slice(body) == [body[0]] && Scan(body).stale == {}
  {
    var one, two := Assign([a], [], Ref(root)), Assign([a], [], Literal(0));
    assert root in Names(one.value) * PATH_ROOTS;
    assert Selected(PATH_ROOTS, one) && !Selected(Scan([one]).roots, two);
    assert Names(two.value) == {} && !Passed(Scan([one]).roots, two);
    assert [one][..0] == [] && [one, two][..1] == [one];
    assert [] + [one] == [one] && Slice([one]) == [one] && Slice([one, two]) == [one];
  }

  /** So is the other condition: with `C_AC = VAULT; x = C_AC`, the re-run leaves `x` on the old path. */
  lemma LostNameIsWrong(sem: Semantics, c: Name, x: Name, root: Name, oldRoots: Env, newRoots: Env)
    requires oldRoots.Keys == newRoots.Keys == PATH_ROOTS && root in PATH_ROOTS && oldRoots[root] != newRoots[root]
    requires c in EXCLUDED && x !in EXCLUDED && x !in PATH_ROOTS && c !in PATH_ROOTS
    ensures var body := [Assign([c], [], Ref(root)), Assign([x], [], Ref(c))];
            && Run(sem, body, oldRoots) == Some(oldRoots[c := oldRoots[root]][x := oldRoots[root]])
            && Run(sem, body, newRoots) == Some(newRoots[c := newRoots[root]][x := newRoots[root]])
            && Slice(body) == [] && x !in Scan(body).stale
  {
    var one, two := Assign([c], [], Ref(root)), Assign([x], [], Ref(c));
    ExecNamed(sem, c, Ref(root), oldRoots);
    ExecNamed(sem, x, Ref(c), oldRoots[c := oldRoots[root]]);
    ExecNamed(sem, c, Ref(root), newRoots);
    ExecNamed(sem, x, Ref(c), newRoots[c := newRoots[root]]);
    RunTwo(sem, one, two, oldRoots);
    RunTwo(sem, one, two, newRoots);
    assert c in (set n | n in one.named) * EXCLUDED;
    assert !Selected(PATH_ROOTS, one) && !Selected(PATH_ROOTS, two);
  }

  lemma ExecNamed(sem: Semantics, n: Name, e: Expr, env: Env)
    requires n !in PATH_ROOTS && Eval(sem, e, env).Some?
    ensures Exec(sem, Assign([n], [], e), env) == Some(env[n := Eval(sem, e, env).value])
  {
    var s, v := Assign([n], [], e), Eval(sem, e, env).value;
    assert Bound(s) == {n};
    assert env + Bindings(sem, s, v) == env[n := v];
  }

  lemma RunTwo(sem: Semantics, one: Stmt, two: Stmt, env: Env)
    ensures Run(sem, [one, two], env) == var r := Exec(sem, one, env); if r.Some? then Exec(sem, two, r.value) else None
    ensures Scan([one, two]) == Mark(Mark(Scan([]), one), two) && Scan([one]) == Mark(Scan([]), one)
    ensures Slice([one]) == if Selected(PATH_ROOTS, one) then [one] else []
    ensures Slice([one, two]) == if Selected(Scan([one]).roots, two) then Slice([one]) + [two] else Slice([one])
  {
    RunSnoc(sem, [], one, env);
    RunSnoc(sem, [one], two, env);
    assert [one, two][..1] == [one] && [one][..0] == [] && [one] + [two] == [one, two] && [] + [one] == [one];
  }

  // ---------------------------------------------------------------------------------------------
  // Cutting by line spans
  // ---------------------------------------------------------------------------------------------

  /** Replace `lines[start..end]` by one text, or by nothing when it is empty. */
  datatype Span = Span(start: nat, end: nat, text: string)

  function Emit(s: Span): seq<string> {
    if s.text != "" then [s.text] else []
  }

  /** In source order, disjoint, and inside `lines[from..]`: what the nodes of one parsed file span. */
  predicate InOrder(lines: seq<string>, spans: seq<Span>, from: nat) {
    if spans == [] then from <= |lines|
    else from <= spans[0].start <= spans[0].end && InOrder(lines, spans[1..], spans[0].end)
  }

  lemma {:induction false} InOrderBounds(lines: seq<string>, spans: seq<Span>, from: nat)
    requires InOrder(lines, spans, from)
    ensures from <= |lines|
    ensures forall s :: s in spans ==> from <= s.start <= s.end <= |lines|
  {
    if spans != [] {
      InOrderBounds(lines, spans[1..], spans[0].end);
      assert forall s :: s in spans ==> s == spans[0] || s in spans[1..];
    }
  }

  /** One left-to-right pass: every line outside the spans, and each span's text once, in source order. */
  function OnePass(lines: seq<string>, spans: seq<Span>, from: nat): seq<string>
    requires InOrder(lines, spans, from)
  {
    if spans == [] then lines[from..]
    else
      InOrderBounds(lines, spans, from);
      assert spans[0] in spans;
      lines[from..spans[0].start] + Emit(spans[0]) + OnePass(lines, spans[1..], spans[0].end)
  }

  lemma {:induction false} InOrderSuffix(lines: seq<string>, spans: seq<Span>, from: nat, i: nat)
    requires InOrder(lines, spans, from) && i < |spans|
    ensures InOrder(lines, spans[i..], spans[i].start)
    ensures InOrder(lines, spans[i + 1..], spans[i].end)
    ensures i > 0 ==> spans[i - 1].end <= spans[i].start
  {
    if i > 0 {
      InOrderSuffix(lines, spans[1..], spans[0].end, i - 1);
      assert spans[1..][i - 1..] == spans[i..] && spans[1..][i..] == spans[i + 1..];
    }
  }

  /** The splicing loop of `_cut`: in place, from the last span back. */
  method Splice(lines: seq<string>, spans: seq<Span>) returns (out: seq<string>)
    requires InOrder(lines, spans, 0)
    ensures out == OnePass(lines, spans, 0)
  {
    out := lines;
    var i := |spans|;
    ghost var keep := |lines|;
    InOrderBounds(lines, spans, 0);
    while i > 0
      invariant 0 <= i <= |spans| && keep == if i < |spans| then spans[i].start else |lines|
      invariant InOrder(lines, spans[i..], keep) && keep <= |lines|
                && out == lines[..keep] + OnePass(lines, spans[i..], keep)
    {
      i := i - 1;
      var s := spans[i];
      InOrderSuffix(lines, spans, 0, i);
      if i + 1 < |spans| {
        InOrderSuffix(lines, spans, 0, i + 1);
      }
      SpliceOne(lines, spans[i..], keep, out);
      assert spans[i..][1..] == spans[i + 1..];
      out := out[..s.start] + Emit(s) + out[s.end..];
      keep := s.start;
    }
    PassFromEarlier(lines, spans[0..], 0, keep);
    assert spans[0..] == spans;
  }

  lemma SpliceOne(lines: seq<string>, spans: seq<Span>, keep: nat, out: seq<string>)
    requires spans != [] && spans[0].end <= keep <= |lines| && InOrder(lines, spans, spans[0].start)
    requires InOrder(lines, spans[1..], keep) && out == lines[..keep] + OnePass(lines, spans[1..], keep)
    ensures var s := spans[0];
            s.start <= s.end <= |out|
            && out[..s.start] + Emit(s) + out[s.end..] == lines[..s.start] + OnePass(lines, spans, s.start)
  {
    var s := spans[0];
    PassFromEarlier(lines, spans[1..], s.end, keep);
    var rest, tail := OnePass(lines, spans[1..], keep), OnePass(lines, spans[1..], s.end);
    AfterSpan(lines, out, rest, s.end, keep);
    assert tail == lines[s.end..keep] + rest;
    assert lines[s.start..s.start] == [];
  }

  lemma AfterSpan(lines: seq<string>, out: seq<string>, rest: seq<string>, end: nat, keep: nat)
    requires end <= keep <= |lines| && out == lines[..keep] + rest
    ensures out[end..] == lines[end..keep] + rest && forall i :: 0 <= i <= end ==> out[..i] == lines[..i]
  {
  }

  lemma Regroup(a: seq<string>, b: seq<string>, c: seq<string>, d: seq<string>)
    ensures a + b + c + d == a + (b + c + d)
  {
  }

  /** Starting the pass earlier copies the lines in between. */
  lemma PassFromEarlier(lines: seq<string>, spans: seq<Span>, from: nat, later: nat)
    requires from <= later && InOrder(lines, spans, from) && InOrder(lines, spans, later)
    ensures later <= |lines|
    ensures OnePass(lines, spans, from) == lines[from..later] + OnePass(lines, spans, later)
  {
    InOrderBounds(lines, spans, later);
    if spans != [] {
      assert spans[0] in spans;
      assert lines[from..later] + lines[later..spans[0].start] == lines[from..spans[0].start];
      Regroup(lines[from..later], lines[later..spans[0].start], Emit(spans[0]),
              OnePass(lines, spans[1..], spans[0].end));
    } else {
      assert lines[from..later] + lines[later..] == lines[from..];
    }
  }

  /** A top-level node of the parsed file and the lines it spans. */
  datatype Node = Function(name: Name, start: nat, end: nat) | MainGuard(start: nat, end: nat)
    | OtherNode(start: nat, end: nat)

  function Removal(n: Node, drop: set<Name>, swap: map<Name, string>): Option<Span> {
    match n
    case Function(name, start, end) =>
      if name in swap then Some(Span(start, end, swap[name]))
      else if name in drop then Some(Span(start, end, "")) else None
    case MainGuard(start, end) => Some(Span(start, end, ""))
    case OtherNode(_, _) => None
  }

  function Removals(nodes: seq<Node>, drop: set<Name>, swap: map<Name, string>): seq<Span> {
    if nodes == [] then []
    else
      var r := Removal(nodes[|nodes| - 1], drop, swap);
      Removals(nodes[..|nodes| - 1], drop, swap) + if r.Some? then [r.value] else []
  }

  /** What is removed of a file: the functions to replace, for their replacement, the others to drop, and the main
    * guard, for nothing. */
  lemma {:induction false} RemovalsExactly(nodes: seq<Node>, drop: set<Name>, swap: map<Name, string>, s: Span)
    ensures s in Removals(nodes, drop, swap) <==> exists i :: 0 <= i < |nodes| && RemovedAs(nodes[i], drop, swap, s)
  {
    if nodes != [] {
      var n := |nodes| - 1;
      RemovalsExactly(nodes[..n], drop, swap, s);
      assert Removal(nodes[n], drop, swap) == Some(s) <==> RemovedAs(nodes[n], drop, swap, s);
      if i :| 0 <= i < |nodes| && RemovedAs(nodes[i], drop, swap, s) && i < n {
        assert RemovedAs(nodes[..n][i], drop, swap, s);
      }
    }
  }

  ghost predicate RemovedAs(n: Node, drop: set<Name>, swap: map<Name, string>, s: Span) {
    && !n.OtherNode? && s.start == n.start && s.end == n.end
    && (n.MainGuard? ==> s.text == "")
    && (n.Function? ==> (n.name in swap || n.name in drop)
                        && (n.name in swap ==> s.text == swap[n.name]) && (n.name !in swap ==> s.text == ""))
  }

  /** Nodes follow one another: each starts where the one before it has ended, or later. */
  predicate Laid(nodes: seq<Node>, lines: seq<string>) {
    && (forall i :: 0 <= i < |nodes| ==> nodes[i].start <= nodes[i].end <= |lines|)
    && (forall i, j :: 0 <= i < j < |nodes| ==> nodes[i].end <= nodes[j].start)
  }

  /** `_cut`: refused when a function to remove or replace is gone, and otherwise one pass over the removals. */
  method Cut(lines: seq<string>, nodes: seq<Node>, drop: set<Name>, swap: map<Name, string>)
    returns (r: Option<seq<string>>)
    requires Laid(nodes, lines)
    ensures r.Some? <==> forall n :: n in drop || n in swap ==> exists x :: x in nodes && x.Function? && x.name == n
    ensures InOrder(lines, Removals(nodes, drop, swap), 0)
    ensures r.Some? ==> r.value == OnePass(lines, Removals(nodes, drop, swap), 0)
  {
    var spans: seq<Span> := [];
    var found: set<Name> := {};
    for i := 0 to |nodes|
      invariant spans == Removals(nodes[..i], drop, swap)
      invariant found == set x | x in nodes[..i] && x.Function? :: x.name
    {
      assert nodes[..i + 1][..|nodes[..i + 1]| - 1] == nodes[..i];
      assert forall x :: x in nodes[..i + 1] <==> x in nodes[..i] || x == nodes[i];
      var removal := Removal(nodes[i], drop, swap);
      if removal.Some? {
        spans := spans + [removal.value];
      }
      if nodes[i].Function? {
        found := found + {nodes[i].name};
      }
    }
    assert nodes[..|nodes|] == nodes;
    RemovalsInOrder(lines, nodes, drop, swap, |lines|);
    var missing := drop + swap.Keys - found;
    if missing != {} {
      var n :| n in missing;
      return None;
    }
    assert forall n :: n in drop + swap.Keys && n !in found ==> n in missing;
    var out := Splice(lines, spans);
    r := Some(out);
  }

  lemma {:induction false} RemovalsInOrder(lines: seq<string>, nodes: seq<Node>, drop: set<Name>,
                                           swap: map<Name, string>, limit: nat)
    requires Laid(nodes, lines) && limit <= |lines| && forall x :: x in nodes ==> x.end <= limit
    ensures InOrder(lines[..limit], Removals(nodes, drop, swap), 0)
    ensures limit == |lines| ==> InOrder(lines, Removals(nodes, drop, swap), 0)
  {
    assert lines[..|lines|] == lines;
    if nodes != [] {
      var before, x := nodes[..|nodes| - 1], nodes[|nodes| - 1];
      assert x in nodes;
      assert Laid(before, lines);
      forall y | y in before ensures y.end <= x.start {
        var i :| 0 <= i < |before| && before[i] == y;
        assert nodes[i].end <= nodes[|nodes| - 1].start;
      }
      RemovalsInOrder(lines, before, drop, swap, x.start);
      var r := Removal(x, drop, swap);
      InOrderExtend(lines[..x.start], lines[..limit], Removals(before, drop, swap), 0,
                    if r.Some? then [r.value] else []);
    }
  }

  lemma {:induction false} InOrderExtend(short: seq<string>, long: seq<string>, spans: seq<Span>, from: nat,
                                         last: seq<Span>)
    requires |short| <= |long| && InOrder(short, spans, from) && |last| <= 1
    requires last != [] ==> |short| <= last[0].start <= last[0].end <= |long|
    ensures InOrder(long, spans + last, from)
  {
    if spans == [] {
      assert [] + last == last;
      if last != [] {
        assert last[1..] == [];
      }
    } else {
      InOrderExtend(short, long, spans[1..], spans[0].end, last);
      assert (spans + last)[1..] == spans[1..] + last;
    }
  }

  /** The lines inside the spans: what `_keep` collects. */
  function Inside(lines: seq<string>, spans: seq<Span>, from: nat): seq<string>
    requires InOrder(lines, spans, from)
  {
    if spans == [] then []
    else
      InOrderBounds(lines, spans, from);
      assert spans[0] in spans;
      lines[spans[0].start..spans[0].end] + Inside(lines, spans[1..], spans[0].end)
  }

  /** The texts the spans are replaced by. */
  function Texts(spans: seq<Span>): seq<string> {
    if spans == [] then []
    else (if spans[0].text == "" then [] else [spans[0].text]) + Texts(spans[1..])
  }

  /** Keeping and cutting the same spans lose no line and copy none: what is cut and what is kept are the lines, and the
    * replacements, once each. */
  lemma {:induction false} KeepAndCutConserve(lines: seq<string>, spans: seq<Span>, from: nat)
    requires InOrder(lines, spans, from)
    ensures from <= |lines|
    ensures multiset(OnePass(lines, spans, from)) + multiset(Inside(lines, spans, from))
            == multiset(lines[from..]) + multiset(Texts(spans))
  {
    InOrderBounds(lines, spans, from);
    if spans != [] {
      var s, rest := spans[0], spans[1..];
      assert s in spans;
      KeepAndCutConserve(lines, rest, s.end);
      SplitAt(lines, from, s.start, s.end);
      Multisets(lines[from..s.start], lines[s.start..s.end], lines[s.end..], OnePass(lines, rest, s.end),
                Inside(lines, rest, s.end), if s.text == "" then [] else [s.text], Texts(rest));
    }
  }

  lemma Multisets(a: seq<string>, b: seq<string>, c: seq<string>, p: seq<string>, q: seq<string>, t: seq<string>,
                  ts: seq<string>)
    requires multiset(p) + multiset(q) == multiset(c) + multiset(ts)
    ensures multiset(a + t + p) + multiset(b + q) == multiset(a + (b + c)) + multiset(t + ts)
  {
    assert multiset(a + t + p) == multiset(a) + multiset(t) + multiset(p);
    assert multiset(b + q) == multiset(b) + multiset(q);
    assert multiset(a + (b + c)) == multiset(a) + multiset(b) + multiset(c);
    assert multiset(t + ts) == multiset(t) + multiset(ts);
    var left, right := multiset(a + t + p) + multiset(b + q), multiset(a + (b + c)) + multiset(t + ts);
    forall x ensures left[x] == right[x] {
      assert (multiset(p) + multiset(q))[x] == (multiset(c) + multiset(ts))[x];
    }
    assert left == right;
  }

  lemma SplitAt(lines: seq<string>, from: nat, start: nat, end: nat)
    requires from <= start <= end <= |lines|
    ensures lines[from..] == lines[from..start] + (lines[start..end] + lines[end..])
  {
  }
}
