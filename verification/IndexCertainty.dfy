/** scripts/build_diagnostic_code_index.py: whether the string the index gives a name is the only value the name can
  * hold, over every execution of the modules.
  *
  * The index reads top-level `NAME = "LITERAL"` and `from X import NAME` only; here a module's bindings in every form
  * are executed. */
module IndexCertainty {
  import opened Wrappers
  import opened DiagnosticCodeIndex

  // ---------------------------------------------------------------------------------------------
  // Executing the modules
  // ---------------------------------------------------------------------------------------------

  /** Where a binding's value comes from: a literal, what another module's name holds, or something not readable
    * here. */
  datatype Origin = Text(value: string) | Through(link: Link) | Opaque

  datatype Event = Event(name: Name, origin: Origin)

  /** The trees, and the root their absolute imports start from. */
  datatype Program = Program(trees: map<Path, Tree>, root: Path)

  function LinkIn(g: Program, p: Path, s: Source): Link {
    LinkOf(p, s, g.root, g.trees.Keys)
  }

  /** What `from X import *` reads for `n`. */
  function StarLink(g: Program, p: Path, s: Source, n: Name): Link {
    Link(ImportTarget(p, s, g.root, g.trees.Keys), n)
  }

  /** Every event binds one of `names` to a value not readable here; an exception may cut the rest short. */
  ghost predicate BindsSome(names: set<Name>, e: seq<Event>) {
    forall i :: 0 <= i < |e| ==> e[i].name in names && e[i].origin == Opaque
  }

  /** The bindings one execution of `s` makes, in order. Which statements of a block run, and how often, is open. */
  ghost predicate Ran(g: Program, p: Path, s: Stmt, e: seq<Event>)
    decreases s, |e|
  {
    match s
    case AssignLiteral(n, v) => e == [Event(n, Text(v))]
    case AssignOther(ns, us) => BindsSome(ns + us, e)
    case Annotate(_) => e == []
    case ImportFrom(src, n) => e == [Event(n, Through(LinkIn(g, p, src)))]
    case StarImport(src) => forall i :: 0 <= i < |e| ==> e[i].origin == Through(StarLink(g, p, src, e[i].name))
    case Define(ns) => BindsSome(ns, e)
    case Block(ns, body) =>
      e == [] || exists k :: 0 < k <= |e| && RanPart(g, p, ns, body, e[..k]) && Ran(g, p, s, e[k..])
  }

  /** One header binding of a block, or one execution of one of its statements. */
  ghost predicate RanPart(g: Program, p: Path, ns: set<Name>, body: seq<Stmt>, e: seq<Event>)
    decreases body, |e|
  {
    BindsSome(ns, e) || exists i :: 0 <= i < |body| && Ran(g, p, body[i], e)
  }

  /** The statements of a module body, one after the other. */
  ghost predicate RanBody(g: Program, p: Path, body: seq<Stmt>, e: seq<Event>)
    decreases |body|
  {
    if body == [] then e == []
    else exists k :: 0 <= k <= |e| && RanBody(g, p, body[..|body| - 1], e[..k]) && Ran(g, p, body[|body| - 1], e[k..])
  }

  /** A history of the module's bindings: its body, then what its functions rebind when they are called. */
  ghost predicate History(g: Program, p: Path, e: seq<Event>)
    requires p in g.trees
  {
    exists k :: 0 <= k <= |e| && RanBody(g, p, g.trees[p].body, e[..k]) && BindsSome(g.trees[p].rebound, e[k..])
  }

  /** The binding of `n` in force after `e`. */
  function Current(e: seq<Event>, n: Name): Option<Origin> {
    if e == [] then None
    else if e[|e| - 1].name == n then Some(e[|e| - 1].origin) else Current(e[..|e| - 1], n)
  }

  /** At some moment of some history the binding of `n` in force is `o`. */
  ghost predicate InForce(g: Program, p: Path, n: Name, o: Origin)
    requires p in g.trees
  {
    exists e, k :: History(g, p, e) && 0 <= k <= |e| && Current(e[..k], n) == Some(o)
  }

  /** At some moment of some execution `n` in `p` holds the string `x`, or (`None`) something the index cannot read.
    * `h` bounds the import chain the value came through. */
  ghost predicate Holds(g: Program, h: nat, p: Path, n: Name, x: Option<string>)
    decreases h, 1
  {
    p in g.trees && exists o :: InForce(g, p, n, o) && Gives(g, h, o, x)
  }

  ghost predicate Gives(g: Program, h: nat, o: Origin, x: Option<string>)
    decreases h, 0
  {
    match o
    case Text(v) => x == Some(v)
    case Opaque => x == None
    case Through(l) => if l.target.None? then x == None else h > 0 && Holds(g, h - 1, l.target.value, l.imported, x)
  }

  /** Whatever runs, `n` in `p` holds nothing but the string `c`. */
  ghost predicate Certain(g: Program, p: Path, n: Name, c: string) {
    forall h, x :: Holds(g, h, p, n, x) ==> x == Some(c)
  }

  // ---------------------------------------------------------------------------------------------
  // Reading the same off the statements
  // ---------------------------------------------------------------------------------------------

  /** Some form of binding in `s`, at any depth, binds `n` from `o`. */
  ghost predicate Binds(g: Program, p: Path, s: Stmt, n: Name, o: Origin)
    decreases s
  {
    match s
    case AssignLiteral(m, v) => n == m && o == Text(v)
    case AssignOther(ns, us) => n in ns + us && o == Opaque
    case Annotate(_) => false
    case ImportFrom(src, m) => n == m && o == Through(LinkIn(g, p, src))
    case StarImport(src) => o == Through(StarLink(g, p, src, n))
    case Define(ns) => n in ns && o == Opaque
    case Block(ns, body) => (n in ns && o == Opaque) || exists i :: 0 <= i < |body| && Binds(g, p, body[i], n, o)
  }

  ghost predicate BodyBinds(g: Program, p: Path, body: seq<Stmt>, n: Name, o: Origin) {
    exists i :: 0 <= i < |body| && Binds(g, p, body[i], n, o)
  }

  ghost predicate TreeBinds(g: Program, p: Path, n: Name, o: Origin)
    requires p in g.trees
  {
    BodyBinds(g, p, g.trees[p].body, n, o) || (n in g.trees[p].rebound && o == Opaque)
  }

  /** What the statements say `n` may hold, following imports. */
  ghost predicate May(g: Program, h: nat, p: Path, n: Name, x: Option<string>)
    decreases h, 1
  {
    p in g.trees && exists o :: TreeBinds(g, p, n, o) && MayGive(g, h, o, x)
  }

  ghost predicate MayGive(g: Program, h: nat, o: Origin, x: Option<string>)
    decreases h, 0
  {
    match o
    case Text(v) => x == Some(v)
    case Opaque => x == None
    case Through(l) => if l.target.None? then x == None else h > 0 && May(g, h - 1, l.target.value, l.imported, x)
  }

  lemma {:induction false} CurrentIsBound(e: seq<Event>, n: Name)
    ensures Current(e, n).Some? ==> Event(n, Current(e, n).value) in e
  {
    if e != [] && e[|e| - 1].name != n {
      CurrentIsBound(e[..|e| - 1], n);
    }
  }

  /** An execution binds only what the statement's forms bind. */
  lemma {:induction false} RanBinds(g: Program, p: Path, s: Stmt, e: seq<Event>, i: nat)
    requires Ran(g, p, s, e) && i < |e|
    ensures Binds(g, p, s, e[i].name, e[i].origin)
    decreases s, |e|
  {
    if s.Block? {
      var k :| 0 < k <= |e| && RanPart(g, p, s.headers, s.body, e[..k]) && Ran(g, p, s, e[k..]);
      if i >= k {
        RanBinds(g, p, s, e[k..], i - k);
      } else if !BindsSome(s.headers, e[..k]) {
        var j :| 0 <= j < |s.body| && Ran(g, p, s.body[j], e[..k]);
        RanBinds(g, p, s.body[j], e[..k], i);
        assert e[..k][i] == e[i];
      } else {
        assert e[..k][i] == e[i];
      }
    }
  }

  lemma LongerBodyBinds(g: Program, p: Path, body: seq<Stmt>, k: nat, n: Name, o: Origin)
    requires k <= |body| && BodyBinds(g, p, body[..k], n, o)
    ensures BodyBinds(g, p, body, n, o)
  {
    var j :| 0 <= j < k && Binds(g, p, body[..k][j], n, o);
    assert body[..k][j] == body[j];
  }

  lemma SplitBody(g: Program, p: Path, body: seq<Stmt>, e: seq<Event>) returns (k: nat)
    requires body != [] && RanBody(g, p, body, e)
    ensures k <= |e| && RanBody(g, p, body[..|body| - 1], e[..k]) && Ran(g, p, body[|body| - 1], e[k..])
  {
    k :| 0 <= k <= |e| && RanBody(g, p, body[..|body| - 1], e[..k]) && Ran(g, p, body[|body| - 1], e[k..]);
  }

  lemma {:induction false} BodyRanBinds(g: Program, p: Path, body: seq<Stmt>, e: seq<Event>, i: nat)
    requires RanBody(g, p, body, e) && i < |e|
    ensures BodyBinds(g, p, body, e[i].name, e[i].origin)
    decreases |body|
  {
    var n: nat := |body| - 1;
    var k := SplitBody(g, p, body, e);
    if i < k {
      BodyRanBinds(g, p, body[..n], e[..k], i);
      LongerBodyBinds(g, p, body, n, e[i].name, e[i].origin);
    } else {
      RanBinds(g, p, body[n], e[k..], i - k);
    }
  }

  lemma HistoryBinds(g: Program, p: Path, e: seq<Event>, i: nat)
    requires p in g.trees && History(g, p, e) && i < |e|
    ensures TreeBinds(g, p, e[i].name, e[i].origin)
  {
    var k :| 0 <= k <= |e| && RanBody(g, p, g.trees[p].body, e[..k]) && BindsSome(g.trees[p].rebound, e[k..]);
    if i < k {
      BodyRanBinds(g, p, g.trees[p].body, e[..k], i);
      assert e[..k][i] == e[i];
    } else {
      assert e[k..][i - k] == e[i];
    }
  }

  /** Each binding form of a statement has an execution that ends with it. */
  lemma {:induction false} BindsRan(g: Program, p: Path, s: Stmt, n: Name, o: Origin) returns (e: seq<Event>)
    requires Binds(g, p, s, n, o)
    ensures Ran(g, p, s, e) && e != [] && e[|e| - 1] == Event(n, o)
    decreases s
  {
    e := [Event(n, o)];
    if s.Block? {
      if !(n in s.headers && o == Opaque) {
        var i :| 0 <= i < |s.body| && Binds(g, p, s.body[i], n, o);
        e := BindsRan(g, p, s.body[i], n, o);
      }
      assert e[..|e|] == e;
      assert RanPart(g, p, s.headers, s.body, e[..|e|]);
      assert Ran(g, p, s, e[|e|..]);
    }
  }

  /** Every statement can be executed. */
  lemma SomeRun(g: Program, p: Path, s: Stmt) returns (e: seq<Event>)
    ensures Ran(g, p, s, e)
  {
    match s
    case AssignLiteral(n, v) => e := [Event(n, Text(v))];
    case ImportFrom(src, n) => e := [Event(n, Through(LinkIn(g, p, src)))];
    case _ => e := [];
  }

  lemma RanSnoc(g: Program, p: Path, body: seq<Stmt>, s: Stmt, before: seq<Event>, e: seq<Event>)
    requires RanBody(g, p, body, before) && Ran(g, p, s, e)
    ensures RanBody(g, p, body + [s], before + e)
  {
    var all := before + e;
    assert (body + [s])[..|body|] == body && all[..|before|] == before && all[|before|..] == e;
  }

  lemma {:induction false} BodyBindsRan(g: Program, p: Path, body: seq<Stmt>, n: Name, o: Origin)
    returns (e: seq<Event>, k: nat)
    requires BodyBinds(g, p, body, n, o)
    ensures RanBody(g, p, body, e) && k < |e| && e[k] == Event(n, o)
    decreases |body|
  {
    var before, s := body[..|body| - 1], body[|body| - 1];
    assert body == before + [s];
    if Binds(g, p, s, n, o) {
      e, k := LastBindsRan(g, p, before, s, n, o);
    } else {
      var i :| 0 <= i < |body| && Binds(g, p, body[i], n, o);
      assert Binds(g, p, before[i], n, o);
      var first, j := BodyBindsRan(g, p, before, n, o);
      e := ThenRan(g, p, before, s, first);
      k := j;
    }
  }

  lemma LastBindsRan(g: Program, p: Path, before: seq<Stmt>, s: Stmt, n: Name, o: Origin)
    returns (e: seq<Event>, k: nat)
    requires Binds(g, p, s, n, o)
    ensures RanBody(g, p, before + [s], e) && k < |e| && e[k] == Event(n, o)
  {
    var first := SomeBodyRun(g, p, before);
    var last := BindsRan(g, p, s, n, o);
    RanSnoc(g, p, before, s, first, last);
    e, k := first + last, |first| + |last| - 1;
  }

  lemma ThenRan(g: Program, p: Path, before: seq<Stmt>, s: Stmt, first: seq<Event>) returns (e: seq<Event>)
    requires RanBody(g, p, before, first)
    ensures RanBody(g, p, before + [s], e) && first <= e
  {
    var last := SomeRun(g, p, s);
    RanSnoc(g, p, before, s, first, last);
    e := first + last;
  }

  lemma {:induction false} SomeBodyRun(g: Program, p: Path, body: seq<Stmt>) returns (e: seq<Event>)
    ensures RanBody(g, p, body, e)
    decreases |body|
  {
    e := [];
    if body != [] {
      var n := |body| - 1;
      var before := SomeBodyRun(g, p, body[..n]);
      var last := SomeRun(g, p, body[n]);
      RanSnoc(g, p, body[..n], body[n], before, last);
      assert body[..n] + [body[n]] == body;
      e := before + last;
    }
  }

  /** What can be in force is what some form of the module binds. */
  lemma InForceIsBound(g: Program, p: Path, n: Name, o: Origin)
    requires p in g.trees
    ensures InForce(g, p, n, o) <==> TreeBinds(g, p, n, o)
  {
    if InForce(g, p, n, o) {
      var e, k :| History(g, p, e) && 0 <= k <= |e| && Current(e[..k], n) == Some(o);
      CurrentIsBound(e[..k], n);
      var i :| 0 <= i < k && e[..k][i] == Event(n, o);
      HistoryBinds(g, p, e, i);
    }
    if TreeBinds(g, p, n, o) {
      BoundComesInForce(g, p, n, o);
    }
  }

  lemma ThenCurrent(g: Program, p: Path, e: seq<Event>, k: nat, n: Name, o: Origin)
    requires p in g.trees && History(g, p, e) && k < |e| && e[k] == Event(n, o)
    ensures InForce(g, p, n, o)
  {
    assert e[..k + 1][k] == Event(n, o);
    assert Current(e[..k + 1], n) == Some(o);
  }

  lemma BodyThenFunctions(g: Program, p: Path, run: seq<Event>, more: seq<Event>)
    requires p in g.trees && RanBody(g, p, g.trees[p].body, run) && BindsSome(g.trees[p].rebound, more)
    ensures History(g, p, run + more)
  {
    var e := run + more;
    assert e[..|run|] == run && e[|run|..] == more;
  }

  lemma BoundComesInForce(g: Program, p: Path, n: Name, o: Origin)
    requires p in g.trees && TreeBinds(g, p, n, o)
    ensures InForce(g, p, n, o)
  {
    if BodyBinds(g, p, g.trees[p].body, n, o) {
      var e, k := BodyBindsRan(g, p, g.trees[p].body, n, o);
      BodyThenFunctions(g, p, e, []);
      assert e + [] == e;
      ThenCurrent(g, p, e, k, n, o);
    } else {
      var run := SomeBodyRun(g, p, g.trees[p].body);
      BodyThenFunctions(g, p, run, [Event(n, o)]);
      ThenCurrent(g, p, run + [Event(n, o)], |run|, n, o);
    }
  }

  /** A name can hold a value in some execution exactly when the statements, followed through imports, say so. */
  lemma {:induction false} HoldsExactly(g: Program, h: nat, p: Path, n: Name, x: Option<string>)
    ensures Holds(g, h, p, n, x) <==> May(g, h, p, n, x)
    decreases h
  {
    if p in g.trees {
      forall o ensures InForce(g, p, n, o) && Gives(g, h, o, x) <==> TreeBinds(g, p, n, o) && MayGive(g, h, o, x) {
        InForceIsBound(g, p, n, o);
        if o.Through? && o.link.target.Some? && h > 0 {
          HoldsExactly(g, h - 1, o.link.target.value, o.link.imported, x);
        }
      }
    }
  }

  // ---------------------------------------------------------------------------------------------
  // When what is indexed is certain
  // ---------------------------------------------------------------------------------------------

  /** A binding of `n` in `p` through a form the index does not read: anything but a literal or an import of one name
    * at the top level of the module. */
  ghost predicate Stray(g: Program, p: Path, n: Name, o: Origin)
    requires p in g.trees
  {
    || (n in g.trees[p].rebound && o == Opaque)
    || exists i :: 0 <= i < |g.trees[p].body| && !g.trees[p].body[i].AssignLiteral? && !g.trees[p].body[i].ImportFrom?
                   && Binds(g, p, g.trees[p].body[i], n, o)
  }

  /** The statements the origin leads to, followed through imports, are the literal `c` and nothing else. */
  ghost predicate OnlyGives(g: Program, o: Origin, c: string) {
    forall h, x :: MayGive(g, h, o, x) ==> x == Some(c)
  }

  ghost predicate StraysAgree(g: Program, p: Path, n: Name, c: string)
    requires p in g.trees
  {
    forall o :: Stray(g, p, n, o) ==> OnlyGives(g, o, c)
  }

  /** At every module the index reads `n` in `p` through, whatever else binds the name leads to `c` alone. */
  ghost predicate NothingElse(g: Program, w: World, h: nat, p: Path, n: Name, c: string)
    decreases h
  {
    && p in g.trees && StraysAgree(g, p, n, c)
    && (IsRelay(w, {}, p, n) ==>
          h > 0 && forall l :: l in w[p].imports[n] ==>
            l.target.Some? && NothingElse(g, w, h - 1, l.target.value, l.imported, c))
  }

  /** Every form of binding is one the index reads or a stray one. */
  lemma ReadOrStray(g: Program, p: Path, n: Name, o: Origin)
    requires p in g.trees
    ensures TreeBinds(g, p, n, o) <==>
            || Stray(g, p, n, o)
            || (o.Text? && AssignsLiteral(g.trees[p].body, n, o.value))
            || (o.Through? && o.link in LinksOf(p, g.trees[p].body, g.root, g.trees.Keys, n))
  {
    var body := g.trees[p].body;
    if o.Through? {
      LinksOfExactly(p, body, g.root, g.trees.Keys, n, o.link);
      if o.link in LinksOf(p, body, g.root, g.trees.Keys, n) {
        var i :| 0 <= i < |body| && body[i].ImportFrom? && body[i].bound == n
                 && o.link == LinkOf(p, body[i].source, g.root, g.trees.Keys);
        assert Binds(g, p, body[i], n, o);
      }
    }
    if o.Text? && AssignsLiteral(body, n, o.value) {
      var i :| 0 <= i < |body| && body[i] == AssignLiteral(n, o.value);
      assert Binds(g, p, body[i], n, o);
    }
    if BodyBinds(g, p, body, n, o) {
      var i :| 0 <= i < |body| && Binds(g, p, body[i], n, o);
      assert body[i] in body;
    }
  }

  /** A name is certain exactly when each of its bindings, in any form, leads to `c` alone. */
  lemma CertainByBindings(g: Program, p: Path, n: Name, c: string)
    requires p in g.trees
    ensures Certain(g, p, n, c) <==> forall o :: TreeBinds(g, p, n, o) ==> OnlyGives(g, o, c)
  {
    if Certain(g, p, n, c) {
      forall o, h, x | TreeBinds(g, p, n, o) && MayGive(g, h, o, x) ensures x == Some(c) {
        HoldsExactly(g, h, p, n, x);
        assert May(g, h, p, n, x);
      }
    }
    if forall o :: TreeBinds(g, p, n, o) ==> OnlyGives(g, o, c) {
      forall h, x | Holds(g, h, p, n, x) ensures x == Some(c) {
        HoldsExactly(g, h, p, n, x);
        var o :| TreeBinds(g, p, n, o) && MayGive(g, h, o, x);
      }
    }
  }

  lemma LinkCertain(g: Program, l: Link, c: string)
    requires l.target.Some?
    ensures OnlyGives(g, Through(l), c) <==> Certain(g, l.target.value, l.imported, c)
  {
    forall h: nat, x ensures Holds(g, h, l.target.value, l.imported, x) <==> MayGive(g, h + 1, Through(l), x) {
      HoldsExactly(g, h, l.target.value, l.imported, x);
    }
    forall h: nat, x | MayGive(g, h, Through(l), x) ensures h > 0 {
    }
    if Certain(g, l.target.value, l.imported, c) {
      forall h: nat, x | MayGive(g, h, Through(l), x) ensures x == Some(c) {
        var k: nat := h - 1;
        assert Holds(g, k, l.target.value, l.imported, x);
      }
    }
  }

  /** What the index reads of an own constant is its one literal. */
  lemma OwnReads(g: Program, w: World, p: Path, n: Name, c: string)
    requires WorldOf(g.trees, g.root, w) && IsOwn(w, p, n, c)
    ensures forall v :: AssignsLiteral(g.trees[p].body, n, v) ==> v == c
    ensures LinksOf(p, g.trees[p].body, g.root, g.trees.Keys, n) == []
  {
    assert FactsOf(p, g.trees[p], g.root, g.trees.Keys, w[p]);
    assert SoleLiteral(g.trees[p].body, n, c);
  }

  /** What it reads of an imported name is its import bindings. */
  lemma RelayReads(g: Program, w: World, p: Path, n: Name)
    requires WorldOf(g.trees, g.root, w) && IsRelay(w, {}, p, n)
    ensures forall v :: !AssignsLiteral(g.trees[p].body, n, v)
    ensures LinksOf(p, g.trees[p].body, g.root, g.trees.Keys, n) == w[p].imports[n]
  {
    assert FactsOf(p, g.trees[p], g.root, g.trees.Keys, w[p]);
    assert !Assigns(g.trees[p].body, n);
  }

  lemma OwnCertainExactly(g: Program, w: World, p: Path, n: Name, c: string)
    requires WorldOf(g.trees, g.root, w) && IsOwn(w, p, n, c)
    ensures Certain(g, p, n, c) <==> StraysAgree(g, p, n, c)
  {
    OwnReads(g, w, p, n, c);
    CertainByBindings(g, p, n, c);
    forall o
      ensures TreeBinds(g, p, n, o) <==> Stray(g, p, n, o) || (o == Text(c) && AssignsLiteral(g.trees[p].body, n, c))
    {
      ReadOrStray(g, p, n, o);
    }
    assert OnlyGives(g, Text(c), c);
  }

  lemma RelayCertain(g: Program, w: World, p: Path, n: Name, c: string)
    requires WorldOf(g.trees, g.root, w) && IsRelay(w, {}, p, n) && forall l :: l in w[p].imports[n] ==> l.target.Some?
    ensures Certain(g, p, n, c) <==>
            StraysAgree(g, p, n, c) && forall l :: l in w[p].imports[n] ==> Certain(g, l.target.value, l.imported, c)
  {
    RelayReads(g, w, p, n);
    CertainByBindings(g, p, n, c);
    forall o ensures TreeBinds(g, p, n, o) <==> Stray(g, p, n, o) || (o.Through? && o.link in w[p].imports[n]) {
      ReadOrStray(g, p, n, o);
    }
    forall l | l in w[p].imports[n] ensures OnlyGives(g, Through(l), c) <==> Certain(g, l.target.value, l.imported, c) {
      LinkCertain(g, l, c);
    }
    if forall o :: TreeBinds(g, p, n, o) ==> OnlyGives(g, o, c) {
      forall l | l in w[p].imports[n] ensures OnlyGives(g, Through(l), c) {
        assert TreeBinds(g, p, n, Through(l));
      }
    }
  }

  /** An indexed name can hold nothing but the string the index gives it, in any execution of the modules, exactly when
    * nothing else binds it to anything else, at any module the index reads it through, in any form the index does not
    * read: nested under a statement, starred, defined, unpacked, reassigned or rebound by a function. */
  lemma {:induction false} IndexedIsCertain(g: Program, w: World, h: nat, p: Path, n: Name, c: string)
    requires WorldOf(g.trees, g.root, w) && DenotesIn(w, {}, h, p, n, c)
    ensures Certain(g, p, n, c) <==> NothingElse(g, w, h, p, n, c)
    decreases h
  {
    if IsOwn(w, p, n, c) {
      OwnCertainExactly(g, w, p, n, c);
    } else {
      assert AllDenoteIn(w, {}, h - 1, w[p].imports[n], c);
      forall l | l in w[p].imports[n]
        ensures Certain(g, l.target.value, l.imported, c) <==> NothingElse(g, w, h - 1, l.target.value, l.imported, c)
      {
        IndexedIsCertain(g, w, h - 1, l.target.value, l.imported, c);
      }
      RelayCertain(g, w, p, n, c);
    }
  }

  ghost predicate NoStrays(g: Program) {
    forall q, m, o :: q in g.trees ==> !Stray(g, q, m, o)
  }

  lemma {:induction false} NoStraysNothingElse(g: Program, w: World, h: nat, p: Path, n: Name, c: string)
    requires w.Keys == g.trees.Keys && DenotesIn(w, {}, h, p, n, c) && NoStrays(g)
    ensures NothingElse(g, w, h, p, n, c)
    decreases h
  {
    if IsRelay(w, {}, p, n) {
      forall l | l in w[p].imports[n]
        ensures l.target.Some? && NothingElse(g, w, h - 1, l.target.value, l.imported, c)
      {
        NoStraysNothingElse(g, w, h - 1, l.target.value, l.imported, c);
      }
    }
  }

  /** In particular everything indexed is certain where no module binds a name through such a form. */
  lemma NoStraysAllCertain(g: Program, w: World, p: Path, n: Name, c: string)
    requires WorldOf(g.trees, g.root, w) && Denotes(w, {}, p, n, c) && NoStrays(g)
    ensures Certain(g, p, n, c)
  {
    var h: nat :| DenotesIn(w, {}, h, p, n, c);
    NoStraysNothingElse(g, w, h, p, n, c);
    IndexedIsCertain(g, w, h, p, n, c);
  }

  // ---------------------------------------------------------------------------------------------
  // Each such form alone makes the index say more than is certain
  // ---------------------------------------------------------------------------------------------

  /** One module: a literal, then one more statement. */
  function After(p: Path, root: Path, n: Name, v: string, s: Stmt): Program {
    Program(map[p := Tree([AssignLiteral(n, v), s], {}, {}, {})], root)
  }

  function AfterFacts(n: Name, v: string, s: Stmt): Facts {
    Facts(map[n := v], map[], {n} + TargetsOf(s))
  }

  lemma AfterAssigns(n: Name, v: string, s: Stmt, m: Name)
    requires !s.AssignLiteral?
    ensures Assigns([AssignLiteral(n, v), s], m) <==> m == n || m in TargetsOf(s)
    ensures forall u :: AssignsLiteral([AssignLiteral(n, v), s], m, u) <==> m == n && u == v
  {
    var first := AssignLiteral(n, v);
    AssignsLast([], first, m);
    AssignsLast([first], s, m);
    assert [] + [first] == [first] && [first] + [s] == [first, s];
  }

  lemma AfterLinks(p: Path, root: Path, known: set<Path>, n: Name, v: string, s: Stmt, m: Name)
    requires !s.ImportFrom?
    ensures LinksOf(p, [AssignLiteral(n, v), s], root, known, m) == []
  {
    var first := AssignLiteral(n, v);
    LinksOfLast(p, [], first, root, known, m);
    LinksOfLast(p, [first], s, root, known, m);
    assert [] + [first] == [first] && [first] + [s] == [first, s];
  }

  lemma AfterFactsHold(p: Path, root: Path, known: set<Path>, n: Name, v: string, s: Stmt)
    requires !s.AssignLiteral? && !s.ImportFrom?
    ensures FactsOf(p, Tree([AssignLiteral(n, v), s], {}, {}, {}), root, known, AfterFacts(n, v, s))
  {
    var body := [AssignLiteral(n, v), s];
    forall m ensures LinksOf(p, body, root, known, m) == [] {
      AfterLinks(p, root, known, n, v, s, m);
    }
    forall m ensures Assigns(body, m) <==> m in {n} + TargetsOf(s) {
      AfterAssigns(n, v, s, m);
    }
    forall m, u ensures SoleLiteral(body, m, u) <==> m == n && u == v {
      AfterAssigns(n, v, s, m);
    }
  }

  lemma AfterIsIndexed(p: Path, root: Path, n: Name, v: string, s: Stmt)
    requires !s.AssignLiteral? && !s.ImportFrom?
    ensures var g := After(p, root, n, v, s);
            var w: World := map[p := AfterFacts(n, v, s)];
            WorldOf(g.trees, root, w) && Denotes(w, {}, p, n, v)
  {
    AfterFactsHold(p, root, {p}, n, v, s);
    assert After(p, root, n, v, s).trees.Keys == {p};
    OwnDenotes(map[p := AfterFacts(n, v, s)], {}, p, n);
  }

  /** A second statement that binds the name to anything else leaves it indexed and not certain. */
  lemma AfterIsNotCertain(p: Path, root: Path, n: Name, v: string, s: Stmt, o: Origin, x: Option<string>)
    requires !s.AssignLiteral? && !s.ImportFrom?
    requires var g := After(p, root, n, v, s); Binds(g, p, s, n, o) && MayGive(g, 0, o, x) && x != Some(v)
    ensures var g := After(p, root, n, v, s);
            var w: World := map[p := AfterFacts(n, v, s)];
            WorldOf(g.trees, root, w) && Denotes(w, {}, p, n, v) && Holds(g, 0, p, n, x) && !Certain(g, p, n, v)
  {
    var g := After(p, root, n, v, s);
    AfterIsIndexed(p, root, n, v, s);
    assert Binds(g, p, g.trees[p].body[1], n, o);
    assert May(g, 0, p, n, x);
    HoldsExactly(g, 0, p, n, x);
  }

  /** `CODE = "A"`, then `CODE = build()`, `CODE, x = build()`, `def CODE` or `import x as CODE`. */
  lemma ReboundIsStillIndexed(p: Path, root: Path, n: Name, v: string, s: Stmt)
    requires s == AssignOther({n}, {}) || s == AssignOther({}, {n}) || s == Define({n})
    ensures var g := After(p, root, n, v, s);
            WorldOf(g.trees, root, map[p := AfterFacts(n, v, s)]) && Denotes(map[p := AfterFacts(n, v, s)], {}, p, n, v)
            && Holds(g, 0, p, n, None) && !Certain(g, p, n, v)
  {
    AfterIsNotCertain(p, root, n, v, s, Opaque, None);
  }

  /** `CODE = "A"`, then `if FLAG: CODE = "B"`. */
  lemma NestedIsStillIndexed(p: Path, root: Path, n: Name, v: string, u: string)
    requires u != v
    ensures var s := Block({}, [AssignLiteral(n, u)]);
            var g := After(p, root, n, v, s);
            WorldOf(g.trees, root, map[p := AfterFacts(n, v, s)]) && Denotes(map[p := AfterFacts(n, v, s)], {}, p, n, v)
            && Holds(g, 0, p, n, Some(u)) && !Certain(g, p, n, v)
  {
    var s := Block({}, [AssignLiteral(n, u)]);
    assert Binds(After(p, root, n, v, s), p, s.body[0], n, Text(u));
    AfterIsNotCertain(p, root, n, v, s, Text(u), Some(u));
  }

  /** `CODE = "A"`, then `from codes import *`, where `codes` is no parsed file. */
  lemma StarredIsStillIndexed(n: Name, v: string)
    ensures var p: Path, s := ["module.py"], StarImport(Source(0, ["codes"], ""));
            var g := After(p, [], n, v, s);
            WorldOf(g.trees, [], map[p := AfterFacts(n, v, s)]) && Denotes(map[p := AfterFacts(n, v, s)], {}, p, n, v)
            && Holds(g, 0, p, n, None) && !Certain(g, p, n, v)
  {
    var p: Path, s := ["module.py"], StarImport(Source(0, ["codes"], ""));
    var g := After(p, [], n, v, s);
    NoSuchFile(s.source, p);
    AfterIsNotCertain(p, [], n, v, s, Through(StarLink(g, p, s.source, n)), None);
  }

  lemma NoSuchFile(s: Source, p: Path)
    requires s == Source(0, ["codes"], "") && p == ["module.py"]
    ensures ImportTarget(p, s, [], {p}) == None
  {
    assert |"codes" + ".py"| == 8 && |"module.py"| == 9;
    assert [] + s.parts[..0] + ["codes" + ".py"] == ["codes" + ".py"];
    assert |[] + s.parts + ["__init__.py"]| == 2;
  }
}
