/** scripts/build_diagnostic_code_index.py: which string constant a name in a module certainly denotes.
  *
  * A parsed module is its statements, nested ones included, the names its functions bind as the resolver collects
  * them, the names its functions import, and the names its functions rebind through `global`. `from X import A, B` is
  * two consecutive `ImportFrom` statements; `del` binds nothing. */
module DiagnosticCodeIndex {
  import opened Wrappers

  type Name = string
  type Path = seq<string>
  type Node = (Path, Name)

  /** `from <level dots><parts> import <imported>`. */
  datatype Source = Source(level: nat, parts: seq<string>, imported: Name)

  datatype Stmt =
    | AssignLiteral(target: Name, value: string)            // NAME = "LITERAL"
    | AssignOther(targets: set<Name>, unpacked: set<Name>)  // every other assignment: plain names, names inside tuples
    | Annotate(target: Name)                                // NAME: TYPE, which binds nothing
    | ImportFrom(source: Source, bound: Name)
    | StarImport(source: Source)
    | Define(names: set<Name>)                              // def, class, import, NAME := VALUE in an expression
    | Block(headers: set<Name>, body: seq<Stmt>)            // if, for, while, with, try, match: names, statements

  datatype Tree = Tree(body: seq<Stmt>, functionBound: set<Name>, localImports: set<Name>, rebound: set<Name>)

  /** One import binding, with the parsed file it reads, if that file is one of ours. */
  datatype Link = Link(target: Option<Path>, imported: Name)

  /** What the resolver knows of one module. */
  datatype Facts = Facts(own: map<Name, string>, imports: map<Name, seq<Link>>, unsafe: set<Name>)

  type World = map<Path, Facts>

  // ---------------------------------------------------------------------------------------------
  // What the statements of one module say
  // ---------------------------------------------------------------------------------------------

  ghost predicate AssignsLiteral(body: seq<Stmt>, n: Name, v: string) {
    AssignLiteral(n, v) in body
  }

  /** The string literals assigned to `n` are exactly one string, `v`. */
  ghost predicate SoleLiteral(body: seq<Stmt>, n: Name, v: string) {
    AssignsLiteral(body, n, v) && forall w :: AssignsLiteral(body, n, w) ==> w == v
  }

  /** A top-level assignment in another form, or an annotation, has the plain name as a target. */
  ghost predicate AssignsOther(body: seq<Stmt>, n: Name) {
    exists s :: s in body && ((s.AssignOther? && n in s.targets) || (s.Annotate? && n == s.target))
  }

  ghost predicate Assigns(body: seq<Stmt>, n: Name) {
    AssignsOther(body, n) || exists v :: AssignsLiteral(body, n, v)
  }

  /** The plain name targets of an assignment or annotation. */
  function TargetsOf(s: Stmt): set<Name> {
    match s
    case AssignLiteral(n, _) => {n}
    case AssignOther(ns, _) => ns
    case Annotate(n) => {n}
    case _ => {}
  }

  /** `_import_target`: the parsed file a `from X import NAME` in `path` reads. */
  function ImportTarget(path: Path, s: Source, root: Path, known: set<Path>): (t: Option<Path>)
    ensures t.Some? ==> t.value in known
  {
    var base := if s.level == 0 then root else if s.level <= |path| then path[..|path| - s.level] else [];
    var package := base + s.parts + ["__init__.py"];
    if s.parts != [] then
      var last := |s.parts| - 1;
      var file := base + s.parts[..last] + [s.parts[last] + ".py"];
      if file in known then Some(file) else if package in known then Some(package) else None
    else if package in known then Some(package) else None
  }

  function LinkOf(path: Path, s: Source, root: Path, known: set<Path>): (l: Link)
    ensures l.target.Some? ==> l.target.value in known
  {
    Link(ImportTarget(path, s, root, known), s.imported)
  }

  /** The import bindings of `n`, in source order. */
  ghost function LinksOf(path: Path, body: seq<Stmt>, root: Path, known: set<Path>, n: Name): (ls: seq<Link>)
    ensures forall l :: l in ls ==> l.target.Some? ==> l.target.value in known
  {
    if body == [] then []
    else
      var s := body[|body| - 1];
      LinksOf(path, body[..|body| - 1], root, known, n)
      + if s.ImportFrom? && s.bound == n then [LinkOf(path, s.source, root, known)] else []
  }

  ghost predicate FactsOf(path: Path, t: Tree, root: Path, known: set<Path>, f: Facts) {
    && (forall n, v :: (n in f.own && f.own[n] == v) <==> (n !in t.functionBound && SoleLiteral(t.body, n, v)))
    && (forall n :: n in f.imports <==> LinksOf(path, t.body, root, known, n) != [])
    && (forall n :: n in f.imports ==> f.imports[n] == LinksOf(path, t.body, root, known, n))
    && (forall n :: n in f.unsafe <==> (Assigns(t.body, n) || n in t.functionBound || n in t.localImports))
  }

  ghost predicate WorldOf(trees: map<Path, Tree>, root: Path, w: World) {
    w.Keys == trees.Keys && forall p :: p in trees ==> FactsOf(p, trees[p], root, trees.Keys, w[p])
  }

  ghost predicate TwoLiterals(body: seq<Stmt>, n: Name) {
    exists v, w :: v != w && AssignsLiteral(body, n, v) && AssignsLiteral(body, n, w)
  }

  /** What the pass of `module_string_constants` has found in `body`. */
  ghost predicate Tabled(body: seq<Stmt>, constants: map<Name, string>, ambiguous: set<Name>) {
    && (forall n :: n in constants ==> AssignsLiteral(body, n, constants[n]))
    && (forall n, v :: AssignsLiteral(body, n, v) ==> n in constants && (n in ambiguous || constants[n] == v))
    && (forall n :: n in ambiguous ==> TwoLiterals(body, n))
  }

  lemma TabledLast(body: seq<Stmt>, s: Stmt, constants: map<Name, string>, ambiguous: set<Name>)
    requires Tabled(body, constants, ambiguous)
    ensures !s.AssignLiteral? ==> Tabled(body + [s], constants, ambiguous)
    ensures s.AssignLiteral? ==>
              Tabled(body + [s], constants[s.target := s.value],
                     if s.target in constants && constants[s.target] != s.value then ambiguous + {s.target}
                     else ambiguous)
  {
    forall n, v ensures AssignsLiteral(body + [s], n, v) <==> AssignsLiteral(body, n, v) || s == AssignLiteral(n, v) {
    }
    forall n | TwoLiterals(body, n) ensures TwoLiterals(body + [s], n) {
      var v, w :| v != w && AssignsLiteral(body, n, v) && AssignsLiteral(body, n, w);
      assert AssignsLiteral(body + [s], n, v) && AssignsLiteral(body + [s], n, w);
    }
    if s.AssignLiteral? && s.target in constants && constants[s.target] != s.value {
      assert AssignsLiteral(body + [s], s.target, constants[s.target]);
      assert TwoLiterals(body + [s], s.target);
    }
  }

  /** `module_string_constants`: one pass, dropping names assigned two different literals and names some
    * function binds. */
  method ModuleStringConstants(t: Tree) returns (own: map<Name, string>)
    ensures forall n, v :: (n in own && own[n] == v) <==> (n !in t.functionBound && SoleLiteral(t.body, n, v))
  {
    var constants: map<Name, string> := map[];
    var ambiguous: set<Name> := {};
    for i := 0 to |t.body|
      invariant Tabled(t.body[..i], constants, ambiguous)
    {
      var s := t.body[i];
      assert t.body[..i + 1] == t.body[..i] + [s];
      TabledLast(t.body[..i], s, constants, ambiguous);
      if s.AssignLiteral? {
        if s.target in constants && constants[s.target] != s.value {
          ambiguous := ambiguous + {s.target};
        }
        constants := constants[s.target := s.value];
      }
    }
    assert t.body[..|t.body|] == t.body;
    own := map n | n in constants && n !in ambiguous && n !in t.functionBound :: constants[n];
    forall n, v ensures (n in own && own[n] == v) <==> (n !in t.functionBound && SoleLiteral(t.body, n, v)) {
      if n in own && own[n] == v {
        assert AssignsLiteral(t.body, n, v);
      }
    }
  }

  /** What the loop of `resolve_string_constants` has read of `body`: its import bindings and its targets. */
  ghost predicate LinksRead(path: Path, body: seq<Stmt>, root: Path, known: set<Path>, bindings: map<Name, seq<Link>>) {
    && (forall n :: n in bindings <==> LinksOf(path, body, root, known, n) != [])
    && (forall n :: n in bindings ==> bindings[n] == LinksOf(path, body, root, known, n))
  }

  ghost predicate TargetsRead(body: seq<Stmt>, targets: set<Name>) {
    forall n :: n in targets <==> Assigns(body, n)
  }

  lemma LinksReadLast(path: Path, body: seq<Stmt>, s: Stmt, root: Path, known: set<Path>,
                      bindings: map<Name, seq<Link>>)
    requires LinksRead(path, body, root, known, bindings)
    ensures !s.ImportFrom? ==> LinksRead(path, body + [s], root, known, bindings)
    ensures s.ImportFrom? ==>
              var links := (if s.bound in bindings then bindings[s.bound] else [])
                           + [LinkOf(path, s.source, root, known)];
              LinksRead(path, body + [s], root, known, bindings[s.bound := links])
  {
    forall n ensures LinksOf(path, body + [s], root, known, n) ==
                     LinksOf(path, body, root, known, n)
                     + if s.ImportFrom? && s.bound == n then [LinkOf(path, s.source, root, known)] else [] {
      LinksOfLast(path, body, s, root, known, n);
    }
  }

  lemma TargetsReadLast(body: seq<Stmt>, s: Stmt, targets: set<Name>)
    requires TargetsRead(body, targets)
    ensures TargetsRead(body + [s], targets + TargetsOf(s))
  {
    forall n ensures Assigns(body + [s], n) <==> Assigns(body, n) || n in TargetsOf(s) {
      AssignsLast(body, s, n);
    }
  }

  /** The extraction loop at the head of `resolve_string_constants`, for one module. */
  method Extract(path: Path, t: Tree, root: Path, known: set<Path>) returns (f: Facts)
    ensures FactsOf(path, t, root, known, f)
  {
    var own := ModuleStringConstants(t);
    var bindings: map<Name, seq<Link>> := map[];
    var targets: set<Name> := {};
    for i := 0 to |t.body|
      invariant LinksRead(path, t.body[..i], root, known, bindings) && TargetsRead(t.body[..i], targets)
    {
      var s := t.body[i];
      assert t.body[..i + 1] == t.body[..i] + [s];
      LinksReadLast(path, t.body[..i], s, root, known, bindings);
      TargetsReadLast(t.body[..i], s, targets);
      if s.ImportFrom? {
        var link := LinkOf(path, s.source, root, known);
        bindings := bindings[s.bound := (if s.bound in bindings then bindings[s.bound] else []) + [link]];
      }
      targets := targets + TargetsOf(s);
    }
    assert t.body[..|t.body|] == t.body;
    f := Facts(own, bindings, targets + t.functionBound + t.localImports);
  }

  lemma LinksOfLast(path: Path, body: seq<Stmt>, s: Stmt, root: Path, known: set<Path>, n: Name)
    ensures LinksOf(path, body + [s], root, known, n) ==
            LinksOf(path, body, root, known, n)
            + if s.ImportFrom? && s.bound == n then [LinkOf(path, s.source, root, known)] else []
  {
  }

  lemma AssignsLast(body: seq<Stmt>, s: Stmt, n: Name)
    ensures Assigns(body + [s], n) <==> Assigns(body, n) || n in TargetsOf(s)
  {
    if s.AssignLiteral? && s.target == n {
      assert AssignsLiteral(body + [s], n, s.value);
    }
    if (s.AssignOther? && n in s.targets) || (s.Annotate? && n == s.target) {
      assert s in body + [s];
    }
    if v :| AssignsLiteral(body, n, v) {
      assert AssignsLiteral(body + [s], n, v);
    }
    if AssignsOther(body, n) {
      var x :| x in body && ((x.AssignOther? && n in x.targets) || (x.Annotate? && n == x.target));
      assert x in body + [s];
    }
    if v :| AssignsLiteral(body + [s], n, v) {
      assert AssignsLiteral(body, n, v) || s == AssignLiteral(n, v);
    }
  }

  // ---------------------------------------------------------------------------------------------
  // The meaning of a name: a least fixpoint over the import graph
  // ---------------------------------------------------------------------------------------------

  ghost predicate IsOwn(w: World, p: Path, n: Name, c: string) {
    p in w && n in w[p].own && n !in w[p].imports && w[p].own[n] == c
  }

  /** `n` in `p` is read through its import bindings: it is imported, nothing else can bind it, and the walk
    * is not told to avoid it. */
  ghost predicate IsRelay(w: World, avoid: set<Node>, p: Path, n: Name) {
    && p in w && n in w[p].imports && n !in w[p].unsafe && (p, n) !in avoid
    && w[p].imports[n] != []
  }

  /** A derivation of height at most `h` that `n` in `p` denotes `c`, through no node of `avoid`. */
  ghost predicate DenotesIn(w: World, avoid: set<Node>, h: nat, p: Path, n: Name, c: string)
    decreases h, 0
  {
    || IsOwn(w, p, n, c)
    || (h > 0 && IsRelay(w, avoid, p, n) && AllDenoteIn(w, avoid, h - 1, w[p].imports[n], c))
  }

  ghost predicate AllDenoteIn(w: World, avoid: set<Node>, h: nat, ls: seq<Link>, c: string)
    decreases h, 1
  {
    forall l :: l in ls ==> l.target.Some? && DenotesIn(w, avoid, h, l.target.value, l.imported, c)
  }

  ghost predicate Denotes(w: World, avoid: set<Node>, p: Path, n: Name, c: string) {
    exists h: nat :: DenotesIn(w, avoid, h, p, n, c)
  }

  ghost predicate LinkDenotes(w: World, avoid: set<Node>, l: Link, c: string) {
    l.target.Some? && Denotes(w, avoid, l.target.value, l.imported, c)
  }

  lemma {:induction false} Monotone(w: World, avoid: set<Node>, h: nat, k: nat, p: Path, n: Name, c: string)
    requires h <= k && DenotesIn(w, avoid, h, p, n, c)
    ensures DenotesIn(w, avoid, k, p, n, c)
    decreases h
  {
    if !IsOwn(w, p, n, c) {
      forall l | l in w[p].imports[n] ensures DenotesIn(w, avoid, k - 1, l.target.value, l.imported, c) {
        Monotone(w, avoid, h - 1, k - 1, l.target.value, l.imported, c);
      }
    }
  }

  /** A name denotes at most one string. */
  lemma {:induction false} Deterministic(w: World, avoid: set<Node>, h: nat, k: nat, p: Path, n: Name, c: string,
                                         d: string)
    requires DenotesIn(w, avoid, h, p, n, c) && DenotesIn(w, avoid, k, p, n, d)
    ensures c == d
    decreases h
  {
    if !IsOwn(w, p, n, c) && !IsOwn(w, p, n, d) {
      var l := w[p].imports[n][0];
      assert l in w[p].imports[n];
      Deterministic(w, avoid, h - 1, k - 1, l.target.value, l.imported, c, d);
    }
  }

  /** Avoiding fewer nodes keeps every derivation. */
  lemma {:induction false} AvoidLess(w: World, less: set<Node>, more: set<Node>, h: nat, p: Path, n: Name, c: string)
    requires less <= more && DenotesIn(w, more, h, p, n, c)
    ensures DenotesIn(w, less, h, p, n, c)
    decreases h
  {
    if !IsOwn(w, p, n, c) {
      forall l | l in w[p].imports[n] ensures DenotesIn(w, less, h - 1, l.target.value, l.imported, c) {
        AvoidLess(w, less, more, h - 1, l.target.value, l.imported, c);
      }
    }
  }

  /** Growing `seen` can only turn an answer into no answer. */
  lemma GrowingSeen(w: World, less: set<Node>, more: set<Node>, p: Path, n: Name, c: string)
    requires less <= more && Denotes(w, more, p, n, c)
    ensures Denotes(w, less, p, n, c)
  {
    var h: nat :| DenotesIn(w, more, h, p, n, c);
    AvoidLess(w, less, more, h, p, n, c);
  }

  ghost predicate Underivable(w: World, avoid: set<Node>, h: nat, node: Node) {
    forall d :: !DenotesIn(w, avoid, h, node.0, node.1, d)
  }

  /** A derivation lower than every derivation of `node` does not pass through `node`. */
  lemma {:induction false} AvoidHigher(w: World, avoid: set<Node>, node: Node, h: nat, p: Path, n: Name, c: string)
    requires DenotesIn(w, avoid, h, p, n, c) && Underivable(w, avoid, h, node)
    ensures DenotesIn(w, avoid + {node}, h, p, n, c)
    decreases h
  {
    if !IsOwn(w, p, n, c) {
      var k: nat := h - 1;
      forall d ensures !DenotesIn(w, avoid, k, node.0, node.1, d) {
        if DenotesIn(w, avoid, k, node.0, node.1, d) {
          Monotone(w, avoid, k, h, node.0, node.1, d);
        }
      }
      forall l | l in w[p].imports[n] ensures DenotesIn(w, avoid + {node}, k, l.target.value, l.imported, c) {
        AvoidHigher(w, avoid, node, k, l.target.value, l.imported, c);
      }
    }
  }

  /** Cutting cycles loses nothing: whatever a relayed name denotes, each of its bindings denotes without coming
    * back through that name. */
  lemma {:induction false} CutCycle(w: World, avoid: set<Node>, h: nat, p: Path, n: Name, c: string)
    requires IsRelay(w, avoid, p, n) && DenotesIn(w, avoid, h, p, n, c)
    ensures forall l :: l in w[p].imports[n] ==> LinkDenotes(w, avoid + {(p, n)}, l, c)
    decreases h
  {
    var k: nat := h - 1;
    if d :| DenotesIn(w, avoid, k, p, n, d) {
      Deterministic(w, avoid, h, k, p, n, c, d);
      CutCycle(w, avoid, k, p, n, c);
    } else {
      forall l | l in w[p].imports[n] ensures LinkDenotes(w, avoid + {(p, n)}, l, c) {
        AvoidHigher(w, avoid, (p, n), k, l.target.value, l.imported, c);
      }
    }
  }

  /** One unfolding of the fixpoint: a relayed name denotes `c` exactly when every binding of it does, without
    * coming back through it. */
  lemma RelayDenotes(w: World, avoid: set<Node>, p: Path, n: Name, c: string)
    requires IsRelay(w, avoid, p, n)
    ensures Denotes(w, avoid, p, n, c) <==>
            forall l :: l in w[p].imports[n] ==> LinkDenotes(w, avoid + {(p, n)}, l, c)
  {
    if h: nat :| DenotesIn(w, avoid, h, p, n, c) {
      CutCycle(w, avoid, h, p, n, c);
    }
    if forall l :: l in w[p].imports[n] ==> LinkDenotes(w, avoid + {(p, n)}, l, c) {
      var h := CommonHeight(w, avoid, avoid + {(p, n)}, w[p].imports[n], c);
      assert DenotesIn(w, avoid, h + 1, p, n, c);
    }
  }

  lemma {:induction false} CommonHeight(w: World, less: set<Node>, more: set<Node>, ls: seq<Link>, c: string)
    returns (h: nat)
    requires less <= more && forall l :: l in ls ==> LinkDenotes(w, more, l, c)
    ensures AllDenoteIn(w, less, h, ls, c)
  {
    if ls == [] {
      h := 0;
    } else {
      var l, rest := ls[0], ls[1..];
      assert l in ls && forall x :: x in ls ==> x == l || x in rest;
      var k := CommonHeight(w, less, more, rest, c);
      var j: nat :| DenotesIn(w, more, j, l.target.value, l.imported, c);
      AvoidLess(w, less, more, j, l.target.value, l.imported, c);
      h := if j < k then k else j;
      Monotone(w, less, j, h, l.target.value, l.imported, c);
      forall x | x in rest ensures DenotesIn(w, less, h, x.target.value, x.imported, c) {
        Monotone(w, less, k, h, x.target.value, x.imported, c);
      }
    }
  }

  // ---------------------------------------------------------------------------------------------
  // The resolver
  // ---------------------------------------------------------------------------------------------

  ghost function Nodes(w: World): set<Node> {
    set p, n | p in w && n in w[p].imports :: (p, n)
  }

  /** Every imported name has a binding, and every binding that reads a parsed file reads a known one. */
  ghost predicate Closed(w: World) {
    forall p, n :: p in w && n in w[p].imports ==>
      w[p].imports[n] != [] && forall l :: l in w[p].imports[n] ==> l.target.Some? ==> l.target.value in w
  }

  /** The inner function `value`: a recursive walk that carries the nodes on its path. It stops on every import
    * graph, and returns exactly what the name denotes without passing through `seen`. */
  method Value(w: World, path: Path, name: Name, seen: set<Node>) returns (r: Option<string>)
    requires Closed(w) && path in w
    ensures forall c :: r == Some(c) <==> Denotes(w, seen, path, name, c)
    decreases Nodes(w) - seen
  {
    if name in w[path].own && name !in w[path].imports {
      OwnDenotes(w, seen, path, name);
      return Some(w[path].own[name]);
    }
    if name !in w[path].imports || name in w[path].unsafe || (path, name) in seen {
      return None;
    }
    assert (path, name) in Nodes(w);
    var found: set<string> := {};
    var bindings := w[path].imports[name];
    var inner := seen + {(path, name)};
    for i := 0 to |bindings|
      invariant Collected(w, inner, bindings[..i], found)
    {
      var link := bindings[i];
      assert link in bindings;
      var resolved: Option<string> := None;
      if link.target.Some? {
        resolved := Value(w, link.target.value, link.imported, inner);
      }
      if resolved == None {
        assert forall c :: !LinkDenotes(w, inner, link, c);
        Unresolved(w, seen, path, name, link);
        return None;
      }
      assert LinkDenotes(w, inner, link, resolved.value);
      Collect(w, inner, bindings, i, found, resolved.value);
      found := found + {resolved.value};
    }
    assert bindings[..|bindings|] == bindings;
    AllResolved(w, seen, path, name, found);
    if |found| == 1 {
      var v :| v in found;
      Singleton(found, v);
      r := Some(v);
    } else {
      assert forall c :: found == {c} ==> |found| == 1;
      r := None;
    }
  }

  lemma OwnDenotes(w: World, avoid: set<Node>, p: Path, n: Name)
    requires p in w && n in w[p].own && n !in w[p].imports
    ensures forall c :: Denotes(w, avoid, p, n, c) <==> c == w[p].own[n]
  {
    assert DenotesIn(w, avoid, 0, p, n, w[p].own[n]);
  }

  /** `found` is the set of strings the bindings denote, each of them denoting one. */
  ghost predicate Collected(w: World, avoid: set<Node>, ls: seq<Link>, found: set<string>) {
    && (forall l :: l in ls ==> DenotesOneOf(w, avoid, l, found))
    && (forall v :: v in found ==> DenotedByOneOf(w, avoid, ls, v))
  }

  ghost predicate DenotesOneOf(w: World, avoid: set<Node>, l: Link, found: set<string>) {
    exists v :: v in found && LinkDenotes(w, avoid, l, v)
  }

  ghost predicate DenotedByOneOf(w: World, avoid: set<Node>, ls: seq<Link>, v: string) {
    exists l :: l in ls && LinkDenotes(w, avoid, l, v)
  }

  lemma Collect(w: World, avoid: set<Node>, bindings: seq<Link>, i: nat, found: set<string>, v: string)
    requires i < |bindings| && Collected(w, avoid, bindings[..i], found) && LinkDenotes(w, avoid, bindings[i], v)
    ensures Collected(w, avoid, bindings[..i + 1], found + {v})
  {
    var ls, l := bindings[..i], bindings[i];
    assert bindings[..i + 1] == ls + [l];
    forall u | u in found + {v} ensures DenotedByOneOf(w, avoid, ls + [l], u) {
      OneMoreLink(w, avoid, ls, l, u);
    }
    forall x | x in ls + [l] ensures DenotesOneOf(w, avoid, x, found + {v}) {
      OneMoreString(w, avoid, x, found, v);
    }
  }

  lemma OneMoreLink(w: World, avoid: set<Node>, ls: seq<Link>, l: Link, u: string)
    requires DenotedByOneOf(w, avoid, ls, u) || LinkDenotes(w, avoid, l, u)
    ensures DenotedByOneOf(w, avoid, ls + [l], u)
  {
    if DenotedByOneOf(w, avoid, ls, u) {
      var x :| x in ls && LinkDenotes(w, avoid, x, u);
      assert x in ls + [l];
    } else {
      assert l in ls + [l];
    }
  }

  lemma OneMoreString(w: World, avoid: set<Node>, l: Link, found: set<string>, v: string)
    requires DenotesOneOf(w, avoid, l, found) || LinkDenotes(w, avoid, l, v)
    ensures DenotesOneOf(w, avoid, l, found + {v})
  {
    if DenotesOneOf(w, avoid, l, found) {
      var u :| u in found && LinkDenotes(w, avoid, l, u);
      assert u in found + {v};
    } else {
      assert v in found + {v};
    }
  }

  /** One binding that denotes nothing leaves the name without a value. */
  lemma Unresolved(w: World, avoid: set<Node>, p: Path, n: Name, l: Link)
    requires IsRelay(w, avoid, p, n) && l in w[p].imports[n]
    requires forall c :: !LinkDenotes(w, avoid + {(p, n)}, l, c)
    ensures forall c :: !Denotes(w, avoid, p, n, c)
  {
    forall c ensures !Denotes(w, avoid, p, n, c) {
      RelayDenotes(w, avoid, p, n, c);
    }
  }

  /** When every binding denotes something, the name denotes `c` exactly when that is all they denote. */
  lemma AllResolved(w: World, avoid: set<Node>, p: Path, n: Name, found: set<string>)
    requires IsRelay(w, avoid, p, n) && Collected(w, avoid + {(p, n)}, w[p].imports[n], found)
    ensures forall c :: Denotes(w, avoid, p, n, c) <==> found == {c}
  {
    var ls, inner := w[p].imports[n], avoid + {(p, n)};
    forall c ensures Denotes(w, avoid, p, n, c) <==> found == {c} {
      RelayDenotes(w, avoid, p, n, c);
      if Denotes(w, avoid, p, n, c) {
        forall v | v in found ensures v == c {
          assert DenotedByOneOf(w, inner, ls, v);
          var l :| l in ls && LinkDenotes(w, inner, l, v);
          Agree(w, inner, l, v, c);
        }
        assert ls[0] in ls;
        assert DenotesOneOf(w, inner, ls[0], found);
      }
      if found == {c} {
        forall l | l in ls ensures LinkDenotes(w, inner, l, c) {
          assert DenotesOneOf(w, inner, l, found);
        }
      }
    }
  }

  lemma Agree(w: World, avoid: set<Node>, l: Link, c: string, d: string)
    requires LinkDenotes(w, avoid, l, c) && LinkDenotes(w, avoid, l, d)
    ensures c == d
  {
    var h: nat :| DenotesIn(w, avoid, h, l.target.value, l.imported, c);
    var k: nat :| DenotesIn(w, avoid, k, l.target.value, l.imported, d);
    Deterministic(w, avoid, h, k, l.target.value, l.imported, c, d);
  }

  lemma Singleton<T>(s: set<T>, x: T)
    requires x in s && |s| == 1
    ensures s == {x}
  {
    assert |s - {x}| == 0;
  }

  // ---------------------------------------------------------------------------------------------
  // The meaning really is the least fixpoint of one rule
  // ---------------------------------------------------------------------------------------------

  /** `Denotes` satisfies the rule in both directions. */
  lemma Fixpoint(w: World, p: Path, n: Name, c: string)
    ensures Denotes(w, {}, p, n, c) <==>
            || IsOwn(w, p, n, c)
            || (IsRelay(w, {}, p, n) && forall l :: l in w[p].imports[n] ==> LinkDenotes(w, {}, l, c))
  {
    if h: nat :| DenotesIn(w, {}, h, p, n, c) {
      if !IsOwn(w, p, n, c) {
        assert AllDenoteIn(w, {}, h - 1, w[p].imports[n], c);
        forall l | l in w[p].imports[n] ensures LinkDenotes(w, {}, l, c) {
        }
      }
    }
    if IsOwn(w, p, n, c) {
      assert DenotesIn(w, {}, 0, p, n, c);
    } else if IsRelay(w, {}, p, n) && forall l :: l in w[p].imports[n] ==> LinkDenotes(w, {}, l, c) {
      var h := CommonHeight(w, {}, {}, w[p].imports[n], c);
      assert DenotesIn(w, {}, h + 1, p, n, c);
    }
  }

  ghost predicate Relayed(w: World, rel: (Path, Name, string) -> bool, p: Path, n: Name, c: string) {
    IsRelay(w, {}, p, n) && forall l :: l in w[p].imports[n] ==> l.target.Some? && rel(l.target.value, l.imported, c)
  }

  /** Every relation closed under the rule contains it. */
  lemma {:induction false} Least(w: World, rel: (Path, Name, string) -> bool, h: nat, p: Path, n: Name, c: string)
    requires forall q, m, d :: IsOwn(w, q, m, d) || Relayed(w, rel, q, m, d) ==> rel(q, m, d)
    requires DenotesIn(w, {}, h, p, n, c)
    ensures rel(p, n, c)
    decreases h
  {
    if !IsOwn(w, p, n, c) {
      forall l | l in w[p].imports[n] ensures l.target.Some? && rel(l.target.value, l.imported, c) {
        Least(w, rel, h - 1, l.target.value, l.imported, c);
      }
      assert Relayed(w, rel, p, n, c);
    }
  }

  // ---------------------------------------------------------------------------------------------
  // The tables
  // ---------------------------------------------------------------------------------------------

  /** `resolve_string_constants`: every module's table holds exactly the names that denote a string, under it. */
  method ResolveStringConstants(trees: map<Path, Tree>, root: Path)
    returns (constants: map<Path, map<Name, string>>, ghost w: World)
    ensures WorldOf(trees, root, w) && constants.Keys == trees.Keys
    ensures forall p, n, c :: p in trees ==>
              ((n in constants[p] && constants[p][n] == c) <==> Denotes(w, {}, p, n, c))
  {
    var facts: World := map[];
    var todo := trees.Keys;
    while todo != {}
      invariant todo <= trees.Keys && facts.Keys == trees.Keys - todo
      invariant forall p :: p in facts ==> FactsOf(p, trees[p], root, trees.Keys, facts[p])
      decreases todo
    {
      var p :| p in todo;
      var f := Extract(p, trees[p], root, trees.Keys);
      facts := facts[p := f];
      todo := todo - {p};
    }
    w := facts;
    ExtractedIsClosed(trees, root, facts);
    constants := map[];
    todo := trees.Keys;
    while todo != {}
      invariant todo <= trees.Keys && constants.Keys == trees.Keys - todo
      invariant forall p, n, c :: p in constants ==>
                  ((n in constants[p] && constants[p][n] == c) <==> Denotes(facts, {}, p, n, c))
      decreases todo
    {
      var p :| p in todo;
      var table := TableOf(trees[p], facts, p);
      constants := constants[p := table];
      todo := todo - {p};
    }
  }

  lemma ExtractedIsClosed(trees: map<Path, Tree>, root: Path, w: World)
    requires WorldOf(trees, root, w)
    ensures Closed(w)
    ensures forall p, n :: p in w && n in w[p].own ==> n in w[p].unsafe
  {
    forall p, n | p in w && n in w[p].own ensures n in w[p].unsafe {
      assert FactsOf(p, trees[p], root, trees.Keys, w[p]);
      assert SoleLiteral(trees[p].body, n, w[p].own[n]);
      assert Assigns(trees[p].body, n);
    }
  }

  /** The last loop of `resolve_string_constants`, for one module. */
  method TableOf(t: Tree, w: World, p: Path) returns (table: map<Name, string>)
    requires Closed(w) && p in w && forall n :: n in w[p].own ==> n in w[p].unsafe
    ensures forall n, c :: (n in table && table[n] == c) <==> Denotes(w, {}, p, n, c)
  {
    var f := w[p];
    table := map n | n in f.own && n !in f.imports :: f.own[n];
    var names := f.imports.Keys;
    while names != {}
      invariant names <= f.imports.Keys
      invariant forall n :: n in table ==> n in f.own || n in f.imports
      invariant forall n :: n in table && n !in f.imports ==> n in f.own && table[n] == f.own[n]
      invariant forall n :: n in f.own && n !in f.imports ==> n in table
      invariant forall n, c :: n in f.imports - names ==> ((n in table && table[n] == c) <==> Denotes(w, {}, p, n, c))
      invariant forall n :: n in names ==> n !in table
      decreases names
    {
      var n :| n in names;
      if n !in f.own {
        var r := Value(w, p, n, {});
        if r.Some? {
          table := table[n := r.value];
        }
        assert forall c :: (n in table && table[n] == c) <==> Denotes(w, {}, p, n, c);
      }
      names := names - {n};
    }
    forall n, c ensures (n in table && table[n] == c) <==> Denotes(w, {}, p, n, c) {
      if n !in f.imports {
        if n in f.own {
          OwnDenotes(w, {}, p, n);
        }
      }
    }
  }

  // ---------------------------------------------------------------------------------------------
  // The index, read off the statements
  // ---------------------------------------------------------------------------------------------

  /** The directory an import of that level starts from: `level` parts up from the file, or the root. */
  ghost predicate StartsFrom(path: Path, level: nat, root: Path, d: Path) {
    if level == 0 then d == root
    else if level <= |path| then exists rest: Path :: |rest| == level && path == d + rest
    else d == []
  }

  /** `f` is the module `parts` of `d` as a file. */
  ghost predicate ModuleFile(d: Path, parts: seq<string>, f: Path) {
    && parts != [] && |f| == |d| + |parts| && d <= f
    && (forall i :: 0 <= i < |parts| - 1 ==> f[|d| + i] == parts[i])
    && f[|f| - 1] == parts[|parts| - 1] + ".py"
  }

  /** `f` is it as a package. */
  ghost predicate PackageFile(d: Path, parts: seq<string>, f: Path) {
    f == d + parts + ["__init__.py"]
  }

  /** The import reads `t`: a parsed file, which is the module, or its package where the module is no parsed file. */
  ghost predicate ReadsFile(path: Path, s: Source, root: Path, known: set<Path>, t: Path) {
    && t in known
    && exists d :: StartsFrom(path, s.level, root, d)
                   && (ModuleFile(d, s.parts, t)
                       || (PackageFile(d, s.parts, t) && forall f :: f in known ==> !ModuleFile(d, s.parts, f)))
  }

  lemma StartIs(path: Path, level: nat, root: Path, d: Path)
    ensures StartsFrom(path, level, root, d) <==>
            d == if level == 0 then root else if level <= |path| then path[..|path| - level] else []
  {
    if 0 < level <= |path| {
      var up, rest: Path := path[..|path| - level], path[|path| - level..];
      assert |rest| == level && path == up + rest;
      if d == up {
        assert path == d + rest;
        assert StartsFrom(path, level, root, d);
      }
      if StartsFrom(path, level, root, d) {
        var last: Path :| |last| == level && path == d + last;
        assert d == path[..|d|] == up;
      }
    }
  }

  lemma ModuleFileIs(d: Path, parts: seq<string>, f: Path)
    requires parts != []
    ensures ModuleFile(d, parts, f) <==> f == d + parts[..|parts| - 1] + [parts[|parts| - 1] + ".py"]
  {
    var file := d + parts[..|parts| - 1] + [parts[|parts| - 1] + ".py"];
    if ModuleFile(d, parts, f) {
      assert forall i :: |d| <= i < |f| - 1 ==> f[i] == parts[i - |d|];
    }
  }

  /** `_import_target` gives exactly the file the import reads, and none when neither the module nor its package is a
    * parsed file. */
  lemma ImportTargetExactly(path: Path, s: Source, root: Path, known: set<Path>)
    ensures forall t :: ImportTarget(path, s, root, known) == Some(t) <==> ReadsFile(path, s, root, known, t)
    ensures ImportTarget(path, s, root, known) == None <==>
            forall d, f ::
              StartsFrom(path, s.level, root, d) && (ModuleFile(d, s.parts, f) || PackageFile(d, s.parts, f)) ==>
                f !in known
  {
    var d := if s.level == 0 then root else if s.level <= |path| then path[..|path| - s.level] else [];
    forall e ensures StartsFrom(path, s.level, root, e) <==> e == d {
      StartIs(path, s.level, root, e);
    }
    if s.parts != [] {
      var file := d + s.parts[..|s.parts| - 1] + [s.parts[|s.parts| - 1] + ".py"];
      forall f ensures ModuleFile(d, s.parts, f) <==> f == file {
        ModuleFileIs(d, s.parts, f);
      }
      assert ModuleFile(d, s.parts, file);
    }
    var package := d + s.parts + ["__init__.py"];
    assert StartsFrom(path, s.level, root, d) && PackageFile(d, s.parts, package);
    if s.parts != [] {
      var file := d + s.parts[..|s.parts| - 1] + [s.parts[|s.parts| - 1] + ".py"];
      assert ImportTarget(path, s, root, known)
             == if file in known then Some(file) else if package in known then Some(package) else None;
    } else {
      assert ImportTarget(path, s, root, known) == if package in known then Some(package) else None;
    }
  }

  lemma {:induction false} LinksOfExactly(p: Path, body: seq<Stmt>, root: Path, known: set<Path>, n: Name, l: Link)
    ensures l in LinksOf(p, body, root, known, n) <==>
            exists i :: 0 <= i < |body| && body[i].ImportFrom? && body[i].bound == n
                        && l == LinkOf(p, body[i].source, root, known)
  {
    if body != [] {
      var before := body[..|body| - 1];
      LinksOfExactly(p, before, root, known, n, l);
      assert forall i :: 0 <= i < |before| ==> before[i] == body[i];
    }
  }

  /** Statement `i` imports `n`. */
  predicate ImportsName(body: seq<Stmt>, n: Name, i: nat)
    requires i < |body|
  {
    body[i].ImportFrom? && body[i].bound == n
  }

  /** A plain name target of statement `i`, whatever it assigns. */
  predicate TargetsName(body: seq<Stmt>, n: Name, i: nat)
    requires i < |body|
  {
    match body[i]
    case AssignLiteral(m, _) => m == n
    case AssignOther(ms, _) => n in ms
    case Annotate(m) => m == n
    case _ => false
  }

  /** `n` is assigned the string `c` and no other string, at the top level of the module; no function binds it, and it
    * is not imported. */
  ghost predicate OwnConstant(t: Tree, n: Name, c: string) {
    && n !in t.functionBound
    && (exists i :: 0 <= i < |t.body| && t.body[i] == AssignLiteral(n, c))
    && (forall i, v :: 0 <= i < |t.body| && t.body[i] == AssignLiteral(n, v) ==> v == c)
    && (forall i :: 0 <= i < |t.body| ==> !ImportsName(t.body, n, i))
  }

  /** `n` is imported at the top level, nowhere assigned there, and neither bound nor imported by a function. */
  ghost predicate OnlyImported(t: Tree, n: Name) {
    && n !in t.functionBound && n !in t.localImports
    && (exists i :: 0 <= i < |t.body| && ImportsName(t.body, n, i))
    && (forall i :: 0 <= i < |t.body| ==> !TargetsName(t.body, n, i))
  }

  /** The import of statement `i` reads a parsed file that denotes `c` under the imported name. */
  ghost predicate ImportGives(trees: map<Path, Tree>, root: Path, w: World, p: Path, i: nat, c: string)
    requires p in trees && i < |trees[p].body| && trees[p].body[i].ImportFrom?
  {
    var s := trees[p].body[i].source;
    exists t :: ReadsFile(p, s, root, trees.Keys, t) && Denotes(w, {}, t, s.imported, c)
  }

  ghost predicate ImportsGive(trees: map<Path, Tree>, root: Path, w: World, p: Path, n: Name, c: string)
    requires p in trees
  {
    forall i :: 0 <= i < |trees[p].body| && ImportsName(trees[p].body, n, i) ==> ImportGives(trees, root, w, p, i, c)
  }

  /** What the docstring promises: a name is indexed under `c` exactly when it is an own constant `c`, or is only
    * imported and every one of its imports gives `c`. */
  lemma IndexedExactly(trees: map<Path, Tree>, root: Path, w: World, p: Path, n: Name, c: string)
    requires WorldOf(trees, root, w)
    ensures Denotes(w, {}, p, n, c) <==>
            p in trees
            && (OwnConstant(trees[p], n, c) || (OnlyImported(trees[p], n) && ImportsGive(trees, root, w, p, n, c)))
  {
    Fixpoint(w, p, n, c);
    if p in trees {
      assert FactsOf(p, trees[p], root, trees.Keys, w[p]);
      LinksNone(p, trees[p].body, root, trees.Keys, n);
      OwnIs(trees, root, w, p, n, c);
      RelayIs(trees, root, w, p, n);
      if OnlyImported(trees[p], n) {
        ImportsGiveIs(trees, root, w, p, n, c);
      }
    }
  }

  lemma LinksNone(p: Path, body: seq<Stmt>, root: Path, known: set<Path>, n: Name)
    ensures LinksOf(p, body, root, known, n) == [] <==> forall i :: 0 <= i < |body| ==> !ImportsName(body, n, i)
  {
    var ls := LinksOf(p, body, root, known, n);
    if ls != [] {
      LinksOfExactly(p, body, root, known, n, ls[0]);
      var i :| 0 <= i < |body| && body[i].ImportFrom? && body[i].bound == n
               && ls[0] == LinkOf(p, body[i].source, root, known);
      assert ImportsName(body, n, i);
    }
    if i :| 0 <= i < |body| && ImportsName(body, n, i) {
      LinksOfExactly(p, body, root, known, n, LinkOf(p, body[i].source, root, known));
      assert LinkOf(p, body[i].source, root, known) in ls;
    }
  }

  lemma OwnIs(trees: map<Path, Tree>, root: Path, w: World, p: Path, n: Name, c: string)
    requires WorldOf(trees, root, w) && p in trees
    ensures IsOwn(w, p, n, c) <==> OwnConstant(trees[p], n, c)
  {
    var body := trees[p].body;
    assert FactsOf(p, trees[p], root, trees.Keys, w[p]);
    LinksNone(p, body, root, trees.Keys, n);
    SoleLiteralIs(body, n, c);
  }

  lemma SoleLiteralIs(body: seq<Stmt>, n: Name, c: string)
    ensures SoleLiteral(body, n, c) <==>
            && (exists i :: 0 <= i < |body| && body[i] == AssignLiteral(n, c))
            && forall i, v :: 0 <= i < |body| && body[i] == AssignLiteral(n, v) ==> v == c
  {
    if SoleLiteral(body, n, c) {
      forall i, v | 0 <= i < |body| && body[i] == AssignLiteral(n, v) ensures v == c {
        assert AssignsLiteral(body, n, v);
      }
    }
    if forall i, v :: 0 <= i < |body| && body[i] == AssignLiteral(n, v) ==> v == c {
      forall v | AssignsLiteral(body, n, v) ensures v == c {
        var i :| 0 <= i < |body| && body[i] == AssignLiteral(n, v);
      }
    }
  }

  lemma RelayIs(trees: map<Path, Tree>, root: Path, w: World, p: Path, n: Name)
    requires WorldOf(trees, root, w) && p in trees
    ensures IsRelay(w, {}, p, n) <==> OnlyImported(trees[p], n)
  {
    var body := trees[p].body;
    assert FactsOf(p, trees[p], root, trees.Keys, w[p]);
    LinksNone(p, body, root, trees.Keys, n);
    AssignsIs(body, n);
  }

  lemma AssignsIs(body: seq<Stmt>, n: Name)
    ensures Assigns(body, n) <==> exists i :: 0 <= i < |body| && TargetsName(body, n, i)
  {
    if v :| AssignsLiteral(body, n, v) {
      var i :| 0 <= i < |body| && body[i] == AssignLiteral(n, v);
      assert TargetsName(body, n, i);
    }
    if AssignsOther(body, n) {
      var s :| s in body && ((s.AssignOther? && n in s.targets) || (s.Annotate? && n == s.target));
      var i :| 0 <= i < |body| && body[i] == s;
      assert TargetsName(body, n, i);
    }
    if i :| 0 <= i < |body| && TargetsName(body, n, i) {
      if body[i].AssignLiteral? {
        assert AssignsLiteral(body, n, body[i].value);
      } else {
        assert body[i] in body;
      }
    }
  }

  lemma ImportsGiveIs(trees: map<Path, Tree>, root: Path, w: World, p: Path, n: Name, c: string)
    requires WorldOf(trees, root, w) && p in trees && n in w[p].imports
    ensures (forall l :: l in w[p].imports[n] ==> LinkDenotes(w, {}, l, c)) <==> ImportsGive(trees, root, w, p, n, c)
  {
    var body, known := trees[p].body, trees.Keys;
    assert FactsOf(p, trees[p], root, known, w[p]);
    forall i | 0 <= i < |body| && ImportsName(body, n, i)
      ensures LinkOf(p, body[i].source, root, known) in w[p].imports[n]
      ensures LinkDenotes(w, {}, LinkOf(p, body[i].source, root, known), c) <==> ImportGives(trees, root, w, p, i, c)
    {
      LinksOfExactly(p, body, root, known, n, LinkOf(p, body[i].source, root, known));
      ImportTargetExactly(p, body[i].source, root, known);
    }
    forall l | l in w[p].imports[n]
      ensures exists i :: 0 <= i < |body| && ImportsName(body, n, i) && l == LinkOf(p, body[i].source, root, known)
    {
      LinksOfExactly(p, body, root, known, n, l);
    }
  }

  const LIVE: Path := ["runtime", "crypto", "live.py"]
  const CODES: Path := ["runtime", "codes.py"]

  /** `from ..codes import CODE as LOST` in `runtime/crypto/live.py`, with `CODE = "X"` in `runtime/codes.py`, is
    * indexed under `X`, whatever the root. */
  lemma TwoLevelImportIsIndexed(trees: map<Path, Tree>, root: Path, w: World)
    requires WorldOf(trees, root, w) && trees.Keys == {LIVE, CODES}
    requires trees[LIVE] == Tree([ImportFrom(Source(2, ["codes"], "CODE"), "LOST")], {}, {}, {})
    requires trees[CODES] == Tree([AssignLiteral("CODE", "X")], {}, {}, {})
    ensures Denotes(w, {}, LIVE, "LOST", "X")
  {
    CodesIsRead(trees.Keys, root);
    assert trees[CODES].body[0] == AssignLiteral("CODE", "X");
    assert OwnConstant(trees[CODES], "CODE", "X");
    IndexedExactly(trees, root, w, CODES, "CODE", "X");
    ReadIsIndexed(trees, root, w, LIVE, Source(2, ["codes"], "CODE"), "LOST", CODES, "X");
  }

  /** A module that only imports one name indexes it as the file it reads does. */
  lemma ReadIsIndexed(trees: map<Path, Tree>, root: Path, w: World, p: Path, s: Source, n: Name, t: Path, c: string)
    requires WorldOf(trees, root, w) && p in trees && trees[p] == Tree([ImportFrom(s, n)], {}, {}, {})
    requires ReadsFile(p, s, root, trees.Keys, t) && Denotes(w, {}, t, s.imported, c)
    ensures Denotes(w, {}, p, n, c)
  {
    OneImport(trees[p], s, n);
    assert ImportGives(trees, root, w, p, 0, c);
    IndexedExactly(trees, root, w, p, n, c);
  }

  lemma OneImport(t: Tree, s: Source, n: Name)
    requires t == Tree([ImportFrom(s, n)], {}, {}, {})
    ensures OnlyImported(t, n)
  {
    assert ImportsName(t.body, n, 0) && !TargetsName(t.body, n, 0);
  }

  lemma CodesIsRead(known: set<Path>, root: Path)
    requires CODES in known
    ensures ReadsFile(LIVE, Source(2, ["codes"], "CODE"), root, known, CODES)
  {
    assert LIVE == ["runtime"] + ["crypto", "live.py"];
    assert |["crypto", "live.py"]| == 2;
    assert StartsFrom(LIVE, 2, root, ["runtime"]);
    assert "codes" + ".py" == "codes.py";
    assert ModuleFile(["runtime"], ["codes"], CODES);
  }
}
