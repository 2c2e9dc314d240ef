/** scripts/create_core_context_binding.py over the runs of scripts/activate_core_release.py and
  * scripts/deactivate_core_release.py: a Task record is bound to one activated Core release, once. A binding id is
  * the text it is a hash of, so it is injective in that text; whether the text is injective in its fields is what is
  * proved. */
module CoreBinding {
  import opened Wrappers

  const ZERO := '\0'
  const COMMA := ','

  // ---------------------------------------------------------------------------------------------
  // Joined texts
  // ---------------------------------------------------------------------------------------------

  function Join(parts: seq<string>, sep: char): string
    requires parts != []
  {
    if |parts| == 1 then parts[0] else parts[0] + [sep] + Join(parts[1..], sep)
  }

  predicate Without(s: string, sep: char) {
    sep !in s
  }

  ghost predicate AllWithout(parts: seq<string>, sep: char) {
    forall p :: p in parts ==> Without(p, sep)
  }

  /** The first separator ends a first part that holds none. */
  lemma FirstSeparator(a: string, x: string, sep: char)
    requires Without(a, sep)
    ensures var s := a + [sep] + x; |s| > |a| && s[|a|] == sep && forall i :: 0 <= i < |a| ==> s[i] != sep
    ensures (a + [sep] + x)[..|a|] == a && (a + [sep] + x)[|a| + 1..] == x
  {
  }

  /** Two texts whose first parts are free of the separator agree on them. */
  lemma FirstPart(a: string, x: string, b: string, y: string, sep: char)
    requires Without(a, sep) && Without(b, sep) && a + [sep] + x == b + [sep] + y
    ensures a == b && x == y
  {
    FirstSeparator(a, x, sep);
    FirstSeparator(b, y, sep);
  }

  /** Joining is injective on lists whose parts are free of the separator. */
  lemma {:induction false} JoinInjective(a: seq<string>, b: seq<string>, sep: char)
    requires a != [] && b != [] && AllWithout(a, sep) && AllWithout(b, sep) && Join(a, sep) == Join(b, sep)
    ensures a == b
  {
    assert a[0] in a && b[0] in b;
    if |a| > 1 && |b| > 1 {
      FirstPart(a[0], Join(a[1..], sep), b[0], Join(b[1..], sep), sep);
      JoinInjective(a[1..], b[1..], sep);
      assert a == [a[0]] + a[1..] && b == [b[0]] + b[1..];
    }
  }

  /** One more character in front: a separator opens a new piece. */
  function Front(c: char, pieces: seq<string>, sep: char): (r: seq<string>)
    requires pieces != []
    ensures r != [] && (AllWithout(pieces, sep) ==> AllWithout(r, sep))
  {
    if c == sep then [""] + pieces
    else
      var first := [c] + pieces[0];
      assert AllWithout(pieces, sep) ==> Without(pieces[0], sep) && Without(first, sep);
      [first] + pieces[1..]
  }

  /** The pieces of a text between its separators. */
  function Split(s: string, sep: char): (r: seq<string>)
    ensures r != [] && AllWithout(r, sep)
  {
    if s == [] then [""] else Front(s[0], Split(s[1..], sep), sep)
  }

  /** The pieces of each text, one text after the other. */
  function SplitAll(parts: seq<string>, sep: char): seq<string> {
    if parts == [] then [] else Split(parts[0], sep) + SplitAll(parts[1..], sep)
  }

  lemma FrontConcat(c: char, pieces: seq<string>, more: seq<string>, sep: char)
    requires pieces != []
    ensures Front(c, pieces + more, sep) == Front(c, pieces, sep) + more
  {
  }

  lemma {:induction false} SplitConcat(a: string, x: string, sep: char)
    ensures Split(a + [sep] + x, sep) == Split(a, sep) + Split(x, sep)
  {
    var s := a + [sep] + x;
    if a == [] {
      assert s[0] == sep && s[1..] == x;
    } else {
      SplitConcat(a[1..], x, sep);
      assert s[0] == a[0] && s[1..] == a[1..] + [sep] + x;
      FrontConcat(a[0], Split(a[1..], sep), Split(x, sep), sep);
    }
  }

  lemma FrontJoins(c: char, pieces: seq<string>, sep: char)
    requires pieces != []
    ensures Join(Front(c, pieces, sep), sep) == [c] + Join(pieces, sep)
  {
    if c == sep {
      assert ([""] + pieces)[1..] == pieces;
    } else if |pieces| > 1 {
      assert ([[c] + pieces[0]] + pieces[1..])[1..] == pieces[1..];
    }
  }

  lemma {:induction false} JoinSplit(s: string, sep: char)
    ensures Join(Split(s, sep), sep) == s
  {
    if s != [] {
      JoinSplit(s[1..], sep);
      FrontJoins(s[0], Split(s[1..], sep), sep);
    }
  }

  lemma {:induction false} SplitJoin(parts: seq<string>, sep: char)
    requires parts != []
    ensures Split(Join(parts, sep), sep) == SplitAll(parts, sep)
  {
    if |parts| > 1 {
      SplitJoin(parts[1..], sep);
      SplitConcat(parts[0], Join(parts[1..], sep), sep);
    } else {
      assert SplitAll(parts[1..], sep) == [];
    }
  }

  /** Two lists join to one text exactly when they split into the same pieces. */
  lemma JoinsAlike(a: seq<string>, b: seq<string>, sep: char)
    requires a != [] && b != []
    ensures Join(a, sep) == Join(b, sep) <==> SplitAll(a, sep) == SplitAll(b, sep)
  {
    SplitJoin(a, sep);
    SplitJoin(b, sep);
    JoinSplit(Join(a, sep), sep);
    JoinSplit(Join(b, sep), sep);
  }

  const DIGITS := "0123456789"

  function Decimal(n: nat): (s: string)
    ensures s != [] && forall c :: c in s ==> c in DIGITS
  {
    if n < 10 then [DIGITS[n]] else Decimal(n / 10) + [DIGITS[n % 10]]
  }

  function Value(s: string): nat
    requires forall c :: c in s ==> c in DIGITS
  {
    if s == [] then 0 else 10 * Value(s[..|s| - 1]) + DigitValue(s[|s| - 1])
  }

  function DigitValue(c: char): nat {
    if '0' <= c <= '9' then c as int - '0' as int else 0
  }

  lemma DigitRound(n: nat)
    requires n < 10
    ensures DigitValue(DIGITS[n]) == n
  {
  }

  lemma {:induction false} DecimalRoundTrip(n: nat)
    ensures Value(Decimal(n)) == n
  {
    DigitRound(n % 10);
    if n < 10 {
      assert Decimal(n)[..0] == [];
    } else {
      DecimalRoundTrip(n / 10);
      assert Decimal(n)[..|Decimal(n)| - 1] == Decimal(n / 10);
    }
  }

  // ---------------------------------------------------------------------------------------------
  // The binding
  // ---------------------------------------------------------------------------------------------

  datatype Activation = Activation(id: string, release: string, approval: string, rules: set<string>)

  /** The current pointer, as `verify_current_pointer` finds it. */
  datatype Pointer = Missing | Active(activation: string) | Deactivated

  datatype Task = Task(id: string, revision: int, trace: string, rules: seq<string>, received: bool,
                       binding: Option<string>)

  datatype ChangeType = RootBinding | SameCore | CoreRebind | Other

  datatype Request = Request(change: Option<ChangeType>, previous: Option<string>, reason: Option<string>,
                             ref: Option<string>)

  /** What goes into the binding id. The change's reason and reference do not. */
  datatype Fields = Fields(task: string, revision: nat, trace: string, release: string, approval: string,
                           activation: string, rules: seq<string>, previous: Option<string>, change: ChangeType)

  function ChangeText(c: ChangeType): string {
    match c
    case RootBinding => "root_binding"
    case SameCore => "task_revision_same_core"
    case CoreRebind => "core_rebind"
    case Other => "other"
  }

  function PreviousText(p: Option<string>): string {
    if p.Some? then p.value else "None"
  }

  function Parts(f: Fields): seq<string>
    requires f.rules != []
  {
    [f.task, Decimal(f.revision), f.trace, f.release, f.approval, f.activation, Join(f.rules, COMMA),
     PreviousText(f.previous), ChangeText(f.change)]
  }

  /** The text the id is a hash of. */
  function Seed(f: Fields): string
    requires f.rules != []
  {
    Join(Parts(f), ZERO)
  }

  /** The text written out, given that of its rules, one or two of them, of its previous binding and of its change. */
  lemma SeedReads(f: Fields, rules: string, previous: string, change: string)
    requires |f.rules| == 1 || |f.rules| == 2
    requires rules == if |f.rules| == 1 then f.rules[0] else f.rules[0] + "," + f.rules[1]
    requires previous == if f.previous.None? then "None" else f.previous.value
    requires f.change.RootBinding? ==> change == "root_binding"
    requires f.change.SameCore? ==> change == "task_revision_same_core"
    requires f.change.CoreRebind? ==> change == "core_rebind"
    requires !f.change.Other?
    ensures Seed(f) ==
            f.task + "\0" + (Decimal(f.revision) + "\0" + (f.trace + "\0" + (f.release + "\0" + (f.approval + "\0" + (
            f.activation + "\0" + (rules + "\0" + (previous + "\0" + change)))))))
  {
    var p := Parts(f);
    RulesRead(f.rules);
    TailJoin(p, 7);
    TailJoin(p, 6);
    TailJoin(p, 5);
    TailJoin(p, 4);
    TailJoin(p, 3);
    TailJoin(p, 2);
    TailJoin(p, 1);
    TailJoin(p, 0);
    assert p[0..] == p && p[8..] == [p[8]];
  }

  lemma RulesRead(rules: seq<string>)
    requires |rules| == 1 || |rules| == 2
    ensures Join(rules, COMMA) == if |rules| == 1 then rules[0] else rules[0] + "," + rules[1]
  {
    assert |rules| == 2 ==> rules[1..] == [rules[1]];
  }

  lemma TailJoin(parts: seq<string>, i: nat)
    requires i + 1 < |parts|
    ensures Join(parts[i..], ZERO) == parts[i] + "\0" + Join(parts[i + 1..], ZERO)
  {
    assert parts[i..][1..] == parts[i + 1..];
  }

  function BindingId(f: Fields): string
    requires f.rules != []
  {
    "ccb-" + Seed(f)
  }

  function Dedup(rules: seq<string>): (out: seq<string>)
    ensures rules != [] ==> out != []
  {
    if rules == [] then []
    else
      var before := Dedup(rules[..|rules| - 1]);
      if rules[|rules| - 1] in before then before else before + [rules[|rules| - 1]]
  }

  predicate Text(s: Option<string>) {
    s.Some? && s.value != ""
  }

  datatype Refusal =
    | BadTask | NullBindingTooLate | BadBindingId | CoreDeactivated | NoVerifiedCore | UnknownRules | NotRootBinding
    | RootHasLineage | ChangeTypeRequired | LineageRequired | DifferentBinding

  datatype Outcome<+T> = Ok(value: T) | No(refusal: Refusal)

  /** A first revision is a root binding; a later one names what it continues, how, why and under which reference. */
  function LineageOf(revision: int, q: Request): Outcome<(Option<string>, ChangeType)> {
    if revision == 1 then
      if q.change != None && q.change != Some(RootBinding) then No(NotRootBinding)
      else if Text(q.previous) || Text(q.reason) || Text(q.ref) then No(RootHasLineage)
      else Ok((None, RootBinding))
    else if q.change != Some(SameCore) && q.change != Some(CoreRebind) then No(ChangeTypeRequired)
    else if !Text(q.previous) || !Text(q.reason) || !Text(q.ref) then No(LineageRequired)
    else Ok((q.previous, q.change.value))
  }

  predicate IsBindingId(s: string) {
    "ccb-" <= s
  }

  /** `build_core_context_binding`. */
  function Bind(t: Task, pointer: Pointer, activations: map<string, Activation>, q: Request): Outcome<Fields> {
    if t.id == "" || t.revision < 1 || t.trace == "" || t.rules == [] then No(BadTask)
    else
      var rules := Dedup(t.rules);
      if t.binding.None? && !t.received then No(NullBindingTooLate)
      else if t.binding.Some? && !IsBindingId(t.binding.value) then No(BadBindingId)
      else if pointer.Deactivated? then No(CoreDeactivated)
      else if pointer.Missing? || pointer.activation !in activations then No(NoVerifiedCore)
      else
        var a := activations[pointer.activation];
        if a.rules == {} || exists r :: r in rules && r !in a.rules then No(UnknownRules)
        else
          var lineage := LineageOf(t.revision, q);
          if lineage.No? then No(lineage.refusal)
          else
            var f := Fields(t.id, t.revision, t.trace, a.release, a.approval, a.id, rules, lineage.value.0,
                            lineage.value.1);
            if t.binding.Some? && t.binding.value != BindingId(f) then No(DifferentBinding) else Ok(f)
  }

  lemma {:induction false} DedupKeeps(rules: seq<string>)
    ensures (forall r :: r in Dedup(rules) <==> r in rules)
            && forall i, j :: 0 <= i < j < |Dedup(rules)| ==> Dedup(rules)[i] != Dedup(rules)[j]
  {
    if rules != [] {
      var before := rules[..|rules| - 1];
      DedupKeeps(before);
      assert rules == before + [rules[|rules| - 1]];
    }
  }

  /** The rules each stand where they first do, at the positions `at` names. */
  ghost predicate FirstOfEach(rules: seq<string>, out: seq<string>, at: seq<nat>) {
    && |at| == |out| && (forall k, l :: 0 <= k < l < |at| ==> at[k] < at[l])
    && (forall k :: 0 <= k < |at| ==> at[k] < |rules| && out[k] == rules[at[k]] && out[k] !in rules[..at[k]])
    && forall r :: r in rules ==> r in out
  }

  lemma {:induction false} DedupExactly(rules: seq<string>) returns (at: seq<nat>)
    ensures FirstOfEach(rules, Dedup(rules), at)
  {
    at := [];
    if rules != [] {
      var n: nat := |rules| - 1;
      at := DedupExactly(rules[..n]);
      FirstsSnoc(rules, Dedup(rules[..n]), at);
      if rules[n] !in Dedup(rules[..n]) {
        at := at + [n];
      }
    }
  }

  lemma FirstsSnoc(rules: seq<string>, out: seq<string>, at: seq<nat>)
    requires rules != [] && FirstOfEach(rules[..|rules| - 1], out, at)
    ensures var n := |rules| - 1;
            if rules[n] in out then FirstOfEach(rules, out, at) else FirstOfEach(rules, out + [rules[n]], at + [n])
  {
    var n: nat := |rules| - 1;
    forall k | 0 <= k < |at| ensures at[k] < n && out[k] == rules[at[k]] && out[k] !in rules[..at[k]] {
      assert rules[..n][..at[k]] == rules[..at[k]];
    }
    forall r | r in rules ensures r in out || r == rules[n] {
      assert r in rules[..n] || r == rules[n];
    }
    if rules[n] !in out {
      forall r | r in rules[..n] ensures r != rules[n] {
      }
    }
  }

  /** A binding names the Task record, the current activation with its release and approval, the record's own rules,
    * each once and all active in it, and the lineage the request states. */
  lemma BindsTheCurrentCore(t: Task, pointer: Pointer, activations: map<string, Activation>, q: Request)
    returns (at: seq<nat>)
    requires Bind(t, pointer, activations, q).Ok?
    ensures var f := Bind(t, pointer, activations, q).value;
            && pointer.Active? && pointer.activation in activations
            && var a := activations[pointer.activation];
               && f.task == t.id && f.revision == t.revision && f.trace == t.trace
               && f.release == a.release && f.approval == a.approval && f.activation == a.id
               && FirstOfEach(t.rules, f.rules, at) && (forall r :: r in t.rules ==> r in a.rules)
               && f.previous == (if t.revision == 1 then None else q.previous)
               && (if t.revision == 1 then f.change == RootBinding else q.change == Some(f.change))
  {
    DedupKeeps(t.rules);
    at := DedupExactly(t.rules);
  }

  /** A lineage the door accepts: no previous binding exactly for a root binding. */
  predicate WellFormed(f: Fields) {
    f.rules != [] && f.revision >= 1 && f.change != Other && (f.previous.None? <==> f.change == RootBinding)
  }

  /** No field holds a separator of the joined text it goes into. */
  ghost predicate Clean(f: Fields) {
    && Without(f.task, ZERO) && Without(f.trace, ZERO) && Without(f.release, ZERO) && Without(f.approval, ZERO)
    && Without(f.activation, ZERO) && (f.previous.Some? ==> Without(f.previous.value, ZERO))
    && AllWithout(f.rules, ZERO) && AllWithout(f.rules, COMMA)
  }

  lemma {:induction false} JoinWithout(parts: seq<string>, sep: char, other: char)
    requires parts != [] && AllWithout(parts, other) && sep != other
    ensures Without(Join(parts, sep), other)
  {
    assert parts[0] in parts;
    if |parts| > 1 {
      JoinWithout(parts[1..], sep, other);
    }
  }

  lemma PartsClean(f: Fields)
    requires WellFormed(f) && Clean(f)
    ensures AllWithout(Parts(f), ZERO)
  {
    JoinWithout(f.rules, COMMA, ZERO);
    assert Without(Decimal(f.revision), ZERO);
    assert Without(PreviousText(f.previous), ZERO) && Without(ChangeText(f.change), ZERO);
  }

  /** The id decides every field it is made of, including a previous binding called "None": the change type differs. */
  lemma SeedInjective(f: Fields, g: Fields)
    requires WellFormed(f) && WellFormed(g) && Clean(f) && Clean(g) && BindingId(f) == BindingId(g)
    ensures f == g
  {
    assert Seed(f) == BindingId(f)[4..] && Seed(g) == BindingId(g)[4..];
    PartsClean(f);
    PartsClean(g);
    JoinInjective(Parts(f), Parts(g), ZERO);
    var p, q := Parts(f), Parts(g);
    assert p[0] == q[0] && p[1] == q[1] && p[2] == q[2] && p[3] == q[3] && p[4] == q[4] && p[5] == q[5] && p[6] == q[6]
           && p[7] == q[7]
           && p[8] == q[8];
    DecimalRoundTrip(f.revision);
    DecimalRoundTrip(g.revision);
    JoinInjective(f.rules, g.rules, COMMA);
  }

  /** Without that condition: two bindings share an id exactly when their texts have the same pieces between zeros. */
  lemma SameIdExactly(f: Fields, g: Fields)
    requires f.rules != [] && g.rules != []
    ensures BindingId(f) == BindingId(g) <==> SplitAll(Parts(f), ZERO) == SplitAll(Parts(g), ZERO)
  {
    assert Seed(f) == BindingId(f)[4..] && Seed(g) == BindingId(g)[4..];
    JoinsAlike(Parts(f), Parts(g), ZERO);
  }

  lemma JoinPrefix(head: seq<string>, x: string, y: string, a: string, b: string, sep: char)
    requires head != []
    ensures Join(head + [x, a, b], sep) == Join(head + [y, a, b], sep) <==> x == y
  {
    assert head + [x, a, b] == head + [x] + [a] + [b] && head + [y, a, b] == head + [y] + [a] + [b];
    JoinAppend(head, x, sep);
    JoinAppend(head + [x], a, sep);
    JoinAppend(head + [x] + [a], b, sep);
    JoinAppend(head, y, sep);
    JoinAppend(head + [y], a, sep);
    JoinAppend(head + [y] + [a], b, sep);
    var before, after := Join(head, sep) + [sep], [sep] + a + [sep] + b;
    assert Join(head + [x, a, b], sep) == before + x + after && Join(head + [y, a, b], sep) == before + y + after;
    Middle(before, x, y, after);
  }

  lemma Middle(before: string, x: string, y: string, after: string)
    ensures before + x + after == before + y + after <==> x == y
  {
    if before + x + after == before + y + after {
      assert (before + x + after)[|before|..|before| + |x|] == x && (before + y + after)[|before|..|before| + |y|] == y;
      assert |x| == |y|;
    }
  }

  /** Bindings that differ in their rules alone share an id exactly when the rules split at commas into the same
    * list. */
  lemma SameRulesExactly(f: Fields, rules: seq<string>)
    requires f.rules != [] && rules != []
    ensures BindingId(f) == BindingId(f.(rules := rules)) <==> SplitAll(f.rules, COMMA) == SplitAll(rules, COMMA)
  {
    var g := f.(rules := rules);
    var head := Parts(f)[..6];
    assert Parts(f) == head + [Join(f.rules, COMMA), PreviousText(f.previous), ChangeText(f.change)];
    assert Parts(g) == head + [Join(rules, COMMA), PreviousText(f.previous), ChangeText(f.change)];
    assert Seed(f) == BindingId(f)[4..] && Seed(g) == BindingId(g)[4..];
    JoinPrefix(head, Join(f.rules, COMMA), Join(rules, COMMA), PreviousText(f.previous), ChangeText(f.change), ZERO);
    JoinsAlike(f.rules, rules, COMMA);
  }

  /** The form the schemas give a rule id: `MVP_RULE_` and three digits. */
  predicate SchemaRule(r: string) {
    |r| == 12 && r[..9] == "MVP_RULE_" && forall i :: 9 <= i < 12 ==> r[i] in DIGITS
  }

  /** Such ids hold no separator, so the rules are decided by the id. */
  lemma SchemaRulesDecided(f: Fields, rules: seq<string>)
    requires f.rules != [] && rules != [] && BindingId(f) == BindingId(f.(rules := rules))
    requires (forall r :: r in f.rules ==> SchemaRule(r)) && forall r :: r in rules ==> SchemaRule(r)
    ensures f.rules == rules
  {
    SameRulesExactly(f, rules);
    JoinsAlike(f.rules, rules, COMMA);
    forall r | r in f.rules + rules ensures Without(r, COMMA) {
      SchemaRuleHasNoComma(r);
    }
    JoinInjective(f.rules, rules, COMMA);
  }

  lemma SchemaRuleHasNoComma(r: string)
    requires SchemaRule(r)
    ensures Without(r, COMMA)
  {
    forall i | 0 <= i < |r| ensures r[i] != COMMA {
      if i < 9 {
        assert r[i] == "MVP_RULE_"[i];
      }
    }
  }

  /** A first revision, received and unbound, over the active Core `core`. */
  lemma FreshBinds(rules: seq<string>, core: Activation)
    requires rules != [] && forall r :: r in rules ==> r in core.rules
    ensures Bind(Task("t", 1, "tr", rules, true, None), Active("act"), map["act" := core],
                 Request(None, None, None, None)) ==
            Ok(Fields("t", 1, "tr", core.release, core.approval, core.id, Dedup(rules), None, RootBinding))
  {
    DedupKeeps(rules);
    assert rules[0] in rules;
  }

  lemma OneOrTwoRules(a: string, b: string)
    requires a != b
    ensures Dedup([a]) == [a] && Dedup([a, b]) == [a, b]
  {
    assert [a][..0] == [] && [a, b][..1] == [a];
  }

  /** The builder itself does not look at the form: over a release whose rules are `A,B`, `A` and `B` it binds both
    * lists, to one id. */
  lemma CommaCollides()
    ensures var core := Activation("act", "rel", "app", {"A,B", "A", "B"});
            var q := Request(None, None, None, None);
            var one := Bind(Task("t", 1, "tr", ["A,B"], true, None), Active("act"), map["act" := core], q);
            var two := Bind(Task("t", 1, "tr", ["A", "B"], true, None), Active("act"), map["act" := core], q);
            && one.Ok? && two.Ok? && one.value.rules == ["A,B"] && two.value.rules == ["A", "B"]
            && BindingId(one.value) == BindingId(two.value)
  {
    var core := Activation("act", "rel", "app", {"A,B", "A", "B"});
    FreshBinds(["A,B"], core);
    FreshBinds(["A", "B"], core);
    OneOrTwoRules("A", "B");
    OneOrTwoRules("A,B", "B");
    CommaJoins();
    SameRulesExactly(Fields("t", 1, "tr", "rel", "app", "act", ["A,B"], None, RootBinding), ["A", "B"]);
  }

  lemma CommaJoins()
    ensures SplitAll(["A,B"], COMMA) == SplitAll(["A", "B"], COMMA)
  {
    assert ["A", "B"][1..] == ["B"];
    assert "A" + [COMMA] + "B" == "A,B";
    assert Join(["A", "B"], COMMA) == "A" + [COMMA] + Join(["B"], COMMA);
    JoinsAlike(["A,B"], ["A", "B"], COMMA);
  }

  // ---------------------------------------------------------------------------------------------
  // When a binding is issued
  // ---------------------------------------------------------------------------------------------

  /** What a later revision must say of the binding it continues, and a first one must not. */
  predicate LineageStated(revision: int, q: Request) {
    if revision == 1 then
      && (q.change == None || q.change == Some(RootBinding))
      && Unstated(q.previous) && Unstated(q.reason) && Unstated(q.ref)
    else (q.change == Some(SameCore) || q.change == Some(CoreRebind))
         && !Unstated(q.previous) && !Unstated(q.reason) && !Unstated(q.ref)
  }

  predicate Unstated(s: Option<string>) {
    s == None || s == Some("")
  }

  /** A binding is issued exactly for a complete Task record, over an active recorded Core in which all its rules are
    * active, with its lineage stated, to a record that is RECEIVED and unbound or bound to that very id. */
  predicate Issuable(t: Task, pointer: Pointer, activations: map<string, Activation>, q: Request) {
    && t.id != "" && t.revision >= 1 && t.trace != "" && t.rules != []
    && pointer.Active? && pointer.activation in activations
    && (forall r :: r in t.rules ==> r in activations[pointer.activation].rules)
    && LineageStated(t.revision, q)
    && (t.binding.None? ==> t.received)
    && (t.binding.Some? ==>
          var a := activations[pointer.activation];
          t.binding.value == BindingId(Fields(t.id, t.revision, t.trace, a.release, a.approval, a.id, Dedup(t.rules),
                                              if t.revision == 1 then None else q.previous,
                                              if t.revision == 1 then RootBinding else q.change.value)))
  }

  lemma IssuedExactly(t: Task, pointer: Pointer, activations: map<string, Activation>, q: Request)
    ensures Bind(t, pointer, activations, q).Ok? <==> Issuable(t, pointer, activations, q)
  {
    DedupKeeps(t.rules);
    if t.rules != [] {
      assert t.rules[0] in t.rules;
    }
  }

  /** Whether check `k` fails, in the order the checks are made, and with what. The first five read the record and the
    * pointer, the next the rules, then the lineage, and last the id the record carries. */
  predicate Fails(t: Task, pointer: Pointer, activations: map<string, Activation>, q: Request, k: nat, r: Refusal) {
    || (k == 0 && r == BadTask && (t.id == "" || t.revision < 1 || t.trace == "" || t.rules == []))
    || (k == 1 && r == NullBindingTooLate && t.binding == None && !t.received)
    || (k == 2 && r == BadBindingId && t.binding.Some? && !("ccb-" <= t.binding.value))
    || (k == 3 && r == CoreDeactivated && pointer == Deactivated)
    || (k == 4 && r == NoVerifiedCore && !(pointer.Active? && pointer.activation in activations))
    || (k == 5 && r == UnknownRules && pointer.Active? && pointer.activation in activations
        && (activations[pointer.activation].rules == {}
            || exists x :: x in t.rules && x !in activations[pointer.activation].rules))
    || (k == 6 && r == NotRootBinding && t.revision == 1 && q.change.Some? && q.change != Some(RootBinding))
    || (k == 7 && r == RootHasLineage && t.revision == 1
        && !(Unstated(q.previous) && Unstated(q.reason) && Unstated(q.ref)))
    || (k == 8 && r == ChangeTypeRequired && t.revision != 1 && q.change != Some(SameCore)
        && q.change != Some(CoreRebind))
    || (k == 9 && r == LineageRequired && t.revision != 1
        && (Unstated(q.previous) || Unstated(q.reason) || Unstated(q.ref)))
  }

  /** Short of a record that is bound to another id, a refusal is that of the first check that fails. */
  lemma RefusedExactly(t: Task, pointer: Pointer, activations: map<string, Activation>, q: Request, r: Refusal)
    requires r != DifferentBinding
    ensures Bind(t, pointer, activations, q) == No(r) <==>
            exists k :: 0 <= k < 10 && Fails(t, pointer, activations, q, k, r)
                        && forall i, s :: 0 <= i < k ==> !Fails(t, pointer, activations, q, i, s)
  {
    DedupKeeps(t.rules);
    if Bind(t, pointer, activations, q) == No(r) {
      RefusalFails(t, pointer, activations, q, r);
    }
    if k :| 0 <= k < 10 && Fails(t, pointer, activations, q, k, r)
            && forall i, s :: 0 <= i < k ==> !Fails(t, pointer, activations, q, i, s) {
      assert k == Place(r);
      FirstFails(t, pointer, activations, q, r);
    }
  }

  lemma RefusalFails(t: Task, pointer: Pointer, activations: map<string, Activation>, q: Request, r: Refusal)
    requires r != DifferentBinding && Bind(t, pointer, activations, q) == No(r)
    ensures Fails(t, pointer, activations, q, Place(r), r)
    ensures forall i, s :: 0 <= i < Place(r) ==> !Fails(t, pointer, activations, q, i, s)
  {
    DedupKeeps(t.rules);
  }

  function Place(r: Refusal): nat {
    match r
    case BadTask => 0
    case NullBindingTooLate => 1
    case BadBindingId => 2
    case CoreDeactivated => 3
    case NoVerifiedCore => 4
    case UnknownRules => 5
    case NotRootBinding => 6
    case RootHasLineage => 7
    case ChangeTypeRequired => 8
    case LineageRequired => 9
    case DifferentBinding => 10
  }

  lemma FirstFails(t: Task, pointer: Pointer, activations: map<string, Activation>, q: Request, r: Refusal)
    requires Fails(t, pointer, activations, q, Place(r), r)
    requires forall i, s :: 0 <= i < Place(r) ==> !Fails(t, pointer, activations, q, i, s)
    ensures Bind(t, pointer, activations, q) == No(r)
  {
    DedupKeeps(t.rules);
    assert Place(r) > 0 ==> !Fails(t, pointer, activations, q, 0, BadTask);
    assert Place(r) > 1 ==> !Fails(t, pointer, activations, q, 1, NullBindingTooLate);
    assert Place(r) > 2 ==> !Fails(t, pointer, activations, q, 2, BadBindingId);
    assert Place(r) > 3 ==> !Fails(t, pointer, activations, q, 3, CoreDeactivated);
    assert Place(r) > 4 ==> !Fails(t, pointer, activations, q, 4, NoVerifiedCore);
    assert Place(r) > 5 ==> !Fails(t, pointer, activations, q, 5, UnknownRules);
    assert Place(r) > 6 ==> !Fails(t, pointer, activations, q, 6, NotRootBinding);
    assert Place(r) > 8 ==> !Fails(t, pointer, activations, q, 8, ChangeTypeRequired);
  }

  // ---------------------------------------------------------------------------------------------
  // The release registry
  // ---------------------------------------------------------------------------------------------

  class Registry {
    var activations: map<string, Activation>
    var pointer: Pointer

    /** `activate_core_release`: an immutable record, then the pointer. An id already on record refuses. */
    method Activate(a: Activation) returns (ok: bool)
      modifies this
      ensures ok <==> a.id !in old(activations)
      ensures ok ==> activations == old(activations)[a.id := a] && pointer == Active(a.id)
      ensures !ok ==> activations == old(activations) && pointer == old(pointer)
    {
      if a.id in activations {
        return false;
      }
      activations := activations[a.id := a];
      pointer := Active(a.id);
      ok := true;
    }

    /** `deactivate_core_release`: the pointer fails closed. */
    method Deactivate() returns (ok: bool)
      modifies this`pointer
      ensures ok <==> old(pointer) != Missing
      ensures pointer == if ok then Deactivated else old(pointer)
    {
      if pointer.Missing? {
        return false;
      }
      pointer := Deactivated;
      ok := true;
    }

    /** `build_core_context_binding`, check by check: a binding is issued exactly when `Issuable` says so, the record
      * then carries its id, and otherwise the record is as it was. */
    method BindTask(t: Task, q: Request) returns (r: Outcome<Fields>, updated: Task)
      ensures r.Ok? <==> Issuable(t, pointer, activations, q)
      ensures r == Bind(t, pointer, activations, q)
      ensures r.Ok? ==> r.value.rules != [] && updated == t.(binding := Some(BindingId(r.value)))
      ensures r.No? ==> updated == t
    {
      updated := t;
      IssuedExactly(t, pointer, activations, q);
      if t.id == "" || t.revision < 1 || t.trace == "" || t.rules == [] {
        return No(BadTask), updated;
      }
      var loaded := LoadedRules(t.rules);
      if t.binding.None? {
        if !t.received {
          return No(NullBindingTooLate), updated;
        }
      } else if !IsBindingId(t.binding.value) {
        return No(BadBindingId), updated;
      }
      match pointer
      case Deactivated => return No(CoreDeactivated), updated;
      case Missing => return No(NoVerifiedCore), updated;
      case Active(activation) =>
        if activation !in activations {
          return No(NoVerifiedCore), updated;
        }
        var core := activations[activation];
        var unknown := FirstUnknown(loaded, core.rules);
        if core.rules == {} || unknown.Some? {
          return No(UnknownRules), updated;
        }
        var previous, change := None, RootBinding;
        if t.revision == 1 {
          if q.change != None && q.change != Some(RootBinding) {
            return No(NotRootBinding), updated;
          }
          if Text(q.previous) || Text(q.reason) || Text(q.ref) {
            return No(RootHasLineage), updated;
          }
        } else {
          if q.change != Some(SameCore) && q.change != Some(CoreRebind) {
            return No(ChangeTypeRequired), updated;
          }
          if !Text(q.previous) || !Text(q.reason) || !Text(q.ref) {
            return No(LineageRequired), updated;
          }
          previous, change := q.previous, q.change.value;
        }
        var fields := Fields(t.id, t.revision, t.trace, core.release, core.approval, core.id, loaded, previous, change);
        var id := IdOf(fields);
        if t.binding.Some? && t.binding.value != id {
          return No(DifferentBinding), updated;
        }
        r := Ok(fields);
        updated := t.(binding := Some(id));
    }
  }

  /** `list(dict.fromkeys(...))`: each rule once, where it first stands. */
  method LoadedRules(rules: seq<string>) returns (out: seq<string>)
    ensures out == Dedup(rules)
  {
    out := [];
    var seen: set<string> := {};
    for i := 0 to |rules|
      invariant out == Dedup(rules[..i]) && forall r :: r in seen <==> r in out
    {
      assert rules[..i + 1][..i] == rules[..i];
      if rules[i] !in seen {
        out, seen := out + [rules[i]], seen + {rules[i]};
      }
    }
    assert rules[..|rules|] == rules;
  }

  /** The first loaded rule that is not active, if there is one. */
  method FirstUnknown(loaded: seq<string>, active: set<string>) returns (r: Option<string>)
    ensures r.None? <==> forall x :: x in loaded ==> x in active
    ensures r.Some? ==> r.value in loaded && r.value !in active
  {
    for i := 0 to |loaded|
      invariant forall x :: x in loaded[..i] ==> x in active
    {
      if loaded[i] !in active {
        return Some(loaded[i]);
      }
      assert loaded[..i + 1] == loaded[..i] + [loaded[i]];
    }
    assert loaded[..|loaded|] == loaded;
    r := None;
  }

  /** The seed, put together left to right. */
  method IdOf(f: Fields) returns (id: string)
    requires f.rules != []
    ensures id == BindingId(f)
  {
    var parts := Parts(f);
    var seed := parts[0];
    for i := 1 to |parts|
      invariant seed == Join(parts[..i], ZERO)
    {
      JoinAppend(parts[..i], parts[i], ZERO);
      assert parts[..i + 1] == parts[..i] + [parts[i]];
      seed := seed + [ZERO] + parts[i];
    }
    assert parts[..|parts|] == parts;
    id := "ccb-" + seed;
  }

  // ---------------------------------------------------------------------------------------------
  // Runs
  // ---------------------------------------------------------------------------------------------

  /** One binding made: of which Task record, and what it was made of. */
  datatype Bound = Bound(key: string, fields: Fields)

  datatype World = World(activations: map<string, Activation>, pointer: Pointer, tasks: map<string, Task>,
                         log: seq<Bound>)

  /** An edit may change anything of a Task record but its binding. */
  datatype Action =
    | ActivateStep(a: Activation) | DeactivateStep | AddTask(key: string, task: Task)
    | EditTask(key: string, task: Task)
    | BindStep(key: string, q: Request)

  function Do(w: World, a: Action): World {
    match a
    case ActivateStep(act) =>
      if act.id in w.activations then w
      else w.(activations := w.activations[act.id := act], pointer := Active(act.id))
    case DeactivateStep => if w.pointer.Missing? then w else w.(pointer := Deactivated)
    case AddTask(key, task) => if key in w.tasks then w else w.(tasks := w.tasks[key := task])
    case EditTask(key, task) =>
      if key in w.tasks then w.(tasks := w.tasks[key := task.(binding := w.tasks[key].binding)]) else w
    case BindStep(key, q) =>
      if key !in w.tasks then w
      else
        var r := Bind(w.tasks[key], w.pointer, w.activations, q);
        if r.No? then w
        else w.(tasks := w.tasks[key := w.tasks[key].(binding := Some(BindingId(r.value)))],
                log := w.log + [Bound(key, r.value)])
  }

  function Run(w: World, actions: seq<Action>): World {
    if actions == [] then w else Do(Run(w, actions[..|actions| - 1]), actions[|actions| - 1])
  }

  /** Activations are filed under their own ids, and every binding made is the one its Task record still carries. */
  ghost predicate Inv(w: World) {
    && (forall id :: id in w.activations ==> w.activations[id].id == id)
    && forall i :: 0 <= i < |w.log| ==>
         var b := w.log[i];
         && WellFormed(b.fields) && b.key in w.tasks && w.tasks[b.key].binding == Some(BindingId(b.fields))
         && b.fields.activation in w.activations
         && b.fields.release == w.activations[b.fields.activation].release
         && b.fields.approval == w.activations[b.fields.activation].approval
  }

  lemma StepKeeps(w: World, a: Action)
    requires Inv(w)
    ensures Inv(Do(w, a))
  {
    if a.BindStep? {
      BindKeeps(w, a.key, a.q);
    }
  }

  lemma BindKeeps(w: World, key: string, q: Request)
    requires Inv(w)
    ensures Inv(Do(w, BindStep(key, q)))
  {
  }

  lemma {:induction false} RunKeeps(w: World, actions: seq<Action>)
    requires Inv(w)
    ensures Inv(Run(w, actions))
  {
    if actions != [] {
      RunKeeps(w, actions[..|actions| - 1]);
      StepKeeps(Run(w, actions[..|actions| - 1]), actions[|actions| - 1]);
    }
  }

  /** No silent rebind: in any run of activations, rollbacks and deactivations, every binding made of one Task record
    * carries the identical id; and where no field holds a separator, it is the same activation, release, approval,
    * rules and lineage, whatever became current in between. */
  lemma NoSilentRebind(w: World, actions: seq<Action>, i: nat, j: nat)
    requires Inv(w)
    requires var log := Run(w, actions).log; i < |log| && j < |log| && log[i].key == log[j].key
    ensures var log := Run(w, actions).log;
            && log[i].fields.rules != [] && log[j].fields.rules != []
            && BindingId(log[i].fields) == BindingId(log[j].fields)
            && (Clean(log[i].fields) && Clean(log[j].fields) ==> log[i].fields == log[j].fields)
  {
    RunKeeps(w, actions);
    var log := Run(w, actions).log;
    SameTaskSameFields(Run(w, actions), i, j);
  }

  lemma SameTaskSameFields(v: World, i: nat, j: nat)
    requires Inv(v) && i < |v.log| && j < |v.log| && v.log[i].key == v.log[j].key
    ensures v.log[i].fields.rules != [] && v.log[j].fields.rules != []
    ensures BindingId(v.log[i].fields) == BindingId(v.log[j].fields)
    ensures Clean(v.log[i].fields) && Clean(v.log[j].fields) ==> v.log[i].fields == v.log[j].fields
  {
    var f, g := v.log[i].fields, v.log[j].fields;
    assert WellFormed(f) && WellFormed(g);
    if Clean(f) && Clean(g) {
      SeedInjective(f, g);
    }
  }

  /** Once Core is deactivated it stays so and nothing binds until the next activation; nor does anything before the
    * first. */
  lemma DeactivatedBindsNothing(w: World, actions: seq<Action>)
    requires forall i :: 0 <= i < |actions| ==> !actions[i].ActivateStep?
    ensures var v := Do(w, DeactivateStep);
            && Run(v, actions).log == w.log
            && Run(v, actions).pointer == if w.pointer.Missing? then Missing else Deactivated
  {
    StaysInactive(Do(w, DeactivateStep), actions);
  }

  lemma {:induction false} StaysInactive(w: World, actions: seq<Action>)
    requires !w.pointer.Active? && forall i :: 0 <= i < |actions| ==> !actions[i].ActivateStep?
    ensures Run(w, actions).pointer == w.pointer && Run(w, actions).log == w.log
  {
    if actions != [] {
      StaysInactive(w, actions[..|actions| - 1]);
    }
  }

  lemma {:induction false} JoinAppend(parts: seq<string>, last: string, sep: char)
    requires parts != []
    ensures Join(parts + [last], sep) == Join(parts, sep) + [sep] + last
  {
    if |parts| == 1 {
      assert (parts + [last])[1..] == [last];
    } else {
      assert (parts + [last])[1..] == parts[1..] + [last];
      JoinAppend(parts[1..], last, sep);
    }
  }

  /** The last separator starts a last part that holds none. */
  lemma LastPart(a: string, x: string, b: string, y: string, sep: char)
    requires Without(x, sep) && Without(y, sep) && a + [sep] + x == b + [sep] + y
    ensures a == b && x == y
  {
    LastSeparator(a, x, sep);
    LastSeparator(b, y, sep);
  }

  lemma LastSeparator(a: string, x: string, sep: char)
    requires Without(x, sep)
    ensures var s := a + [sep] + x; |s| > |a| && s[|a|] == sep && forall i :: |a| < i < |s| ==> s[i] != sep
    ensures (a + [sep] + x)[..|a|] == a && (a + [sep] + x)[|a| + 1..] == x
  {
  }

  /** With everything else equal the id still tells two lineages of one revision apart, separators or not. */
  lemma LineageInId(f: Fields, g: Fields)
    requires WellFormed(f) && g == f.(previous := g.previous, change := g.change) && BindingId(f) == BindingId(g)
    requires f.previous.Some? && g.previous.Some?
    ensures f == g
  {
    var head := Parts(f)[..7];
    assert Parts(f) == head + [PreviousText(f.previous)] + [ChangeText(f.change)];
    assert Parts(g) == head + [PreviousText(g.previous)] + [ChangeText(g.change)];
    JoinAppend(head, PreviousText(f.previous), ZERO);
    JoinAppend(head, PreviousText(g.previous), ZERO);
    JoinAppend(head + [PreviousText(f.previous)], ChangeText(f.change), ZERO);
    JoinAppend(head + [PreviousText(g.previous)], ChangeText(g.change), ZERO);
    assert Seed(f) == BindingId(f)[4..] && Seed(g) == BindingId(g)[4..];
    LastPart(Join(head, ZERO) + [ZERO] + f.previous.value, ChangeText(f.change),
             Join(head, ZERO) + [ZERO] + g.previous.value,
             ChangeText(g.change), ZERO);
    SamePrefix(Join(head, ZERO) + [ZERO], f.previous.value, g.previous.value);
  }

  lemma SamePrefix(a: string, x: string, y: string)
    requires a + x == a + y
    ensures x == y
  {
    assert (a + x)[|a|..] == x && (a + y)[|a|..] == y;
  }

  /** Binding a bound Task record again over an unchanged Core gives the id back, exactly when the request gives the
    * same lineage; with any other it refuses. */
  lemma BindAgain(t: Task, pointer: Pointer, activations: map<string, Activation>, q: Request, q2: Request)
    requires Bind(t, pointer, activations, q).Ok?
    ensures var f := Bind(t, pointer, activations, q).value;
            && f.rules != []
            && var again := Bind(t.(binding := Some(BindingId(f))), pointer, activations, q2);
               (again == Ok(f) <==> LineageOf(t.revision, q2) == LineageOf(t.revision, q))
               && (again.Ok? ==> again == Ok(f))
  {
    var f := Bind(t, pointer, activations, q).value;
    var l := LineageOf(t.revision, q2);
    assert IsBindingId(BindingId(f));
    if l.Ok? && t.revision > 1 {
      var g := f.(previous := l.value.0, change := l.value.1);
      if BindingId(g) == BindingId(f) {
        LineageInId(f, g);
      }
    }
  }
}
