/** scripts/promote_strategy_candidates.py: how the promotion door assembles a new pool out of the one on disk. The file
  * itself and the doors that share it are in `PoolDoors`. */
module StrategyPool {
  import opened Wrappers

  /** What names a lineage: a candidate, a generation with its rule, or only a display name. */
  datatype Key = Cand(id: string) | Gen(generation: string, rule: string) | Sid(name: string)

  /** One pool entry. `ruleHash` is the rule it names, `specHash` the rule it trades; `stampHolds` says its artifact
    * stamp, if any, still matches it, `disarmedAt` when the disarm door took its tier away; `payload` is the rest. */
  datatype Entry = Entry(sid: Option<string>, cid: Option<string>, retired: bool, live: bool, approval: Option<string>,
                         generation: Option<string>, ruleHash: Option<string>, specHash: Option<string>,
                         predecessors: set<Key>,
                         failures: nat, stampHolds: bool, disarmedAt: Option<string>, payload: string)

  datatype Candidate = Candidate(cid: string, sid: Option<string>, generation: Option<string>, ruleHash: Option<string>,
                                 specHash: Option<string>, payload: string)

  predicate Named(x: Option<string>) {
    x.Some? && x.value != ""
  }

  /** How a missing id prints. */
  function Show(x: Option<string>): string {
    if x.Some? then x.value else "None"
  }

  // ---------------------------------------------------------------------------------------------
  // Lineages
  // ---------------------------------------------------------------------------------------------

  function PreciseOwn(e: Entry): set<Key> {
    (if Named(e.cid) then {Cand(e.cid.value)} else {})
    + (if Named(e.generation) && Named(e.ruleHash) then {Gen(e.generation.value, e.ruleHash.value)} else {})
  }

  /** `own_attribution_keys`. */
  function OwnKeys(e: Entry): set<Key> {
    PreciseOwn(e) + if Named(e.sid) then {Sid(e.sid.value)} else {}
  }

  /** `precise_lineage_keys`: the display name only when nothing better names the lineage, and what it inherited. */
  function PreciseKeys(e: Entry): set<Key> {
    (if PreciseOwn(e) != {} then PreciseOwn(e) else OwnKeys(e)) + e.predecessors
  }

  function Rules(ruleHash: Option<string>, specHash: Option<string>): set<string> {
    (if Named(ruleHash) then {ruleHash.value} else {}) + (if Named(specHash) then {specHash.value} else {})
  }

  predicate IsOwn(c: Candidate, e: Entry) {
    c.cid != "" && e.cid == Some(c.cid)
  }

  /** `same_rule_entries`: the rule under another lineage. */
  predicate SameRule(c: Candidate, e: Entry) {
    !IsOwn(c, e) && Rules(c.ruleHash, c.specHash) * Rules(e.ruleHash, e.specHash) != {}
  }

  /** `replaced_entries`, as positions in the pool: the retired entries of a returning rule. */
  function Replaced(c: Candidate, onDisk: seq<Entry>): set<nat> {
    if exists e :: e in onDisk && IsOwn(c, e) && !e.retired then {}
    else set i: nat | i < |onDisk| && SameRule(c, onDisk[i]) && onDisk[i].retired
  }

  function Leaving(cs: seq<Candidate>, onDisk: seq<Entry>): set<nat> {
    set c, i | c in cs && i in Replaced(c, onDisk) :: i
  }

  /** The candidate's own entry: the last one on disk that carries its id. */
  function OwnEntry(c: Candidate, onDisk: seq<Entry>): Option<Entry> {
    if onDisk == [] then None
    else if IsOwn(c, onDisk[|onDisk| - 1]) then Some(onDisk[|onDisk| - 1]) else OwnEntry(c, onDisk[..|onDisk| - 1])
  }

  /** What the new entry inherits, over the first `n` entries: its own entry's inheritance, and what names each entry it
    * replaces. */
  function InheritsUpTo(c: Candidate, onDisk: seq<Entry>, n: nat): set<Key>
    requires n <= |onDisk|
  {
    if n == 0 then if OwnEntry(c, onDisk).Some? then OwnEntry(c, onDisk).value.predecessors else {}
    else
      var before := InheritsUpTo(c, onDisk, n - 1);
      if n - 1 in Replaced(c, onDisk) then before + PreciseKeys(onDisk[n - 1]) else before
  }

  function Inherits(c: Candidate, onDisk: seq<Entry>): set<Key> {
    InheritsUpTo(c, onDisk, |onDisk|)
  }

  /** Nothing more and nothing less: a key is inherited exactly when the own entry had inherited it, or it names a
    * replaced entry. */
  lemma {:induction false} InheritsExactly(c: Candidate, onDisk: seq<Entry>, n: nat, k: Key)
    requires n <= |onDisk|
    ensures k in InheritsUpTo(c, onDisk, n) <==>
            || (OwnEntry(c, onDisk).Some? && k in OwnEntry(c, onDisk).value.predecessors)
            || exists i :: 0 <= i < n && i in Replaced(c, onDisk) && k in PreciseKeys(onDisk[i])
  {
    if n > 0 {
      InheritsExactly(c, onDisk, n - 1, k);
    }
  }

  /** The longest failure streak among its own entry and what it replaces. */
  function Carried(c: Candidate, onDisk: seq<Entry>, n: nat): nat
    requires n <= |onDisk|
  {
    if n == 0 then if OwnEntry(c, onDisk).Some? then OwnEntry(c, onDisk).value.failures else 0
    else
      var before := Carried(c, onDisk, n - 1);
      if n - 1 in Replaced(c, onDisk) && onDisk[n - 1].failures > before then onDisk[n - 1].failures else before
  }

  /** The comprehensions over what a candidate replaces. */
  method Inherit(c: Candidate, onDisk: seq<Entry>) returns (keys: set<Key>, failures: nat)
    ensures keys == Inherits(c, onDisk) && failures == Carried(c, onDisk, |onDisk|)
  {
    var own := OwnEntry(c, onDisk);
    keys := if own.Some? then own.value.predecessors else {};
    failures := if own.Some? then own.value.failures else 0;
    var replaced := Replaced(c, onDisk);
    for i := 0 to |onDisk|
      invariant keys == InheritsUpTo(c, onDisk, i) && failures == Carried(c, onDisk, i)
    {
      if i in replaced {
        keys := keys + PreciseKeys(onDisk[i]);
        if onDisk[i].failures > failures {
          failures := onDisk[i].failures;
        }
      }
    }
  }

  // ---------------------------------------------------------------------------------------------
  // Assembly
  // ---------------------------------------------------------------------------------------------

  datatype Refusal = AlreadyInPool(cid: string) | NoUniqueId(cid: string)

  datatype Assembly = Assembled(entries: seq<Entry>) | Refused(refusal: Refusal)

  function Without(onDisk: seq<Entry>, leaving: set<nat>): seq<Entry> {
    if onDisk == [] then []
    else
      var n := |onDisk| - 1;
      if n in leaving then Without(onDisk[..n], leaving) else Without(onDisk[..n], leaving) + [onDisk[n]]
  }

  /** The incumbents the new pool starts from: none in replace mode. */
  function Incumbents(onDisk: seq<Entry>, cs: seq<Candidate>, keepActive: bool): seq<Entry> {
    if keepActive then Without(onDisk, Leaving(cs, onDisk)) else []
  }

  function Sids(es: seq<Entry>): set<Option<string>> {
    set e | e in es :: e.sid
  }

  function Cids(es: seq<Entry>): set<Option<string>> {
    set e | e in es :: e.cid
  }

  /** The display id: the candidate's own, or `{strategy_id}-{generation_id}` where that one is taken. */
  function DisplayId(c: Candidate, taken: set<Option<string>>): Option<Option<string>> {
    if c.sid !in taken then Some(c.sid)
    else if !Named(c.generation) then None
    else
      var derived := Some(Show(c.sid) + "-" + c.generation.value);
      if derived in taken then None else Some(derived)
  }

  /** The tier asked for, and the approval that was verified, if any. */
  datatype Arm = Arm(live: bool, approval: Option<string>)

  function NewEntry(c: Candidate, sid: Option<string>, onDisk: seq<Entry>, arm: Arm): Entry {
    Entry(sid, Some(c.cid), false, arm.live, if arm.live then arm.approval else None, c.generation, c.ruleHash,
          c.specHash,
          Inherits(c, onDisk), Carried(c, onDisk, |onDisk|), true, None, c.payload)
  }

  /** One candidate added to what has been assembled. */
  function AddCandidate(es: seq<Entry>, c: Candidate, onDisk: seq<Entry>, arm: Arm): Assembly {
    if Some(c.cid) in Cids(es) then Refused(AlreadyInPool(c.cid))
    else
      var sid := DisplayId(c, Sids(es));
      if sid.None? then Refused(NoUniqueId(c.cid)) else Assembled(es + [NewEntry(c, sid.value, onDisk, arm)])
  }

  /** What the loop has assembled after the first `n` candidates. */
  function AssembleUpTo(base: seq<Entry>, onDisk: seq<Entry>, cs: seq<Candidate>, arm: Arm, n: nat): Assembly
    requires n <= |cs|
  {
    if n == 0 then Assembled(base)
    else
      var before := AssembleUpTo(base, onDisk, cs, arm, n - 1);
      if before.Refused? then before else AddCandidate(before.entries, cs[n - 1], onDisk, arm)
  }

  function Assemble(onDisk: seq<Entry>, cs: seq<Candidate>, keepActive: bool, arm: Arm): Assembly {
    AssembleUpTo(Incumbents(onDisk, cs, keepActive), onDisk, cs, arm, |cs|)
  }

  method NameEntry(c: Candidate, existingIds: set<Option<string>>) returns (sid: Option<Option<string>>)
    ensures sid == DisplayId(c, existingIds)
  {
    if c.sid !in existingIds {
      return Some(c.sid);
    }
    var derived := if Named(c.generation) then Some(Show(c.sid) + "-" + c.generation.value) else None;
    sid := if derived == None || derived in existingIds then None else Some(derived);
  }

  method BuildEntry(c: Candidate, sid: Option<string>, onDisk: seq<Entry>, arm: Arm) returns (e: Entry)
    ensures e == NewEntry(c, sid, onDisk, arm)
  {
    var keys, failures := Inherit(c, onDisk);
    e := Entry(sid, Some(c.cid), false, arm.live, if arm.live then arm.approval else None, c.generation, c.ruleHash,
               c.specHash, keys, failures, true, None, c.payload);
  }

  /** The body of the assembly loop; the two sets are the ids of what is assembled so far. */
  method AddEntry(entries: seq<Entry>, existingIds: set<Option<string>>, existingCids: set<Option<string>>,
                  c: Candidate, onDisk: seq<Entry>, arm: Arm)
    returns (r: Assembly, ids: set<Option<string>>, cids: set<Option<string>>)
    requires existingIds == Sids(entries) && existingCids == Cids(entries)
    ensures r == AddCandidate(entries, c, onDisk, arm)
    ensures r.Assembled? ==> ids == Sids(r.entries) && cids == Cids(r.entries)
  {
    ids, cids := existingIds, existingCids;
    if Some(c.cid) in existingCids {
      return Refused(AlreadyInPool(c.cid)), ids, cids;
    }
    var sid := NameEntry(c, existingIds);
    if sid.None? {
      return Refused(NoUniqueId(c.cid)), ids, cids;
    }
    var entry := BuildEntry(c, sid.value, onDisk, arm);
    ids, cids := existingIds + {sid.value}, existingCids + {Some(c.cid)};
    r := Assembled(entries + [entry]);
  }

  /** The assembly loop of `run_promotion`. */
  method AssemblePool(onDisk: seq<Entry>, cs: seq<Candidate>, keepActive: bool, arm: Arm) returns (r: Assembly)
    ensures r == Assemble(onDisk, cs, keepActive, arm)
  {
    var base := Incumbents(onDisk, cs, keepActive);
    var entries := base;
    var existingIds, existingCids := Sids(entries), Cids(entries);
    for n := 0 to |cs|
      invariant AssembleUpTo(base, onDisk, cs, arm, n) == Assembled(entries)
      invariant existingIds == Sids(entries) && existingCids == Cids(entries)
    {
      r, existingIds, existingCids := AddEntry(entries, existingIds, existingCids, cs[n], onDisk, arm);
      if r.Refused? {
        RefusedStays(base, onDisk, cs, arm, n + 1, |cs|);
        return;
      }
      entries := r.entries;
    }
    r := Assembled(entries);
  }

  lemma {:induction false} RefusedStays(base: seq<Entry>, onDisk: seq<Entry>, cs: seq<Candidate>, arm: Arm, n: nat,
                                        m: nat)
    requires n <= m <= |cs| && AssembleUpTo(base, onDisk, cs, arm, n).Refused?
    ensures AssembleUpTo(base, onDisk, cs, arm, m) == AssembleUpTo(base, onDisk, cs, arm, n)
  {
    if n < m {
      RefusedStays(base, onDisk, cs, arm, n, m - 1);
    }
  }

  // ---------------------------------------------------------------------------------------------
  // What is replaced and inherited, read off the entries
  // ---------------------------------------------------------------------------------------------

  predicate SameHash(a: Option<string>, b: Option<string>) {
    a == b && a.Some? && a.value != ""
  }

  predicate SharesRule(c: Candidate, e: Entry) {
    || SameHash(c.ruleHash, e.ruleHash) || SameHash(c.ruleHash, e.specHash)
    || SameHash(c.specHash, e.ruleHash) || SameHash(c.specHash, e.specHash)
  }

  /** Position `i` holds the candidate's id, and no later one does. */
  predicate OwnAt(c: Candidate, onDisk: seq<Entry>, i: nat) {
    && i < |onDisk| && c.cid != "" && onDisk[i].cid == Some(c.cid)
    && forall j :: i < j < |onDisk| ==> onDisk[j].cid != Some(c.cid)
  }

  /** Position `i` is retired and holds the candidate's rule under another id, or none, and nothing that trades holds
    * the candidate's own id. */
  predicate ReplacedAt(c: Candidate, onDisk: seq<Entry>, i: nat) {
    && i < |onDisk| && onDisk[i].retired && SharesRule(c, onDisk[i])
    && (c.cid != "" ==> onDisk[i].cid != Some(c.cid)
                        && forall e :: e in onDisk && e.cid == Some(c.cid) ==> e.retired)
  }

  predicate NamesLineage(e: Entry, k: Key) {
    || k in e.predecessors
    || match k
       case Cand(id) => id != "" && e.cid == Some(id)
       case Gen(generation, rule) =>
         generation != "" && rule != "" && e.generation == Some(generation) && e.ruleHash == Some(rule)
       case Sid(name) =>
         && name != "" && e.sid == Some(name) && (e.cid == None || e.cid == Some(""))
         && (e.generation == None || e.generation == Some("") || e.ruleHash == None || e.ruleHash == Some(""))
  }

  /** A retired entry is replaced exactly by a candidate of its rule that is not listed under its own id already. */
  lemma ReplacedExactly(c: Candidate, onDisk: seq<Entry>, i: nat)
    ensures i in Replaced(c, onDisk) <==> ReplacedAt(c, onDisk, i)
  {
    if i < |onDisk| {
      SharesExactly(c, onDisk[i]);
    }
  }

  lemma SharesExactly(c: Candidate, e: Entry)
    ensures SharesRule(c, e) <==> Rules(c.ruleHash, c.specHash) * Rules(e.ruleHash, e.specHash) != {}
  {
    var both := Rules(c.ruleHash, c.specHash) * Rules(e.ruleHash, e.specHash);
    if SharesRule(c, e) {
      var h := if SameHash(c.ruleHash, e.ruleHash) || SameHash(c.ruleHash, e.specHash) then c.ruleHash else c.specHash;
      assert h.value in both;
    } else {
      assert forall h :: h !in both;
    }
  }

  /** A display name names a lineage only when nothing better does. */
  lemma PreciseExactly(e: Entry, k: Key)
    ensures k in PreciseKeys(e) <==> NamesLineage(e, k)
  {
    if Named(e.cid) {
      assert Cand(e.cid.value) in PreciseOwn(e);
    }
    if Named(e.generation) && Named(e.ruleHash) {
      assert Gen(e.generation.value, e.ruleHash.value) in PreciseOwn(e);
    }
  }

  lemma {:induction false} OwnExactly(c: Candidate, onDisk: seq<Entry>)
    ensures OwnEntry(c, onDisk).Some? ==>
              exists i: nat :: i < |onDisk| && OwnAt(c, onDisk, i) && onDisk[i] == OwnEntry(c, onDisk).value
    ensures OwnEntry(c, onDisk).None? ==> forall i: nat :: i < |onDisk| ==> !OwnAt(c, onDisk, i)
  {
    if onDisk != [] {
      var n: nat := |onDisk| - 1;
      if IsOwn(c, onDisk[n]) {
        assert OwnAt(c, onDisk, n);
      } else {
        OwnExactly(c, onDisk[..n]);
        forall i: nat | i < n ensures OwnAt(c, onDisk, i) == OwnAt(c, onDisk[..n], i) {
          assert onDisk[..n][i] == onDisk[i];
          if OwnAt(c, onDisk[..n], i) {
            forall j | i < j < |onDisk| ensures onDisk[j].cid != Some(c.cid) {
              if j < n {
                assert onDisk[..n][j] == onDisk[j];
              }
            }
          }
        }
      }
    }
  }

  /** The entry a candidate is inherits `k` from position `i`. */
  predicate KeyFrom(c: Candidate, onDisk: seq<Entry>, i: nat, k: Key) {
    || (OwnAt(c, onDisk, i) && k in onDisk[i].predecessors)
    || (ReplacedAt(c, onDisk, i) && NamesLineage(onDisk[i], k))
  }

  ghost predicate InheritsRight(keys: set<Key>, c: Candidate, onDisk: seq<Entry>) {
    forall k :: k in keys <==> exists i :: 0 <= i < |onDisk| && KeyFrom(c, onDisk, i, k)
  }

  predicate StreakFrom(c: Candidate, onDisk: seq<Entry>, i: nat) {
    OwnAt(c, onDisk, i) || ReplacedAt(c, onDisk, i)
  }

  /** `n` is the longest streak among its own entry and those it replaces, and zero without any. */
  predicate StreakRight(n: nat, c: Candidate, onDisk: seq<Entry>) {
    && (forall i :: 0 <= i < |onDisk| && StreakFrom(c, onDisk, i) ==> onDisk[i].failures <= n)
    && (n > 0 ==> exists i :: 0 <= i < |onDisk| && StreakFrom(c, onDisk, i) && onDisk[i].failures == n)
  }

  lemma InheritsKeys(c: Candidate, onDisk: seq<Entry>)
    ensures InheritsRight(Inherits(c, onDisk), c, onDisk)
  {
    forall k ensures k in Inherits(c, onDisk) <==> exists i :: 0 <= i < |onDisk| && KeyFrom(c, onDisk, i, k) {
      InheritsKey(c, onDisk, k);
    }
  }

  lemma OwnIsOne(c: Candidate, onDisk: seq<Entry>, i: nat)
    requires OwnAt(c, onDisk, i)
    ensures OwnEntry(c, onDisk) == Some(onDisk[i])
  {
    OwnExactly(c, onDisk);
    var j :| 0 <= j < |onDisk| && OwnAt(c, onDisk, j) && onDisk[j] == OwnEntry(c, onDisk).value;
    assert i == j;
  }

  lemma InheritsKey(c: Candidate, onDisk: seq<Entry>, k: Key)
    ensures k in Inherits(c, onDisk) <==> exists i :: 0 <= i < |onDisk| && KeyFrom(c, onDisk, i, k)
  {
    InheritsExactly(c, onDisk, |onDisk|, k);
    if k in Inherits(c, onDisk) {
      if i :| 0 <= i < |onDisk| && i in Replaced(c, onDisk) && k in PreciseKeys(onDisk[i]) {
        ReplacedExactly(c, onDisk, i);
        PreciseExactly(onDisk[i], k);
        assert KeyFrom(c, onDisk, i, k);
      } else {
        OwnExactly(c, onDisk);
        var i :| 0 <= i < |onDisk| && OwnAt(c, onDisk, i) && onDisk[i] == OwnEntry(c, onDisk).value;
        assert KeyFrom(c, onDisk, i, k);
      }
    }
    if i :| 0 <= i < |onDisk| && KeyFrom(c, onDisk, i, k) {
      ReplacedExactly(c, onDisk, i);
      PreciseExactly(onDisk[i], k);
      if OwnAt(c, onDisk, i) {
        OwnIsOne(c, onDisk, i);
      }
    }
  }

  lemma {:induction false} CarriedFrom(c: Candidate, onDisk: seq<Entry>, n: nat)
    requires n <= |onDisk|
    ensures OwnEntry(c, onDisk).Some? ==> Carried(c, onDisk, n) >= OwnEntry(c, onDisk).value.failures
    ensures forall i :: 0 <= i < n && i in Replaced(c, onDisk) ==> Carried(c, onDisk, n) >= onDisk[i].failures
    ensures || Carried(c, onDisk, n) == 0
            || (OwnEntry(c, onDisk).Some? && Carried(c, onDisk, n) == OwnEntry(c, onDisk).value.failures)
            || exists i :: 0 <= i < n && i in Replaced(c, onDisk) && Carried(c, onDisk, n) == onDisk[i].failures
  {
    if n > 0 {
      CarriedFrom(c, onDisk, n - 1);
    }
  }

  lemma CarriedIsLongest(c: Candidate, onDisk: seq<Entry>)
    ensures StreakRight(Carried(c, onDisk, |onDisk|), c, onDisk)
  {
    var n := Carried(c, onDisk, |onDisk|);
    CarriedFrom(c, onDisk, |onDisk|);
    forall i | 0 <= i < |onDisk| && StreakFrom(c, onDisk, i) ensures onDisk[i].failures <= n {
      ReplacedExactly(c, onDisk, i);
      if OwnAt(c, onDisk, i) {
        OwnIsOne(c, onDisk, i);
      }
    }
    if n > 0 {
      if i :| 0 <= i < |onDisk| && i in Replaced(c, onDisk) && n == onDisk[i].failures {
        ReplacedExactly(c, onDisk, i);
        assert StreakFrom(c, onDisk, i);
      } else {
        OwnExactly(c, onDisk);
        var i :| 0 <= i < |onDisk| && OwnAt(c, onDisk, i) && onDisk[i] == OwnEntry(c, onDisk).value;
        assert StreakFrom(c, onDisk, i);
      }
    }
  }

  /** The new entry of a candidate, but for its display id. */
  ghost predicate EntryOf(e: Entry, c: Candidate, onDisk: seq<Entry>, arm: Arm) {
    && e.cid == Some(c.cid) && e.generation == c.generation && e.ruleHash == c.ruleHash && e.specHash == c.specHash
    && e.payload == c.payload && !e.retired && e.stampHolds && e.disarmedAt.None?
    && e.live == arm.live && e.approval == (if arm.live then arm.approval else None)
    && InheritsRight(e.predecessors, c, onDisk) && StreakRight(e.failures, c, onDisk)
  }

  lemma EntryExactly(e: Entry, c: Candidate, onDisk: seq<Entry>, arm: Arm)
    ensures EntryOf(e, c, onDisk, arm) <==> e == NewEntry(c, e.sid, onDisk, arm)
  {
    InheritsKeys(c, onDisk);
    CarriedIsLongest(c, onDisk);
    if EntryOf(e, c, onDisk, arm) {
      assert e.predecessors == Inherits(c, onDisk);
      OneLongest(e.failures, Carried(c, onDisk, |onDisk|), c, onDisk);
      OneLongest(Carried(c, onDisk, |onDisk|), e.failures, c, onDisk);
    }
  }

  lemma OneLongest(m: nat, n: nat, c: Candidate, onDisk: seq<Entry>)
    requires StreakRight(m, c, onDisk) && StreakRight(n, c, onDisk)
    ensures m <= n
  {
    if m > 0 {
      var i :| 0 <= i < |onDisk| && StreakFrom(c, onDisk, i) && onDisk[i].failures == m;
    }
  }

  // ---------------------------------------------------------------------------------------------
  // What an assembled pool is
  // ---------------------------------------------------------------------------------------------

  /** The first two loops of `assert_pool_identity_unique`: no two entries share a strategy id or a candidate id. */
  predicate UniqueIds(es: seq<Entry>) {
    forall i, j :: 0 <= i < j < |es| ==>
      (Named(es[i].sid) ==> es[i].sid != es[j].sid) && (Named(es[i].cid) ==> es[i].cid != es[j].cid)
  }

  lemma {:induction false} WithoutKeeps(onDisk: seq<Entry>, leaving: set<nat>, i: nat) returns (k: nat)
    requires i < |onDisk| && i !in leaving
    ensures k < |Without(onDisk, leaving)| && Without(onDisk, leaving)[k] == onDisk[i]
  {
    var n := |onDisk| - 1;
    if i == n {
      k := |Without(onDisk[..n], leaving)|;
    } else {
      k := WithoutKeeps(onDisk[..n], leaving, i);
    }
  }

  lemma {:induction false} WithoutFrom(onDisk: seq<Entry>, leaving: set<nat>)
    ensures forall e :: e in Without(onDisk, leaving) ==>
              exists i :: 0 <= i < |onDisk| && i !in leaving && onDisk[i] == e
    ensures UniqueIds(onDisk) ==> UniqueIds(Without(onDisk, leaving))
  {
    if onDisk != [] {
      var n := |onDisk| - 1;
      var before := Without(onDisk[..n], leaving);
      WithoutFrom(onDisk[..n], leaving);
      forall e | e in Without(onDisk, leaving)
        ensures exists i :: 0 <= i < |onDisk| && i !in leaving && onDisk[i] == e
      {
        if e in before {
          var i :| 0 <= i < n && i !in leaving && onDisk[..n][i] == e;
          assert onDisk[i] == e;
        } else {
          assert onDisk[n] == e;
        }
      }
      if UniqueIds(onDisk) && n !in leaving {
        forall i | 0 <= i < |before|
          ensures Named(before[i].sid) ==> before[i].sid != onDisk[n].sid
          ensures Named(before[i].cid) ==> before[i].cid != onDisk[n].cid
        {
          assert before[i] in before;
          var j :| 0 <= j < n && j !in leaving && onDisk[..n][j] == before[i];
          assert onDisk[j] == before[i];
        }
      }
    }
  }

  /** Position `i` of the assembled pool is new, and its ids differ from those of every entry before it. */
  predicate FreshAt(es: seq<Entry>, i: nat)
    requires i < |es|
  {
    forall j :: 0 <= j < i ==> es[j].sid != es[i].sid && es[j].cid != es[i].cid
  }

  /** The new entry keeps the candidate's own name unless an entry before it has it, and is then told apart by its
    * generation. */
  predicate NamedRight(es: seq<Entry>, i: nat, c: Candidate)
    requires i < |es|
  {
    if forall j :: 0 <= j < i ==> es[j].sid != c.sid then es[i].sid == c.sid
    else Named(c.generation) && es[i].sid == Some(Show(c.sid) + "-" + c.generation.value)
  }

  lemma NameSnoc(es: seq<Entry>, e: Entry, c: Candidate)
    requires DisplayId(c, Sids(es)) == Some(e.sid)
    ensures NamedRight(es + [e], |es|, c)
  {
    var all := es + [e];
    if c.sid !in Sids(es) {
      forall j | 0 <= j < |es| ensures all[j].sid != c.sid {
        assert es[j] in es && all[j] == es[j];
      }
    } else {
      var x :| x in es && x.sid == c.sid;
      var j :| 0 <= j < |es| && es[j] == x;
      assert all[j].sid == c.sid;
    }
  }

  /** Position `j` holds the entry of candidate `c`, told apart from all before it. */
  predicate Placed(es: seq<Entry>, j: nat, c: Candidate)
    requires j < |es|
  {
    FreshAt(es, j) && NamedRight(es, j, c)
  }

  lemma PlacedStays(es: seq<Entry>, e: Entry, j: nat, c: Candidate)
    requires j < |es| && Placed(es, j, c)
    ensures Placed(es + [e], j, c)
  {
    var more := es + [e];
    assert forall i :: 0 <= i <= j ==> more[i] == es[i];
  }

  /** Position `j`, after `first` incumbents, holds the new entry of its candidate. */
  ghost predicate Built(es: seq<Entry>, first: nat, j: nat, onDisk: seq<Entry>, cs: seq<Candidate>, arm: Arm) {
    && first <= j < |es| && j - first < |cs|
    && EntryOf(es[j], cs[j - first], onDisk, arm) && Placed(es, j, cs[j - first])
  }

  /** `base`, unchanged, and one new entry a candidate, in order; each new entry's ids differ from every id before
    * it. */
  ghost predicate Shape(es: seq<Entry>, base: seq<Entry>, onDisk: seq<Entry>, cs: seq<Candidate>, arm: Arm, n: nat)
    requires n <= |cs|
  {
    && |es| == |base| + n && base <= es
    && forall j :: |base| <= j < |es| ==> Built(es, |base|, j, onDisk, cs, arm)
  }

  lemma ShapeSnoc(es: seq<Entry>, e: Entry, base: seq<Entry>, onDisk: seq<Entry>, cs: seq<Candidate>, arm: Arm, n: nat)
    requires n < |cs| && Shape(es, base, onDisk, cs, arm, n)
    requires EntryOf(e, cs[n], onDisk, arm) && Placed(es + [e], |es|, cs[n])
    ensures Shape(es + [e], base, onDisk, cs, arm, n + 1)
  {
    var more := es + [e];
    forall j | |base| <= j < |more| ensures Built(more, |base|, j, onDisk, cs, arm) {
      if j < |es| {
        assert Built(es, |base|, j, onDisk, cs, arm) && more[j] == es[j];
        PlacedStays(es, e, j, cs[j - |base|]);
      }
    }
  }

  lemma AddedIsPlaced(es: seq<Entry>, c: Candidate, onDisk: seq<Entry>, arm: Arm) returns (e: Entry)
    requires AddCandidate(es, c, onDisk, arm).Assembled?
    ensures AddCandidate(es, c, onDisk, arm).entries == es + [e] && EntryOf(e, c, onDisk, arm)
    ensures Placed(es + [e], |es|, c) && (UniqueIds(es) ==> UniqueIds(es + [e]))
  {
    e := NewEntry(c, DisplayId(c, Sids(es)).value, onDisk, arm);
    EntryExactly(e, c, onDisk, arm);
    NameSnoc(es, e, c);
  }

  lemma ShapeAdd(es: seq<Entry>, more: seq<Entry>, base: seq<Entry>, onDisk: seq<Entry>, cs: seq<Candidate>, arm: Arm,
                 n: nat)
    requires n < |cs| && Shape(es, base, onDisk, cs, arm, n) && AddCandidate(es, cs[n], onDisk, arm) == Assembled(more)
    ensures Shape(more, base, onDisk, cs, arm, n + 1) && (UniqueIds(es) ==> UniqueIds(more))
  {
    var e := AddedIsPlaced(es, cs[n], onDisk, arm);
    ShapeSnoc(es, e, base, onDisk, cs, arm, n);
  }

  lemma {:induction false} ShapeUpTo(base: seq<Entry>, onDisk: seq<Entry>, cs: seq<Candidate>, arm: Arm, n: nat,
                                     es: seq<Entry>)
    requires n <= |cs| && AssembleUpTo(base, onDisk, cs, arm, n) == Assembled(es)
    ensures Shape(es, base, onDisk, cs, arm, n) && (UniqueIds(base) ==> UniqueIds(es))
  {
    if n > 0 {
      var m: nat := n - 1;
      var before := LastAdded(base, onDisk, cs, arm, m, es);
      ShapeUpTo(base, onDisk, cs, arm, m, before);
      ShapeAdd(before, es, base, onDisk, cs, arm, m);
    }
  }

  lemma LastAdded(base: seq<Entry>, onDisk: seq<Entry>, cs: seq<Candidate>, arm: Arm, m: nat, es: seq<Entry>)
    returns (before: seq<Entry>)
    requires m < |cs| && AssembleUpTo(base, onDisk, cs, arm, m + 1) == Assembled(es)
    ensures AssembleUpTo(base, onDisk, cs, arm, m) == Assembled(before)
    ensures AddCandidate(before, cs[m], onDisk, arm) == Assembled(es)
  {
    before := AssembleUpTo(base, onDisk, cs, arm, m).entries;
  }

  /** `base` is the entries on disk that no candidate replaces, in their order, each at the position `at` names. */
  ghost predicate KeptBase(base: seq<Entry>, at: seq<nat>, onDisk: seq<Entry>, cs: seq<Candidate>) {
    && |at| == |base|
    && (forall k, l :: 0 <= k < l < |at| ==> at[k] < at[l])
    && (forall k :: 0 <= k < |at| ==> at[k] < |onDisk| && base[k] == onDisk[at[k]])
    && forall i: nat :: i < |onDisk| ==> (i in at <==> !exists c :: c in cs && ReplacedAt(c, onDisk, i))
  }

  lemma {:induction false} WithoutAt(onDisk: seq<Entry>, leaving: set<nat>) returns (at: seq<nat>)
    ensures var base := Without(onDisk, leaving);
            && |at| == |base|
            && (forall k, l :: 0 <= k < l < |at| ==> at[k] < at[l])
            && (forall k :: 0 <= k < |at| ==> at[k] < |onDisk| && base[k] == onDisk[at[k]])
            && forall i: nat :: i < |onDisk| ==> (i in at <==> i !in leaving)
  {
    at := [];
    if onDisk != [] {
      var n: nat := |onDisk| - 1;
      at := WithoutAt(onDisk[..n], leaving);
      assert forall k :: k in at ==> k < n;
      if n !in leaving {
        at := at + [n];
      }
    }
  }

  /** In add mode the new pool starts with exactly the entries that no candidate replaces, in order; in replace mode
    * with none. */
  lemma KeptExactly(onDisk: seq<Entry>, cs: seq<Candidate>) returns (at: seq<nat>)
    ensures KeptBase(Incumbents(onDisk, cs, true), at, onDisk, cs) && Incumbents(onDisk, cs, false) == []
  {
    at := WithoutAt(onDisk, Leaving(cs, onDisk));
    forall i: nat | i < |onDisk| ensures i in Leaving(cs, onDisk) <==> exists c :: c in cs && ReplacedAt(c, onDisk, i) {
      LeavingExactly(onDisk, cs, i);
    }
  }

  lemma LeavingExactly(onDisk: seq<Entry>, cs: seq<Candidate>, i: nat)
    ensures i in Leaving(cs, onDisk) <==> exists c :: c in cs && ReplacedAt(c, onDisk, i)
  {
    forall c ensures i in Replaced(c, onDisk) <==> ReplacedAt(c, onDisk, i) {
      ReplacedExactly(c, onDisk, i);
    }
  }

  /** A completed assembly is the incumbents, unchanged, and one new entry a candidate; a pool whose ids were distinct
    * stays so whatever the batch's names. */
  lemma AssemblyShape(onDisk: seq<Entry>, cs: seq<Candidate>, keepActive: bool, arm: Arm)
    requires Assemble(onDisk, cs, keepActive, arm).Assembled?
    ensures var es := Assemble(onDisk, cs, keepActive, arm).entries;
            Shape(es, Incumbents(onDisk, cs, keepActive), onDisk, cs, arm, |cs|)
            && (UniqueIds(onDisk) ==> UniqueIds(es))
  {
    WithoutFrom(onDisk, Leaving(cs, onDisk));
    ShapeUpTo(Incumbents(onDisk, cs, keepActive), onDisk, cs, arm, |cs|, Assemble(onDisk, cs, keepActive, arm).entries);
  }

  lemma AddExactly(es: seq<Entry>, e: Entry, c: Candidate, onDisk: seq<Entry>, arm: Arm)
    requires EntryOf(e, c, onDisk, arm) && Placed(es + [e], |es|, c)
    ensures AddCandidate(es, c, onDisk, arm) == Assembled(es + [e])
  {
    var all := es + [e];
    forall x | x in es ensures x.cid != Some(c.cid) && x.sid != e.sid {
      var j :| 0 <= j < |es| && es[j] == x;
      assert all[j] == x;
    }
    assert c.sid in Sids(es) <==> exists j :: 0 <= j < |es| && all[j].sid == c.sid by {
      if c.sid in Sids(es) {
        var x :| x in es && x.sid == c.sid;
        var j :| 0 <= j < |es| && es[j] == x;
        assert all[j].sid == c.sid;
      }
      if j :| 0 <= j < |es| && all[j].sid == c.sid {
        assert es[j] in es;
      }
    }
    EntryExactly(e, c, onDisk, arm);
  }

  lemma {:induction false} ShapeIsUpTo(es: seq<Entry>, base: seq<Entry>, onDisk: seq<Entry>, cs: seq<Candidate>,
                                       arm: Arm, n: nat)
    requires n <= |cs| && Shape(es, base, onDisk, cs, arm, n)
    ensures AssembleUpTo(base, onDisk, cs, arm, n) == Assembled(es)
    decreases n
  {
    if n == 0 {
      assert es == base;
    } else {
      var m: nat := n - 1;
      var before, e := ShapeUnsnoc(es, base, onDisk, cs, arm, m);
      ShapeIsUpTo(before, base, onDisk, cs, arm, m);
      AddExactly(before, e, cs[m], onDisk, arm);
    }
  }

  lemma ShapeUnsnoc(es: seq<Entry>, base: seq<Entry>, onDisk: seq<Entry>, cs: seq<Candidate>, arm: Arm, m: nat)
    returns (before: seq<Entry>, e: Entry)
    requires m < |cs| && Shape(es, base, onDisk, cs, arm, m + 1)
    ensures es == before + [e] && Shape(before, base, onDisk, cs, arm, m)
    ensures EntryOf(e, cs[m], onDisk, arm) && Placed(before + [e], |before|, cs[m])
  {
    var l: nat := |es| - 1;
    before, e := es[..l], es[l];
    forall j | |base| <= j < l ensures Built(before, |base|, j, onDisk, cs, arm) {
      assert Built(es, |base|, j, onDisk, cs, arm);
      PlacedBefore(es, before, j, cs[j - |base|]);
    }
    assert Built(es, |base|, l, onDisk, cs, arm);
    assert es == before + [e];
  }

  lemma PlacedBefore(es: seq<Entry>, before: seq<Entry>, j: nat, c: Candidate)
    requires before <= es && j < |before| && Placed(es, j, c)
    ensures Placed(before, j, c)
  {
    assert forall i :: 0 <= i <= j ==> es[i] == before[i];
  }

  /** What the assembly answers is decided by what an assembled pool is: `es` is its answer exactly when it is the
    * incumbents and, in order, one entry a candidate, each carrying what its candidate, what it replaces and the tier
    * asked for say, under an id that is free. */
  lemma AssembledExactly(onDisk: seq<Entry>, cs: seq<Candidate>, keepActive: bool, arm: Arm, es: seq<Entry>)
    ensures Assemble(onDisk, cs, keepActive, arm) == Assembled(es) <==>
            Shape(es, Incumbents(onDisk, cs, keepActive), onDisk, cs, arm, |cs|)
  {
    var base := Incumbents(onDisk, cs, keepActive);
    if Assemble(onDisk, cs, keepActive, arm) == Assembled(es) {
      AssemblyShape(onDisk, cs, keepActive, arm);
    }
    if Shape(es, base, onDisk, cs, arm, |cs|) {
      ShapeIsUpTo(es, base, onDisk, cs, arm, |cs|);
    }
  }

  /** Candidate `k` is refused over the `es` assembled before it: its id is there already, or its name is and no free
    * name can be made with its generation. */
  ghost predicate RefusedOver(r: Refusal, es: seq<Entry>, c: Candidate) {
    match r
    case AlreadyInPool(cid) => cid == c.cid && exists e :: e in es && e.cid == Some(c.cid)
    case NoUniqueId(cid) =>
      && cid == c.cid && (forall e :: e in es ==> e.cid != Some(c.cid)) && (exists e :: e in es && e.sid == c.sid)
      && (c.generation == None || c.generation == Some("")
          || exists e :: e in es && e.sid == Some(Show(c.sid) + "-" + c.generation.value))
  }

  lemma RefusesExactly(es: seq<Entry>, c: Candidate, onDisk: seq<Entry>, arm: Arm, r: Refusal)
    ensures AddCandidate(es, c, onDisk, arm) == Refused(r) <==> RefusedOver(r, es, c)
  {
  }

  /** The assembly refuses exactly at the first candidate with no free id, over what was assembled before it. */
  lemma {:induction false} RefusedExactly(base: seq<Entry>, onDisk: seq<Entry>, cs: seq<Candidate>, arm: Arm, n: nat,
                                          r: Refusal)
    requires n <= |cs|
    ensures AssembleUpTo(base, onDisk, cs, arm, n) == Refused(r) <==>
            exists k, es :: 0 <= k < n && Shape(es, base, onDisk, cs, arm, k) && RefusedOver(r, es, cs[k])
  {
    if n > 0 {
      var m: nat := n - 1;
      RefusedExactly(base, onDisk, cs, arm, m, r);
      var before := AssembleUpTo(base, onDisk, cs, arm, m);
      if before.Assembled? {
        ShapeUpTo(base, onDisk, cs, arm, m, before.entries);
        RefusesExactly(before.entries, cs[m], onDisk, arm, r);
      }
      if k, es :| 0 <= k < n && Shape(es, base, onDisk, cs, arm, k) && RefusedOver(r, es, cs[k]) {
        if k == m {
          RefusedThere(base, onDisk, cs, arm, m, es, r);
        }
      }
    }
  }

  lemma RefusedThere(base: seq<Entry>, onDisk: seq<Entry>, cs: seq<Candidate>, arm: Arm, m: nat, es: seq<Entry>,
                     r: Refusal)
    requires m < |cs| && Shape(es, base, onDisk, cs, arm, m) && RefusedOver(r, es, cs[m])
    ensures AssembleUpTo(base, onDisk, cs, arm, m + 1) == Refused(r)
  {
    ShapeIsUpTo(es, base, onDisk, cs, arm, m);
    RefusesExactly(es, cs[m], onDisk, arm, r);
  }

  /** Each entry of the new pool is one of the pool it was built on, or is armed as the promotion asked. */
  lemma KeptOrNew(onDisk: seq<Entry>, cs: seq<Candidate>, keepActive: bool, arm: Arm, j: nat)
    requires Assemble(onDisk, cs, keepActive, arm).Assembled? && j < |Assemble(onDisk, cs, keepActive, arm).entries|
    ensures var e := Assemble(onDisk, cs, keepActive, arm).entries[j];
            e in onDisk
            || (e.live == arm.live && e.approval == (if arm.live then arm.approval else None) && e.stampHolds)
  {
    var es, base := Assemble(onDisk, cs, keepActive, arm).entries, Incumbents(onDisk, cs, keepActive);
    AssemblyShape(onDisk, cs, keepActive, arm);
    if j < |base| {
      WithoutFrom(onDisk, Leaving(cs, onDisk));
      assert es[j] == base[j] && base[j] in base;
    } else {
      assert Built(es, |base|, j, onDisk, cs, arm);
    }
  }

  /** In add mode every incumbent no candidate replaces is still there, as it was. */
  lemma IncumbentsStay(onDisk: seq<Entry>, cs: seq<Candidate>, arm: Arm, i: nat)
    requires i < |onDisk| && i !in Leaving(cs, onDisk) && Assemble(onDisk, cs, true, arm).Assembled?
    ensures onDisk[i] in Assemble(onDisk, cs, true, arm).entries
  {
    AssemblyShape(onDisk, cs, true, arm);
    var k := WithoutKeeps(onDisk, Leaving(cs, onDisk), i);
    assert Assemble(onDisk, cs, true, arm).entries[k] == onDisk[i];
  }

  // ---------------------------------------------------------------------------------------------
  // The record follows the rule
  // ---------------------------------------------------------------------------------------------

  /** `n` answers for what `e` was: it is `e` itself, or the entry that re-lists or replaces it. */
  predicate Heir(e: Entry, n: Entry, onDisk: seq<Entry>, cs: seq<Candidate>) {
    || e == n
    || exists k, i :: 0 <= k < |cs| && 0 <= i < |onDisk| && onDisk[i] == e && n.cid == Some(cs[k].cid)
                      && (n.cid == e.cid || ReplacedAt(cs[k], onDisk, i))
  }

  /** One promotion: what an entry had inherited and its failure streak are at least as much in the entry that re-lists
    * or replaces it, and a replaced entry's own lineage is inherited too. */
  lemma HeirKeepsRecord(onDisk: seq<Entry>, cs: seq<Candidate>, keepActive: bool, arm: Arm, k: nat, i: nat)
    requires k < |cs| && i < |onDisk| && UniqueIds(onDisk) && Assemble(onDisk, cs, keepActive, arm).Assembled?
    requires (cs[k].cid != "" && onDisk[i].cid == Some(cs[k].cid)) || ReplacedAt(cs[k], onDisk, i)
    ensures var es := Assemble(onDisk, cs, keepActive, arm).entries;
            var at := |Incumbents(onDisk, cs, keepActive)| + k;
            && at < |es| && es[at].cid == Some(cs[k].cid)
            && onDisk[i].predecessors <= es[at].predecessors && onDisk[i].failures <= es[at].failures
            && (ReplacedAt(cs[k], onDisk, i) ==>
                  forall key :: NamesLineage(onDisk[i], key) ==> key in es[at].predecessors)
  {
    AssemblyShape(onDisk, cs, keepActive, arm);
    var es, first := Assemble(onDisk, cs, keepActive, arm).entries, |Incumbents(onDisk, cs, keepActive)|;
    assert Built(es, first, first + k, onDisk, cs, arm);
    assert OwnAt(cs[k], onDisk, i) || ReplacedAt(cs[k], onDisk, i);
    assert StreakFrom(cs[k], onDisk, i);
    forall key | key in onDisk[i].predecessors || (ReplacedAt(cs[k], onDisk, i) && NamesLineage(onDisk[i], key))
      ensures key in es[first + k].predecessors
    {
      assert KeyFrom(cs[k], onDisk, i, key);
    }
  }

  /** A promotion, and the pool it left. */
  datatype Promotion = Promotion(cs: seq<Candidate>, keepActive: bool, arm: Arm, after: seq<Entry>)

  predicate Chained(pools: seq<seq<Entry>>, ps: seq<Promotion>) {
    |pools| == |ps| + 1 && UniqueIds(pools[0]) && forall i :: 0 <= i < |ps| ==> ps[i].after == pools[i + 1]
  }

  ghost predicate Succeed(pools: seq<seq<Entry>>, ps: seq<Promotion>)
    requires Chained(pools, ps)
  {
    forall i :: 0 <= i < |ps| ==> Assemble(pools[i], ps[i].cs, ps[i].keepActive, ps[i].arm) == Assembled(pools[i + 1])
  }

  lemma {:induction false} PoolsStayUnique(pools: seq<seq<Entry>>, ps: seq<Promotion>, n: nat)
    requires Chained(pools, ps) && Succeed(pools, ps) && n <= |ps|
    ensures UniqueIds(pools[n])
  {
    if n > 0 {
      PoolsStayUnique(pools, ps, n - 1);
      var p := ps[n - 1];
      AssemblyShape(pools[n - 1], p.cs, p.keepActive, p.arm);
    }
  }

  /** `line[i]` is an entry of pool `i`, and each next one answers for it. */
  predicate Line(pools: seq<seq<Entry>>, ps: seq<Promotion>, line: seq<Entry>)
    requires |pools| == |ps| + 1
  {
    && |line| == |pools| && (forall i :: 0 <= i < |line| ==> line[i] in pools[i])
    && forall i :: 0 <= i < |ps| ==> Heir(line[i], line[i + 1], pools[i], ps[i].cs)
  }

  lemma ReplacedBy(onDisk: seq<Entry>, p: Promotion, n: Entry, k: nat, i: nat)
    requires UniqueIds(onDisk) && Assemble(onDisk, p.cs, p.keepActive, p.arm) == Assembled(p.after)
             && UniqueIds(p.after)
    requires k < |p.cs| && p.cs[k].cid != "" && i < |onDisk| && n in p.after && n.cid == Some(p.cs[k].cid)
    requires n.cid == onDisk[i].cid || ReplacedAt(p.cs[k], onDisk, i)
    ensures onDisk[i].predecessors <= n.predecessors && onDisk[i].failures <= n.failures
  {
    HeirKeepsRecord(onDisk, p.cs, p.keepActive, p.arm, k, i);
    var at := |Incumbents(onDisk, p.cs, p.keepActive)| + k;
  }

  lemma OneHeir(onDisk: seq<Entry>, p: Promotion, e: Entry, n: Entry)
    requires UniqueIds(onDisk) && Assemble(onDisk, p.cs, p.keepActive, p.arm) == Assembled(p.after)
             && UniqueIds(p.after)
    requires forall k :: 0 <= k < |p.cs| ==> p.cs[k].cid != ""
    requires n in p.after && Heir(e, n, onDisk, p.cs)
    ensures e.predecessors <= n.predecessors && e.failures <= n.failures
  {
    if e != n {
      var k, i :| 0 <= k < |p.cs| && 0 <= i < |onDisk| && onDisk[i] == e && n.cid == Some(p.cs[k].cid)
                  && (n.cid == e.cid || ReplacedAt(p.cs[k], onDisk, i));
      ReplacedBy(onDisk, p, n, k, i);
    }
  }

  /** Over any sequence of promotions, along any line of entries that re-list or replace one another, no inherited
    * key is lost and the failure streak never falls. */
  lemma {:induction false} RecordFollowsLine(pools: seq<seq<Entry>>, ps: seq<Promotion>, line: seq<Entry>, n: nat)
    requires Chained(pools, ps) && Succeed(pools, ps) && Line(pools, ps, line) && n <= |ps|
    requires forall i, k :: 0 <= i < |ps| && 0 <= k < |ps[i].cs| ==> ps[i].cs[k].cid != ""
    ensures line[0].predecessors <= line[n].predecessors && line[0].failures <= line[n].failures
  {
    if n > 0 {
      var m: nat := n - 1;
      RecordFollowsLine(pools, ps, line, m);
      PoolsStayUnique(pools, ps, m);
      PoolsStayUnique(pools, ps, n);
      assert Heir(line[m], line[m + 1], pools[m], ps[m].cs);
      OneHeir(pools[m], ps[m], line[m], line[n]);
    }
  }
}
