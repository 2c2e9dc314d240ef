/** scripts/measure_oi_lookahead.py: contexts replayed in order over a cache that holds a snapshot only while a context
  * still ahead needs it (scripts/rescore_stale_holdout_candidates.py runs the same loop), and the period summary. */
module MeasureOiLookahead {
  import opened Wrappers

  // ---------------------------------------------------------------------------------------------
  // The snapshot cache
  // ---------------------------------------------------------------------------------------------

  datatype Key = Key(symbol: string, timeframe: string)

  datatype Context = Context(scope: seq<string>, timeframe: string)

  datatype Snapshot = Snapshot(key: Key, data: string)

  /** What collecting a snapshot would give at this run's clock; `None` where the collection is blocked. */
  type Builder = Key -> Option<Snapshot>

  function KeysOf(c: Context): set<Key> {
    set s | s in c.scope :: Key(s, c.timeframe)
  }

  /** The keys some context of the list needs. */
  function AllKeys(cs: seq<Context>): set<Key> {
    set c, s | c in cs && s in c.scope :: Key(s, c.timeframe)
  }

  /** After the legs of step `i` are built: the keys seen so far that this step or a later one needs. */
  function CachedAt(cs: seq<Context>, i: nat): set<Key>
    requires i < |cs|
  {
    AllKeys(cs[..i + 1]) * AllKeys(cs[i..])
  }

  ghost predicate Buildable(ks: set<Key>, build: Builder) {
    forall k :: k in ks ==> build(k).Some?
  }

  /** The legs a context is replayed over, built afresh: the reference without a cache. */
  ghost function Legs(c: Context, build: Builder): seq<Snapshot>
    requires Buildable(KeysOf(c), build)
  {
    seq(|c.scope|, i requires 0 <= i < |c.scope| =>
          var k := Key(c.scope[i], c.timeframe);
          assert k in KeysOf(c);
          build(k).value)
  }

  ghost predicate Distinct(ks: seq<Key>) {
    forall i, j :: 0 <= i < j < |ks| ==> ks[i] != ks[j]
  }

  function AsSet(ks: seq<Key>): set<Key> {
    set k | k in ks
  }

  /** The cache holds what was built, and nothing else. */
  ghost predicate Faithful(cache: map<Key, Snapshot>, build: Builder) {
    forall k :: k in cache ==> build(k) == Some(cache[k])
  }

  /** The eviction: every key no context from `needed` on needs leaves. */
  method Evict(snapshots: map<Key, Snapshot>, needed: set<Key>) returns (kept: map<Key, Snapshot>)
    ensures kept.Keys == snapshots.Keys * needed && forall k :: k in kept ==> kept[k] == snapshots[k]
  {
    kept := snapshots;
    var stale := set k | k in snapshots && k !in needed;
    while stale != {}
      invariant stale <= kept.Keys && kept.Keys == snapshots.Keys * needed + stale && stale !! needed
      invariant forall k :: k in kept ==> kept[k] == snapshots[k]
      decreases stale
    {
      var k :| k in stale;
      kept := kept - {k};
      stale := stale - {k};
    }
  }

  /** The loop over one context's symbols: what the cache lacks is built, unless a collection is blocked. */
  method BuildLegs(c: Context, snapshots: map<Key, Snapshot>, build: Builder)
    returns (ok: bool, cache: map<Key, Snapshot>, built: seq<Key>)
    requires Faithful(snapshots, build)
    ensures ok <==> Buildable(KeysOf(c), build)
    ensures Faithful(cache, build) && Distinct(built) && AsSet(built) <= KeysOf(c) && AsSet(built) !! snapshots.Keys
    ensures cache.Keys == snapshots.Keys + AsSet(built)
    ensures ok ==> AsSet(built) == KeysOf(c) - snapshots.Keys
  {
    cache, built := snapshots, [];
    for i := 0 to |c.scope|
      invariant Faithful(cache, build) && Distinct(built) && cache.Keys == snapshots.Keys + AsSet(built)
      invariant AsSet(built) !! snapshots.Keys
      invariant AsSet(built) == (set s | s in c.scope[..i] :: Key(s, c.timeframe)) - snapshots.Keys
    {
      var k := Key(c.scope[i], c.timeframe);
      assert c.scope[..i + 1] == c.scope[..i] + [c.scope[i]];
      assert k in KeysOf(c);
      if k !in cache {
        var snapshot := build(k);
        if snapshot.None? {
          return false, cache, built;
        }
        assert AsSet(built + [k]) == AsSet(built) + {k};
        cache, built := cache[k := snapshot.value], built + [k];
      }
    }
    assert c.scope[..|c.scope|] == c.scope;
    ok := true;
  }

  method Replay(c: Context, snapshots: map<Key, Snapshot>, ghost build: Builder) returns (row: seq<Snapshot>)
    requires Faithful(snapshots, build) && KeysOf(c) <= snapshots.Keys
    ensures Buildable(KeysOf(c), build) && row == Legs(c, build)
  {
    row := [];
    for i := 0 to |c.scope|
      invariant |row| == i && forall j :: 0 <= j < i ==> build(Key(c.scope[j], c.timeframe)) == Some(row[j])
    {
      assert Key(c.scope[i], c.timeframe) in KeysOf(c);
      row := row + [snapshots[Key(c.scope[i], c.timeframe)]];
    }
  }

  predicate Needs(c: Context, k: Key) {
    k.timeframe == c.timeframe && k.symbol in c.scope
  }

  /** Each cache holds exactly what a context seen so far needs and the one at hand or a later one needs too. */
  ghost predicate CachedWell(cs: seq<Context>, caches: seq<set<Key>>) {
    |caches| <= |cs|
    && forall i, k :: 0 <= i < |caches| ==>
         (k in caches[i] <==> (exists j :: 0 <= j <= i && Needs(cs[j], k))
                              && (exists j :: i <= j < |cs| && Needs(cs[j], k)))
  }

  lemma KeysAreNeeded(cs: seq<Context>, k: Key)
    ensures k in AllKeys(cs) <==> exists j :: 0 <= j < |cs| && Needs(cs[j], k)
  {
    if c :| c in cs && Needs(c, k) {
      var j :| 0 <= j < |cs| && cs[j] == c;
      assert k == Key(k.symbol, c.timeframe);
    }
  }

  lemma CachedExactly(cs: seq<Context>, i: nat, k: Key)
    requires i < |cs|
    ensures k in CachedAt(cs, i) <==>
            (exists j :: 0 <= j <= i && Needs(cs[j], k)) && (exists j :: i <= j < |cs| && Needs(cs[j], k))
  {
    KeysAreNeeded(cs[..i + 1], k);
    KeysAreNeeded(cs[i..], k);
    if j :| i <= j < |cs| && Needs(cs[j], k) {
      assert cs[i..][j - i] == cs[j];
    }
    if j :| 0 <= j <= i && Needs(cs[j], k) {
      assert cs[..i + 1][j] == cs[j];
    }
  }

  lemma CachedSnoc(cs: seq<Context>, caches: seq<set<Key>>, cache: set<Key>)
    requires CachedWell(cs, caches) && |caches| < |cs| && cache == CachedAt(cs, |caches|)
    ensures CachedWell(cs, caches + [cache])
  {
    forall k ensures k in cache <==> (exists j :: 0 <= j <= |caches| && Needs(cs[j], k))
                                     && (exists j :: |caches| <= j < |cs| && Needs(cs[j], k))
    {
      CachedExactly(cs, |caches|, k);
    }
  }

  /** Each replay is over the legs that would be built afresh. */
  ghost predicate ReplayedWell(cs: seq<Context>, legs: seq<seq<Snapshot>>, build: Builder) {
    |legs| <= |cs| && forall i :: 0 <= i < |legs| ==> Buildable(KeysOf(cs[i]), build) && legs[i] == Legs(cs[i], build)
  }

  /** One step: evict what no context from here on needs, then build what the context lacks. */
  method Step(cs: seq<Context>, i: nat, snapshots: map<Key, Snapshot>, build: Builder)
    returns (ok: bool, cache: map<Key, Snapshot>, built: seq<Key>)
    requires i < |cs| && Faithful(snapshots, build) && snapshots.Keys == if i == 0 then {} else CachedAt(cs, i - 1)
    requires Buildable(AllKeys(cs[..i]), build)
    ensures ok <==> Buildable(AllKeys(cs[..i + 1]), build)
    ensures Faithful(cache, build) && (ok ==> cache.Keys == CachedAt(cs, i))
    ensures Distinct(built) && AsSet(built) !! AllKeys(cs[..i]) && AsSet(built) <= KeysOf(cs[i])
    ensures ok ==> AllKeys(cs[..i]) + AsSet(built) == AllKeys(cs[..i + 1])
  {
    var kept := Evict(snapshots, AllKeys(cs[i..]));
    assert kept.Keys == AllKeys(cs[..i]) * AllKeys(cs[i..]);
    ok, cache, built := BuildLegs(cs[i], kept, build);
  }

  /** Context by context: evict, build what is missing, replay. `legs` are what each context was replayed over, `caches`
    * what the cache held then, `built` every snapshot built, in order: over a completed run each needed one once. */
  method RunContexts(cs: seq<Context>, build: Builder)
    returns (done: bool, legs: seq<seq<Snapshot>>, ghost caches: seq<set<Key>>, built: seq<Key>)
    ensures done <==> Buildable(AllKeys(cs), build)
    ensures |legs| == |caches| && (done ==> |legs| == |cs|)
    ensures CachedWell(cs, caches) && ReplayedWell(cs, legs, build)
    ensures Distinct(built) && AsSet(built) <= AllKeys(cs) && (done ==> AsSet(built) == AllKeys(cs))
    ensures done ==> forall k :: k in built <==> exists j :: 0 <= j < |cs| && Needs(cs[j], k)
  {
    legs, caches, built := [], [], [];
    var snapshots: map<Key, Snapshot> := map[];
    for i := 0 to |cs|
      invariant |legs| == |caches| == i && CachedWell(cs, caches) && ReplayedWell(cs, legs, build)
      invariant Faithful(snapshots, build) && snapshots.Keys == if i == 0 then {} else CachedAt(cs, i - 1)
      invariant Distinct(built) && AsSet(built) == AllKeys(cs[..i]) && Buildable(AllKeys(cs[..i]), build)
    {
      var ok, cache, more := Step(cs, i, snapshots, build);
      DistinctJoin(built, more);
      built := built + more;
      if !ok {
        return false, legs, caches, built;
      }
      snapshots := cache;
      var row := Replay(cs[i], snapshots, build);
      CachedSnoc(cs, caches, snapshots.Keys);
      legs, caches := legs + [row], caches + [snapshots.Keys];
    }
    assert cs[..|cs|] == cs;
    forall k ensures k in built <==> exists j :: 0 <= j < |cs| && Needs(cs[j], k) {
      KeysAreNeeded(cs, k);
      assert k in built <==> k in AsSet(built);
    }
    done := true;
  }

  lemma DistinctJoin(a: seq<Key>, b: seq<Key>)
    requires Distinct(a) && Distinct(b) && AsSet(a) !! AsSet(b)
    ensures Distinct(a + b) && AsSet(a + b) == AsSet(a) + AsSet(b)
  {
    var c := a + b;
    forall i, j | 0 <= i < j < |c| ensures c[i] != c[j] {
      if i < |a| <= j {
        assert c[i] in AsSet(a) && c[j] in AsSet(b);
      }
    }
    forall k | k in AsSet(a) + AsSet(b) ensures k in c {
      if k in a {
        var i :| 0 <= i < |a| && a[i] == k;
        assert c[i] == k;
      } else {
        var i :| 0 <= i < |b| && b[i] == k;
        assert c[|a| + i] == k;
      }
    }
  }

  // ---------------------------------------------------------------------------------------------
  // The period summary
  // ---------------------------------------------------------------------------------------------

  /** A holdout block: its trades and total, and per period its net R and how many trades made it. */
  datatype Block = Block(closed: nat, total: real, periodR: seq<real>, periodN: seq<nat>)

  /** The block has a period `k`: both of its lists reach it. */
  predicate Reaches(b: Block, k: nat) {
    k < |b.periodR| && k < |b.periodN|
  }

  /** How many periods of the block count. */
  function Span(b: Block): nat {
    if |b.periodR| < |b.periodN| then |b.periodR| else |b.periodN|
  }

  /** `max(len(period_r))` over the blocks. */
  function Width(bs: seq<Block>): (w: nat)
    ensures forall i :: 0 <= i < |bs| ==> |bs[i].periodR| <= w
    ensures w > 0 ==> exists i :: 0 <= i < |bs| && |bs[i].periodR| == w
  {
    if bs == [] then 0
    else
      var before, n := Width(bs[..|bs| - 1]), |bs[|bs| - 1].periodR|;
      if n > before then n else before
  }

  function PeriodR(bs: seq<Block>, k: nat): real {
    if bs == [] then 0.0
    else PeriodR(bs[..|bs| - 1], k) + if Reaches(bs[|bs| - 1], k) then bs[|bs| - 1].periodR[k] else 0.0
  }

  function PeriodN(bs: seq<Block>, k: nat): nat {
    if bs == [] then 0
    else PeriodN(bs[..|bs| - 1], k) + if Reaches(bs[|bs| - 1], k) then bs[|bs| - 1].periodN[k] else 0
  }

  /** The accumulation loop of `summarize`: period by period over the blocks, a shorter block counting where it
    * reaches. */
  method PeriodTotals(bs: seq<Block>) returns (r: seq<real>, n: seq<nat>)
    ensures |r| == |n| == Width(bs)
    ensures forall k :: 0 <= k < |r| ==> r[k] == PeriodR(bs, k) && n[k] == PeriodN(bs, k)
  {
    var width := Width(bs);
    r, n := seq(width, _ => 0.0), seq(width, _ => 0);
    for i := 0 to |bs|
      invariant |r| == |n| == width
      invariant forall k :: 0 <= k < width ==> r[k] == PeriodR(bs[..i], k) && n[k] == PeriodN(bs[..i], k)
    {
      assert bs[..i + 1][..i] == bs[..i];
      ghost var r0, n0 := r, n;
      for k := 0 to Span(bs[i])
        invariant |r| == |n| == width
        invariant forall j :: 0 <= j < width ==> r[j] == r0[j] + (if j < k then bs[i].periodR[j] else 0.0)
        invariant forall j :: 0 <= j < width ==> n[j] == n0[j] + (if j < k then bs[i].periodN[j] else 0)
      {
        r := r[k := r[k] + bs[i].periodR[k]];
        n := n[k := n[k] + bs[i].periodN[k]];
      }
    }
    assert bs[..|bs|] == bs;
  }

  /** The first `n` periods of a block: their net R, and the trades that made it. */
  function RowSum(b: Block, n: nat): (real, nat)
    requires n <= |b.periodR| && n <= |b.periodN|
  {
    if n == 0 then (0.0, 0) else Plus(RowSum(b, n - 1), (b.periodR[n - 1], b.periodN[n - 1]))
  }

  function Plus(a: (real, nat), b: (real, nat)): (real, nat) {
    (a.0 + b.0, a.1 + b.1)
  }

  function GrandTotal(bs: seq<Block>): (real, nat) {
    if bs == [] then (0.0, 0)
    else
      var b := bs[|bs| - 1];
      Plus(GrandTotal(bs[..|bs| - 1]), RowSum(b, if |b.periodR| <= |b.periodN| then |b.periodR| else |b.periodN|))
  }

  /** The first `w` period subtotals. */
  function Subtotals(bs: seq<Block>, w: nat): (real, nat) {
    if w == 0 then (0.0, 0) else Plus(Subtotals(bs, w - 1), (PeriodR(bs, w - 1), PeriodN(bs, w - 1)))
  }

  lemma {:induction false} SubtotalsSnoc(bs: seq<Block>, w: nat)
    requires bs != []
    ensures var b := bs[|bs| - 1];
            Subtotals(bs, w) == Plus(Subtotals(bs[..|bs| - 1], w), RowSum(b, if w < Span(b) then w else Span(b)))
  {
    if w > 0 {
      SubtotalsSnoc(bs, w - 1);
    }
  }

  lemma {:induction false} NoBlocksNoTotal(w: nat)
    ensures Subtotals([], w) == (0.0, 0)
  {
    if w > 0 {
      NoBlocksNoTotal(w - 1);
    }
  }

  /** Nothing is lost or counted twice: the period subtotals sum to every block's own periods, R and trades. */
  lemma {:induction false} PeriodsConserve(bs: seq<Block>, w: nat)
    requires w >= Width(bs)
    ensures Subtotals(bs, w) == GrandTotal(bs)
  {
    if bs == [] {
      NoBlocksNoTotal(w);
    } else {
      PeriodsConserve(bs[..|bs| - 1], w);
      SubtotalsSnoc(bs, w);
    }
  }

  function Trades(bs: seq<Block>): nat {
    if bs == [] then 0 else Trades(bs[..|bs| - 1]) + bs[|bs| - 1].closed
  }

  function TotalR(bs: seq<Block>): real {
    if bs == [] then 0.0 else TotalR(bs[..|bs| - 1]) + bs[|bs| - 1].total
  }

  /** The pooled mean per trade: each block weighs by its trades, so pooling is not averaging the blocks' means. */
  method PooledMean(bs: seq<Block>) returns (trades: nat, mean: Option<real>)
    ensures trades == Trades(bs) && (mean.Some? <==> trades > 0)
    ensures mean.Some? ==> mean.value * trades as real == TotalR(bs)
  {
    trades := 0;
    var total := 0.0;
    for i := 0 to |bs|
      invariant trades == Trades(bs[..i]) && total == TotalR(bs[..i])
    {
      assert bs[..i + 1][..i] == bs[..i];
      trades := trades + bs[i].closed;
      total := total + bs[i].total;
    }
    assert bs[..|bs|] == bs;
    mean := None;
    if trades > 0 {
      mean := Some(total / trades as real);
    }
  }
}
