/** scripts/binance_archive.py: a download that resumes. Files are kept only once they match the archive's own checksum,
  * what the archive does not serve is remembered, and a repeated fetch asks for nothing. */
module BinanceArchive {
  import opened Wrappers

  // ---------------------------------------------------------------------------------------------
  // Periods
  // ---------------------------------------------------------------------------------------------

  datatype Month = Month(year: int, month: int)

  predicate IsMonth(m: Month) {
    1 <= m.month <= 12
  }

  function Ordinal(m: Month): int {
    12 * m.year + m.month
  }

  /** The months from one to the other, both included, in order. */
  ghost predicate MonthsBetween(start: Month, end: Month, out: seq<Month>) {
    && |out| == (if Ordinal(start) <= Ordinal(end) then Ordinal(end) - Ordinal(start) + 1 else 0)
    && forall i :: 0 <= i < |out| ==> IsMonth(out[i]) && Ordinal(out[i]) == Ordinal(start) + i
  }

  /** `months`. */
  method Months(start: Month, end: Month) returns (out: seq<Month>)
    requires IsMonth(start) && IsMonth(end)
    ensures MonthsBetween(start, end, out)
    ensures forall m :: IsMonth(m) ==> (m in out <==> Ordinal(start) <= Ordinal(m) <= Ordinal(end))
  {
    out := [];
    var m := start;
    while m.year < end.year || (m.year == end.year && m.month <= end.month)
      invariant IsMonth(m) && Ordinal(m) == Ordinal(start) + |out|
      invariant forall i :: 0 <= i < |out| ==> IsMonth(out[i]) && Ordinal(out[i]) == Ordinal(start) + i
      invariant |out| > 0 ==> Ordinal(m) <= Ordinal(end) + 1
      decreases Ordinal(end) - Ordinal(m)
    {
      out := out + [m];
      m := if m.month == 12 then Month(m.year + 1, 1) else Month(m.year, m.month + 1);
    }
    forall x | IsMonth(x) ensures x in out <==> Ordinal(start) <= Ordinal(x) <= Ordinal(end) {
      if Ordinal(start) <= Ordinal(x) <= Ordinal(end) {
        var i := Ordinal(x) - Ordinal(start);
        SameOrdinal(x, out[i]);
        assert out[i] in out;
      }
    }
  }

  lemma SameOrdinal(a: Month, b: Month)
    requires IsMonth(a) && IsMonth(b) && Ordinal(a) == Ordinal(b)
    ensures a == b
  {
  }

  // ---------------------------------------------------------------------------------------------
  // Jobs
  // ---------------------------------------------------------------------------------------------

  /** A file of the archive: its symbol, kind and period, which is also where it lies on disk. */
  datatype Name = Metrics(symbol: string, day: int) | Funding(symbol: string, month: Month)

  datatype Payload = Payload(bytes: string, opens: bool)

  /** What a .CHECKSUM file says: a digest and the name it is for, or something else. */
  datatype Checksum = Published(digest: string, name: Name) | Malformed

  /** The archive as the opener finds it, and sha256. */
  datatype Server = Server(file: Name -> Option<Payload>, checksum: Name -> Option<Checksum>, sha: string -> string)

  datatype Request = File(name: Name) | ChecksumOf(name: Name)

  /** `verify_checksum` and the zip check. */
  predicate Verified(p: Payload, c: Checksum, name: Name, sha: string -> string) {
    c == Published(sha(p.bytes), name) && p.opens
  }

  /** The archive serves this payload for the name, a zip that opens, and a checksum that names it and holds its
    * digest. */
  ghost predicate Publishes(server: Server, n: Name, p: Payload) {
    && server.file(n) == Some(p) && p.opens
    && server.checksum(n).Some? && server.checksum(n).value.Published?
    && server.checksum(n).value.name == n && server.checksum(n).value.digest == server.sha(p.bytes)
  }

  datatype Outcome = Kept | Present | Missing | Untrusted

  /** What `fetch_one` does about one file: the outcome, the requests made and the payload written. */
  function OutcomeOf(name: Name, onDisk: bool, server: Server): Outcome {
    if onDisk then Present
    else if server.file(name).None? then Missing
    else if server.checksum(name).None? then Untrusted
    else if Verified(server.file(name).value, server.checksum(name).value, name, server.sha) then Kept else Untrusted
  }

  function RequestsOf(name: Name, onDisk: bool, server: Server): seq<Request> {
    if onDisk then [] else if server.file(name).None? then [File(name)] else [File(name), ChecksumOf(name)]
  }

  datatype Tally = Tally(kept: nat, present: nat, missing: nat)

  function Count(t: Tally, o: Outcome): Tally {
    match o
    case Kept => t.(kept := t.kept + 1)
    case Present => t.(present := t.present + 1)
    case Missing => t.(missing := t.missing + 1)
    case Untrusted => t
  }

  function Sum(t: Tally): nat {
    t.kept + t.present + t.missing
  }

  /** The disk, the names found missing, and the requests made so far. */
  datatype State = State(disk: map<Name, Payload>, missing: seq<Name>, requests: seq<Request>)

  datatype Progress = Going(state: State, tally: Tally) | Failed(state: State)

  function StepJob(s: State, known: set<Name>, name: Name, t: Tally, server: Server): Progress {
    if name in known then Going(s, Count(t, Missing))
    else
      var onDisk := name in s.disk;
      var o := OutcomeOf(name, onDisk, server);
      var asked := s.(requests := s.requests + RequestsOf(name, onDisk, server));
      match o
      case Untrusted => Failed(asked)
      case Kept => Going(asked.(disk := asked.disk[name := server.file(name).value]), Count(t, o))
      case Missing => Going(asked.(missing := asked.missing + [name]), Count(t, o))
      case Present => Going(asked, Count(t, o))
  }

  /** The jobs of one symbol, one after the other. */
  function RunJobs(s: State, known: set<Name>, jobs: seq<Name>, server: Server): Progress {
    if jobs == [] then Going(s, Tally(0, 0, 0))
    else
      var before := RunJobs(s, known, jobs[..|jobs| - 1], server);
      if before.Failed? then before else StepJob(before.state, known, jobs[|jobs| - 1], before.tally, server)
  }

  datatype Report = Done(state: State, counts: seq<Tally>) | Aborted(state: State)

  /** Every symbol's jobs in turn. */
  function RunSymbols(s: State, known: set<Name>, work: seq<seq<Name>>, server: Server): Report {
    if work == [] then Done(s, [])
    else
      var before := RunSymbols(s, known, work[..|work| - 1], server);
      if before.Aborted? then before
      else
        AddSymbol(before.counts, RunJobs(before.state, known, work[|work| - 1], server))
  }

  function AddSymbol(counts: seq<Tally>, p: Progress): Report {
    if p.Failed? then Aborted(p.state) else Done(p.state, counts + [p.tally])
  }

  // ---------------------------------------------------------------------------------------------
  // The archive directory
  // ---------------------------------------------------------------------------------------------

  class Archive {
    var disk: map<Name, Payload>
    var missing: set<Name>
    var requests: seq<Request>

    /** `fetch_one`. The request log is kept for the theorems. */
    method FetchOne(name: Name, server: Server) returns (o: Outcome)
      modifies this`disk, this`requests
      ensures o == OutcomeOf(name, name in old(disk), server)
      ensures o == Present <==> name in old(disk)
      ensures o == Missing <==> name !in old(disk) && server.file(name).None?
      ensures o == Kept <==> name !in old(disk) && exists p :: Publishes(server, name, p)
      ensures requests == old(requests) + RequestsOf(name, name in old(disk), server)
      ensures requests == old(requests) + if name in old(disk) then [] else if server.file(name).None? then [File(name)]
                                          else [File(name), ChecksumOf(name)]
      ensures disk == if o == Kept then old(disk)[name := server.file(name).value] else old(disk)
    {
      if name in disk {
        return Present;
      }
      var payload := server.file(name);
      requests := requests + [File(name)];
      if payload.None? {
        return Missing;
      }
      var checksum := server.checksum(name);
      requests := requests + [ChecksumOf(name)];
      if checksum.None? {
        return Untrusted;
      }
      if checksum.value.Malformed? || checksum.value.name != name
         || checksum.value.digest != server.sha(payload.value.bytes)
         || !payload.value.opens {
        return Untrusted;
      }
      disk := disk[name := payload.value];
      assert Publishes(server, name, payload.value);
      o := Kept;
    }

    method FetchSymbol(known: set<Name>, found: seq<Name>, jobs: seq<Name>, server: Server)
      returns (r: Option<Tally>, more: seq<Name>)
      modifies this`disk, this`requests
      ensures var p := RunJobs(State(old(disk), found, old(requests)), known, jobs, server);
              && p.state == State(disk, more, requests) && r == if p.Failed? then None else Some(p.tally)
    {
      ghost var s := State(disk, found, requests);
      more := found;
      var tally := Tally(0, 0, 0);
      for i := 0 to |jobs|
        invariant RunJobs(s, known, jobs[..i], server) == Going(State(disk, more, requests), tally)
      {
        assert jobs[..i + 1][..i] == jobs[..i];
        if jobs[i] in known {
          tally := tally.(missing := tally.missing + 1);
          continue;
        }
        var o := FetchOne(jobs[i], server);
        if o == Untrusted {
          FailedJobStays(s, known, jobs, server, i + 1);
          return None, more;
        }
        tally := Count(tally, o);
        if o == Missing {
          more := more + [jobs[i]];
        }
      }
      assert jobs[..|jobs|] == jobs;
      r := Some(tally);
    }

    /** `fetch`, over each symbol's jobs. A file that cannot be trusted ends it with what was found missing
      * unrecorded. */
    method Fetch(work: seq<seq<Name>>, server: Server) returns (counts: Option<seq<Tally>>)
      modifies this
      ensures var r := RunSymbols(State(old(disk), [], old(requests)), old(missing), work, server);
              && disk == r.state.disk && requests == r.state.requests
              && (if r.Done? then counts == Some(r.counts) && missing == old(missing) + Named(r.state.missing)
                  else counts == None && missing == old(missing))
    {
      ghost var s := State(disk, [], requests);
      var known, found, tallies := missing, [], [];
      for i := 0 to |work|
        invariant missing == old(missing) == known
        invariant RunSymbols(s, known, work[..i], server) == Done(State(disk, found, requests), tallies)
      {
        assert work[..i + 1][..i] == work[..i];
        var t, more := FetchSymbol(known, found, work[i], server);
        if t.None? {
          AbortedStays(s, known, work, server, i + 1);
          return None;
        }
        tallies := tallies + [t.value];
        found := more;
      }
      assert work[..|work|] == work;
      missing := missing + Named(found);
      counts := Some(tallies);
    }
  }

  function Named(names: seq<Name>): set<Name> {
    set n | n in names
  }

  lemma {:induction false} FailedJobStays(s: State, known: set<Name>, jobs: seq<Name>, server: Server, n: nat)
    requires n <= |jobs| && RunJobs(s, known, jobs[..n], server).Failed?
    ensures RunJobs(s, known, jobs, server) == RunJobs(s, known, jobs[..n], server)
  {
    if n < |jobs| {
      assert jobs[..|jobs| - 1][..n] == jobs[..n];
      FailedJobStays(s, known, jobs[..|jobs| - 1], server, n);
    } else {
      assert jobs[..n] == jobs;
    }
  }

  lemma {:induction false} AbortedStays(s: State, known: set<Name>, work: seq<seq<Name>>, server: Server, n: nat)
    requires n <= |work| && RunSymbols(s, known, work[..n], server).Aborted?
    ensures RunSymbols(s, known, work, server) == RunSymbols(s, known, work[..n], server)
  {
    if n < |work| {
      assert work[..|work| - 1][..n] == work[..n];
      AbortedStays(s, known, work[..|work| - 1], server, n);
    } else {
      assert work[..n] == work;
    }
  }

  // ---------------------------------------------------------------------------------------------
  // Nothing unverified, nothing lost, nothing counted twice
  // ---------------------------------------------------------------------------------------------

  /** A file a run may leave on disk: one that was there, or one the archive published. */
  ghost predicate Grows(before: State, after: State, server: Server) {
    && (forall n :: n in before.disk ==> n in after.disk && after.disk[n] == before.disk[n])
    && forall n :: n in after.disk && n !in before.disk ==> Publishes(server, n, after.disk[n])
  }

  lemma {:induction false} JobsGrow(s: State, known: set<Name>, jobs: seq<Name>, server: Server)
    ensures Grows(s, RunJobs(s, known, jobs, server).state, server)
  {
    if jobs != [] {
      JobsGrow(s, known, jobs[..|jobs| - 1], server);
    }
  }

  lemma {:induction false} SymbolsGrow(s: State, known: set<Name>, work: seq<seq<Name>>, server: Server)
    ensures Grows(s, RunSymbols(s, known, work, server).state, server)
  {
    if work != [] {
      var before := RunSymbols(s, known, work[..|work| - 1], server);
      SymbolsGrow(s, known, work[..|work| - 1], server);
      if before.Done? {
        JobsGrow(before.state, known, work[|work| - 1], server);
      }
    }
  }

  /** The directory between fetches. */
  datatype Directory = Directory(disk: map<Name, Payload>, missing: set<Name>, requests: seq<Request>)

  /** One fetch, and the archive as it was then. */
  datatype Session = Session(work: seq<seq<Name>>, server: Server)

  function AfterSession(d: Directory, s: Session): Directory {
    var r := RunSymbols(State(d.disk, [], d.requests), d.missing, s.work, s.server);
    Directory(r.state.disk, if r.Done? then d.missing + Named(r.state.missing) else d.missing, r.state.requests)
  }

  function AfterSessions(d: Directory, ss: seq<Session>): Directory {
    if ss == [] then d else AfterSession(AfterSessions(d, ss[..|ss| - 1]), ss[|ss| - 1])
  }

  /** Every file was published for its name, as it is, by the archive of one of the sessions. */
  ghost predicate Admitted(disk: map<Name, Payload>, ss: seq<Session>) {
    forall n :: n in disk ==> exists i :: 0 <= i < |ss| && Publishes(ss[i].server, n, disk[n])
  }

  ghost predicate Keeps(before: map<Name, Payload>, after: map<Name, Payload>) {
    forall n :: n in before ==> n in after && after[n] == before[n]
  }

  lemma AdmittedLater(disk: map<Name, Payload>, ss: seq<Session>, s: Session)
    requires Admitted(disk, ss)
    ensures Admitted(disk, ss + [s])
  {
    forall n | n in disk ensures exists i :: 0 <= i < |ss + [s]| && Publishes((ss + [s])[i].server, n, disk[n]) {
      var i :| 0 <= i < |ss| && Publishes(ss[i].server, n, disk[n]);
      assert (ss + [s])[i] == ss[i];
    }
  }

  lemma SessionAdmits(d: Directory, ss: seq<Session>, s: Session)
    requires Admitted(d.disk, ss)
    ensures Admitted(AfterSession(d, s).disk, ss + [s])
    ensures Keeps(d.disk, AfterSession(d, s).disk)
  {
    var before, after := State(d.disk, [], d.requests), AfterSession(d, s).disk;
    SymbolsGrow(before, d.missing, s.work, s.server);
    AdmittedLater(d.disk, ss, s);
    forall n | n in after ensures exists i :: 0 <= i < |ss + [s]| && Publishes((ss + [s])[i].server, n, after[n]) {
      if n !in d.disk {
        assert (ss + [s])[|ss|] == s && Publishes(s.server, n, after[n]);
      }
    }
  }

  /** Over any sequence of fetches, completed or aborted, against an archive that may change between them: no file found
    * is lost or altered, and if each was published in `past`, then each on disk was published in `past` or in one of
    * these. Nothing is on disk unverified if nothing was before. */
  lemma {:induction false} NothingUnverified(d: Directory, past: seq<Session>, ss: seq<Session>)
    requires Admitted(d.disk, past)
    ensures Admitted(AfterSessions(d, ss).disk, past + ss)
    ensures Keeps(d.disk, AfterSessions(d, ss).disk)
  {
    if ss == [] {
      assert past + ss == past;
    } else {
      var k := |ss| - 1;
      NothingUnverified(d, past, ss[..k]);
      SessionAdmits(AfterSessions(d, ss[..k]), past + ss[..k], ss[k]);
      assert past + ss[..k] + [ss[k]] == past + ss;
    }
  }

  lemma StepSum(s: State, known: set<Name>, n: Name, t: Tally, server: Server)
    ensures var p := StepJob(s, known, n, t, server); p.Going? ==> Sum(p.tally) == Sum(t) + 1
  {
  }

  lemma {:induction false} JobsSum(s: State, known: set<Name>, jobs: seq<Name>, server: Server)
    ensures var p := RunJobs(s, known, jobs, server); p.Going? ==> Sum(p.tally) == |jobs|
  {
    if jobs != [] {
      var before := RunJobs(s, known, jobs[..|jobs| - 1], server);
      JobsSum(s, known, jobs[..|jobs| - 1], server);
      if before.Going? {
        StepSum(before.state, known, jobs[|jobs| - 1], before.tally, server);
      }
    }
  }

  // ---------------------------------------------------------------------------------------------
  // What one fetch leaves, exactly
  // ---------------------------------------------------------------------------------------------

  /** The archive serves the file, and nothing that vouches for it. */
  ghost predicate Doubtful(server: Server, n: Name) {
    server.file(n).Some? && !Publishes(server, n, server.file(n).value)
  }

  /** The file is asked for: neither known to be missing nor on disk. */
  predicate Wanted(s: State, known: set<Name>, n: Name) {
    n !in known && n !in s.disk
  }

  /** Over these jobs nothing asked for is doubtful; every file asked for that the archive serves is on disk as
    * served, the others asked for are found missing, and nothing else is new. */
  ghost predicate Settles(s: State, known: set<Name>, jobs: seq<Name>, server: Server, after: State) {
    && (forall n :: n in jobs && Wanted(s, known, n) ==> !Doubtful(server, n))
    && (forall n :: n in s.disk ==> n in after.disk && after.disk[n] == s.disk[n])
    && (forall n :: n !in s.disk ==>
          (n in after.disk <==> n in jobs && n !in known && server.file(n).Some?)
          && (n in after.disk ==> server.file(n) == Some(after.disk[n])))
    && (forall n :: n in after.missing <==>
        n in s.missing || (n in jobs && Wanted(s, known, n) && server.file(n).None?))
  }

  /** The request is made: the file wherever it is wanted, its checksum wherever the archive then serves the file. */
  predicate Asks(s: State, known: set<Name>, jobs: seq<Name>, server: Server, q: Request) {
    q.name in jobs && Wanted(s, known, q.name) && (q.ChecksumOf? ==> server.file(q.name).Some?)
  }

  ghost predicate AsksExactly(s: State, known: set<Name>, jobs: seq<Name>, server: Server, after: State) {
    s.requests <= after.requests
    && forall q :: q in after.requests[|s.requests|..] <==> Asks(s, known, jobs, server, q)
  }

  lemma SettlesSnoc(s: State, known: set<Name>, jobs: seq<Name>, server: Server, before: State, t: Tally)
    requires jobs != [] && Settles(s, known, jobs[..|jobs| - 1], server, before)
    ensures var p := StepJob(before, known, jobs[|jobs| - 1], t, server);
            && (p.Failed? <==> Wanted(s, known, jobs[|jobs| - 1]) && Doubtful(server, jobs[|jobs| - 1]))
            && (p.Going? ==> Settles(s, known, jobs, server, p.state))
  {
    var last := jobs[|jobs| - 1];
    var p := StepJob(before, known, last, t, server);
    assert forall n :: n in jobs <==> n in jobs[..|jobs| - 1] || n == last;
    if last in before.disk && last !in s.disk {
      assert last in jobs[..|jobs| - 1];
    }
  }

  lemma AsksSnoc(s: State, known: set<Name>, jobs: seq<Name>, server: Server, before: State, t: Tally)
    requires jobs != [] && Settles(s, known, jobs[..|jobs| - 1], server, before)
             && AsksExactly(s, known, jobs[..|jobs| - 1], server, before)
    ensures var p := StepJob(before, known, jobs[|jobs| - 1], t, server);
            p.Going? ==> AsksExactly(s, known, jobs, server, p.state)
  {
    var last := jobs[|jobs| - 1];
    var p := StepJob(before, known, last, t, server);
    if p.Going? {
      var more := if last in known then [] else RequestsOf(last, last in before.disk, server);
      assert p.state.requests == before.requests + more;
      var was := before.requests[|s.requests|..];
      assert p.state.requests[|s.requests|..] == was + more;
      assert forall n :: n in jobs <==> n in jobs[..|jobs| - 1] || n == last;
      forall q ensures q in was + more <==> Asks(s, known, jobs, server, q) {
        assert q in was <==> Asks(s, known, jobs[..|jobs| - 1], server, q);
        assert q in more <==> last !in known && last !in before.disk && q.name == last
                              && (q.ChecksumOf? ==> server.file(last).Some?);
      }
    }
  }

  /** One symbol's jobs, in any order and even repeated: they complete exactly when nothing asked for is doubtful, and
    * then leave exactly what they settle. */
  lemma {:induction false} JobsExactly(s: State, known: set<Name>, jobs: seq<Name>, server: Server)
    ensures var p := RunJobs(s, known, jobs, server);
            && (p.Failed? <==> exists n :: n in jobs && Wanted(s, known, n) && Doubtful(server, n))
            && (p.Going? ==> Settles(s, known, jobs, server, p.state) && AsksExactly(s, known, jobs, server, p.state))
  {
    if jobs != [] {
      var k := |jobs| - 1;
      var before := RunJobs(s, known, jobs[..k], server);
      JobsExactly(s, known, jobs[..k], server);
      assert forall n :: n in jobs <==> n in jobs[..k] || n == jobs[k];
      if before.Going? {
        SettlesSnoc(s, known, jobs, server, before.state, before.tally);
        AsksSnoc(s, known, jobs, server, before.state, before.tally);
      }
    }
  }

  /** One symbol's tally: kept is what the disk grew by, and missing the jobs that are known to be missing or, not on
    * disk, are not served. */
  lemma {:induction false} JobsTally(s: State, known: set<Name>, jobs: seq<Name>, server: Server)
    requires RunJobs(s, known, jobs, server).Going?
    ensures var p := RunJobs(s, known, jobs, server);
            && |p.state.disk| == |s.disk| + p.tally.kept
            && p.tally.missing == |Unserved(s, known, jobs, server)|
  {
    if jobs != [] {
      var k := |jobs| - 1;
      var before := RunJobs(s, known, jobs[..k], server);
      JobsTally(s, known, jobs[..k], server);
      JobsExactly(s, known, jobs[..k], server);
      UnservedSnoc(s, known, jobs, server, before.state);
      StepTally(before.state, known, jobs[k], before.tally, server);
    }
  }

  predicate CountsMissing(disk: map<Name, Payload>, known: set<Name>, n: Name, server: Server) {
    n in known || (n !in disk && server.file(n).None?)
  }

  lemma StepTally(s: State, known: set<Name>, n: Name, t: Tally, server: Server)
    requires StepJob(s, known, n, t, server).Going?
    ensures var p := StepJob(s, known, n, t, server);
            && |p.state.disk| + t.kept == |s.disk| + p.tally.kept
            && p.tally.missing == t.missing + if CountsMissing(s.disk, known, n, server) then 1 else 0
  {
    var p := StepJob(s, known, n, t, server);
    if p.state.disk != s.disk {
      assert p.state.disk.Keys == s.disk.Keys + {n};
    }
  }

  lemma UnservedSnoc(s: State, known: set<Name>, jobs: seq<Name>, server: Server, before: State)
    requires jobs != [] && Settles(s, known, jobs[..|jobs| - 1], server, before)
    ensures var k := |jobs| - 1;
            |Unserved(s, known, jobs, server)| == |Unserved(s, known, jobs[..k], server)|
            + if CountsMissing(before.disk, known, jobs[k], server) then 1 else 0
  {
    var k := |jobs| - 1;
    var was, all := Unserved(s, known, jobs[..k], server), Unserved(s, known, jobs, server);
    assert CountsMissing(before.disk, known, jobs[k], server) == CountsMissing(s.disk, known, jobs[k], server);
    assert all == if CountsMissing(s.disk, known, jobs[k], server) then was + {k} else was;
    assert k !in was;
  }

  /** The positions of the jobs that are counted as missing. */
  ghost function Unserved(s: State, known: set<Name>, jobs: seq<Name>, server: Server): set<int> {
    set i | 0 <= i < |jobs| && CountsMissing(s.disk, known, jobs[i], server)
  }

  lemma {:induction false} JobsJoin(s: State, known: set<Name>, a: seq<Name>, b: seq<Name>, server: Server)
    ensures var first := RunJobs(s, known, a, server);
            var all := RunJobs(s, known, a + b, server);
            if first.Failed? then all == first
            else var rest := RunJobs(first.state, known, b, server);
                 all.Failed? == rest.Failed? && all.state == rest.state
  {
    if b == [] {
      assert a + b == a;
    } else {
      var k := |b| - 1;
      assert (a + b)[..|a + b| - 1] == a + b[..k];
      JobsJoin(s, known, a, b[..k], server);
    }
  }

  /** Symbol by symbol or one job after the other, a fetch ends the same. */
  lemma {:induction false} SymbolsAreJobs(s: State, known: set<Name>, work: seq<seq<Name>>, server: Server)
    ensures var r, p := RunSymbols(s, known, work, server), RunJobs(s, known, Flatten(work), server);
            r.Aborted? == p.Failed? && r.state == p.state
  {
    if work != [] {
      var k := |work| - 1;
      SymbolsAreJobs(s, known, work[..k], server);
      JobsJoin(s, known, Flatten(work[..k]), work[k], server);
    }
  }

  /** A fetch aborts exactly when some file it asks for is served without a checksum that names and matches it, or does
    * not open; otherwise it leaves every file asked for that is served, finds exactly the others missing, and has made
    * exactly the requests that takes. */
  lemma FetchExactly(s: State, known: set<Name>, work: seq<seq<Name>>, server: Server)
    ensures var r, jobs := RunSymbols(s, known, work, server), Flatten(work);
            && (r.Aborted? <==> exists n :: n in jobs && Wanted(s, known, n) && Doubtful(server, n))
            && (r.Done? ==> Settles(s, known, jobs, server, r.state) && AsksExactly(s, known, jobs, server, r.state))
  {
    SymbolsAreJobs(s, known, work, server);
    JobsExactly(s, known, Flatten(work), server);
  }

  ghost predicate TalliesFit(counts: seq<Tally>, work: seq<seq<Name>>) {
    |counts| == |work| && forall i :: 0 <= i < |work| ==> Sum(counts[i]) == |work[i]|
  }

  lemma TalliesSnoc(counts: seq<Tally>, work: seq<seq<Name>>, p: Progress)
    requires work != [] && TalliesFit(counts, work[..|work| - 1]) && (p.Going? ==> Sum(p.tally) == |work[|work| - 1]|)
    ensures var r := AddSymbol(counts, p); r.Done? ==> TalliesFit(r.counts, work)
  {
  }

  /** Each symbol's tally counts each of its jobs once. */
  lemma {:induction false} TalliesSumToJobs(s: State, known: set<Name>, work: seq<seq<Name>>, server: Server)
    ensures var r := RunSymbols(s, known, work, server); r.Done? ==> TalliesFit(r.counts, work)
  {
    if work != [] {
      var before := RunSymbols(s, known, work[..|work| - 1], server);
      TalliesSumToJobs(s, known, work[..|work| - 1], server);
      if before.Done? {
        JobsSum(before.state, known, work[|work| - 1], server);
        TalliesSnoc(before.counts, work, RunJobs(before.state, known, work[|work| - 1], server));
      }
    }
  }

  // ---------------------------------------------------------------------------------------------
  // Repeating a fetch
  // ---------------------------------------------------------------------------------------------

  function Flatten(work: seq<seq<Name>>): seq<Name> {
    if work == [] then [] else Flatten(work[..|work| - 1]) + work[|work| - 1]
  }

  ghost predicate Distinct(names: seq<Name>) {
    forall i, j :: 0 <= i < j < |names| ==> names[i] != names[j]
  }

  /** How a repeat will count the jobs. */
  function Recount(known: set<Name>, jobs: seq<Name>): Tally {
    if jobs == [] then Tally(0, 0, 0)
    else Count(Recount(known, jobs[..|jobs| - 1]), if jobs[|jobs| - 1] in known then Missing else Present)
  }

  /** Over a disk and a missing record that settle every job, a fetch makes no request and only counts. */
  lemma {:induction false} SettledAsksNothing(s: State, known: set<Name>, jobs: seq<Name>, server: Server)
    requires forall n :: n in jobs ==> n in known || n in s.disk
    ensures RunJobs(s, known, jobs, server) == Going(s, Recount(known, jobs))
  {
    if jobs != [] {
      SettledAsksNothing(s, known, jobs[..|jobs| - 1], server);
      assert jobs[|jobs| - 1] in jobs;
    }
  }

  /** One symbol's first pass, told by what it found missing in the end: `end` may hold more, of other symbols. */
  lemma {:induction false} FirstPass(s: State, known: set<Name>, jobs: seq<Name>, server: Server, end: set<Name>)
    requires RunJobs(s, known, jobs, server).Going? && Distinct(jobs)
    requires forall n :: n in jobs ==> n !in s.missing
    requires var after := RunJobs(s, known, jobs, server).state;
             forall n :: n in jobs ==> (n in end <==> n in after.missing)
    ensures var p := RunJobs(s, known, jobs, server);
            && (forall n :: n in jobs ==> n in known || n in end || n in p.state.disk)
            && s.missing <= p.state.missing && (forall n :: n in p.state.missing ==> n in s.missing || n in jobs)
            && Recount(known + end, jobs) == Tally(0, p.tally.kept + p.tally.present, p.tally.missing)
  {
    if jobs != [] {
      var k := |jobs| - 1;
      var before := RunJobs(s, known, jobs[..k], server);
      MissingGrows(s, known, jobs[..k], server);
      var last := jobs[k];
      assert last in jobs && last !in jobs[..k];
      var p := RunJobs(s, known, jobs, server);
      forall n | n in jobs[..k] ensures n in end <==> n in before.state.missing {
        assert n in jobs && n != last;
      }
      FirstPass(s, known, jobs[..k], server, end);
      assert last !in before.state.missing;
    }
  }

  lemma {:induction false} MissingGrows(s: State, known: set<Name>, jobs: seq<Name>, server: Server)
    ensures var p := RunJobs(s, known, jobs, server);
            s.missing <= p.state.missing && forall n :: n in p.state.missing ==> n in s.missing || n in jobs
  {
    if jobs != [] {
      MissingGrows(s, known, jobs[..|jobs| - 1], server);
    }
  }

  lemma {:induction false} SymbolsMissingGrows(s: State, known: set<Name>, work: seq<seq<Name>>, server: Server)
    ensures var r := RunSymbols(s, known, work, server);
            s.missing <= r.state.missing && forall n :: n in r.state.missing ==> n in s.missing || n in Flatten(work)
  {
    if work != [] {
      var before := RunSymbols(s, known, work[..|work| - 1], server);
      SymbolsMissingGrows(s, known, work[..|work| - 1], server);
      if before.Done? {
        MissingGrows(before.state, known, work[|work| - 1], server);
      }
    }
  }

  /** What a repeat reports of a symbol whose first pass reported `t`: everything it had is present. */
  function Again(t: Tally): Tally {
    Tally(0, t.kept + t.present, t.missing)
  }

  function AllAgain(ts: seq<Tally>): seq<Tally> {
    seq(|ts|, i requires 0 <= i < |ts| => Again(ts[i]))
  }

  lemma DistinctParts(a: seq<Name>, b: seq<Name>)
    requires Distinct(a + b)
    ensures Distinct(a) && Distinct(b) && forall n :: n in b ==> n !in a
  {
    var c := a + b;
    assert forall i :: 0 <= i < |a| ==> c[i] == a[i];
    forall i, j | 0 <= i < j < |b| ensures b[i] != b[j] {
      assert c[|a| + i] == b[i] && c[|a| + j] == b[j];
    }
    forall n | n in b ensures n !in a {
      var j :| 0 <= j < |b| && b[j] == n;
      assert c[|a| + j] == n;
    }
  }

  /** Repeating over the state and the missing record `end` a completed fetch left: symbol by symbol. */
  lemma {:induction false} RepeatCounts(s: State, known: set<Name>, work: seq<seq<Name>>, server: Server,
                                        end: set<Name>, again: State, other: Server)
    requires s.missing == [] && Distinct(Flatten(work)) && RunSymbols(s, known, work, server).Done?
    requires var r := RunSymbols(s, known, work, server);
             && (forall n :: n in Flatten(work) ==> (n in end <==> n in r.state.missing))
             && (forall n :: n in r.state.disk ==> n in again.disk)
    ensures RunSymbols(again, known + end, work, other)
            == Done(again, AllAgain(RunSymbols(s, known, work, server).counts))
  {
    if work != [] {
      var k := |work| - 1;
      var before, jobs := RunSymbols(s, known, work[..k], server), work[k];
      var p := RunJobs(before.state, known, jobs, server);
      DistinctParts(Flatten(work[..k]), jobs);
      SymbolsMissingGrows(s, known, work[..k], server);
      MissingGrows(before.state, known, jobs, server);
      JobsGrow(before.state, known, jobs, server);
      assert Flatten(work) == Flatten(work[..k]) + jobs;
      forall n | n in Flatten(work[..k]) ensures n in end <==> n in before.state.missing {
        assert n in Flatten(work);
      }
      RepeatCounts(s, known, work[..k], server, end, again, other);
      forall n | n in jobs ensures n in end <==> n in p.state.missing {
        assert n in Flatten(work);
      }
      RepeatSymbol(before.state, known, jobs, server, end, again, other);
    }
  }

  lemma RepeatSymbol(s: State, known: set<Name>, jobs: seq<Name>, server: Server, end: set<Name>, again: State,
                     other: Server)
    requires RunJobs(s, known, jobs, server).Going? && Distinct(jobs) && forall n :: n in jobs ==> n !in s.missing
    requires var p := RunJobs(s, known, jobs, server);
             && (forall n :: n in jobs ==> (n in end <==> n in p.state.missing))
             && (forall n :: n in p.state.disk ==> n in again.disk)
    ensures RunJobs(again, known + end, jobs, other) == Going(again, Again(RunJobs(s, known, jobs, server).tally))
  {
    FirstPass(s, known, jobs, server, end);
    SettledAsksNothing(again, known + end, jobs, other);
  }

  /** After a completed fetch over distinct jobs, repeating it, whatever the archive serves by then, makes no request,
    * changes nothing, keeps nothing new, finds present all it kept or found before, and counts the same missing. */
  lemma RepeatAsksNothing(disk: map<Name, Payload>, missing: set<Name>, work: seq<seq<Name>>, server: Server,
                          requests: seq<Request>, other: Server)
    requires Distinct(Flatten(work)) && RunSymbols(State(disk, [], requests), missing, work, server).Done?
    ensures var first := RunSymbols(State(disk, [], requests), missing, work, server);
            var again := State(first.state.disk, [], first.state.requests);
            RunSymbols(again, missing + Named(first.state.missing), work, other) == Done(again, AllAgain(first.counts))
  {
    var first := RunSymbols(State(disk, [], requests), missing, work, server);
    RepeatCounts(State(disk, [], requests), missing, work, server, Named(first.state.missing),
                 State(first.state.disk, [], first.state.requests), other);
  }

  /** One symbol's jobs: its metrics days, then its funding months, if asked for. */
  function JobsOf(symbol: string, start: int, end: int, months: seq<Month>): seq<Name> {
    seq(if end >= start then end - start + 1 else 0, i requires 0 <= i => Metrics(symbol, start + i))
    + seq(|months|, i requires 0 <= i < |months| => Funding(symbol, months[i]))
  }

  function Work(symbols: seq<string>, start: int, end: int, months: seq<Month>): seq<seq<Name>> {
    seq(|symbols|, i requires 0 <= i < |symbols| => JobsOf(symbols[i], start, end, months))
  }

  lemma DistinctJoin(a: seq<Name>, b: seq<Name>)
    requires Distinct(a) && Distinct(b) && forall n :: n in b ==> n !in a
    ensures Distinct(a + b)
  {
    var c := a + b;
    forall i, j | 0 <= i < j < |c| ensures c[i] != c[j] {
      if i < |a| <= j {
        assert c[j] in b && c[i] in a;
      }
    }
  }

  predicate InRange(n: Name, start: int, end: int, months: seq<Month>) {
    if n.Metrics? then start <= n.day <= end else n.month in months
  }

  lemma JobsAre(symbol: string, start: int, end: int, months: seq<Month>)
    ensures forall n :: n in JobsOf(symbol, start, end, months) <==>
              n.symbol == symbol && InRange(n, start, end, months)
  {
    var jobs := JobsOf(symbol, start, end, months);
    var days := if end >= start then end - start + 1 else 0;
    forall n: Name | n.symbol == symbol && InRange(n, start, end, months) ensures n in jobs {
      if n.Metrics? {
        assert jobs[n.day - start] == n;
      } else {
        var i :| 0 <= i < |months| && months[i] == n.month;
        assert jobs[days + i] == n;
      }
    }
  }

  /** The jobs are each symbol's days of the range and its months; distinct symbols have distinct jobs. */
  lemma {:induction false} WorkIsDistinct(symbols: seq<string>, start: int, end: int, months: seq<Month>)
    requires forall i, j :: 0 <= i < j < |symbols| ==> symbols[i] != symbols[j]
    requires forall i, j :: 0 <= i < j < |months| ==> months[i] != months[j]
    ensures Distinct(Flatten(Work(symbols, start, end, months)))
    ensures forall n :: n in Flatten(Work(symbols, start, end, months)) <==>
              n.symbol in symbols && InRange(n, start, end, months)
  {
    if symbols != [] {
      var k := |symbols| - 1;
      var work, jobs := Work(symbols, start, end, months), JobsOf(symbols[k], start, end, months);
      WorkIsDistinct(symbols[..k], start, end, months);
      assert work[..k] == Work(symbols[..k], start, end, months) && work[k] == jobs;
      JobsAre(symbols[k], start, end, months);
      assert forall x :: x in symbols <==> x in symbols[..k] || x == symbols[k];
      DistinctJoin(Flatten(work[..k]), jobs);
    }
  }

  /** `fetch` over distinct symbols and a range of days, with the funding months or without, and then again, whatever
    * the archive serves by then: the second asks for nothing, changes nothing, and reports present all the first
    * kept or found, and the same missing. */
  lemma RepeatOverRange(symbols: seq<string>, start: int, end: int, first: Month, last: Month, months: seq<Month>,
                        d: Directory, server: Server, other: Server)
    requires forall i, j :: 0 <= i < j < |symbols| ==> symbols[i] != symbols[j]
    requires months == [] || MonthsBetween(first, last, months)
    requires RunSymbols(State(d.disk, [], d.requests), d.missing, Work(symbols, start, end, months), server).Done?
    ensures var work := Work(symbols, start, end, months);
            var after := AfterSession(d, Session(work, server));
            var counts := RunSymbols(State(d.disk, [], d.requests), d.missing, work, server).counts;
            && AfterSession(after, Session(work, other)) == after
            && RunSymbols(State(after.disk, [], after.requests), after.missing, work, other)
               == Done(State(after.disk, [], after.requests), AllAgain(counts))
  {
    WorkIsDistinct(symbols, start, end, months);
    var work := Work(symbols, start, end, months);
    RepeatAsksNothing(d.disk, d.missing, work, server, d.requests, other);
    assert Named([]) == {};
  }
}
