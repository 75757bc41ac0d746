/** The verdicts a day pays: which are timely, which were cast after their reveal arrived, and which a controlled fault
    contradicts. Under the jury set a verdict is paid whatever it says. */
module Verdicts {
  import opened Wrappers
  import opened SeasonRules
  import opened Tally

  type Votes = map<string, map<string, string>>

  datatype Where = EndBlock | InTx
  datatype Resolution = Resolution(height: int, where: Where)

  /** The block of a commit: searched and not there, more than the search reads, or found. */
  datatype Dated = NotThere | NotDated | At(height: int)

  type Resolutions = map<string, Option<Resolution>>
  type Dates = map<string, map<string, Dated>>

  datatype Why = Counted | AfterResolution | ResolutionNotIndexed | CommitNotDated

  datatype Entry = Entry(vote: string, committedAt: Option<int>, why: Why)
  datatype JobProof = JobProof(resolved: Option<Resolution>, jurors: map<string, Entry>)

  // ---------------------------------------------------------------- the timely verdicts

  /** The commit precedes the resolution: in an earlier block, or in the block whose end resolved the audit. */
  predicate Precedes(h: int, r: Resolution) { h < r.height || (r.where.EndBlock? && h == r.height) }

  function WhyOf(d: Dated, res: Option<Resolution>): Why
    requires !d.NotThere?
  {
    if d.NotDated? then CommitNotDated
    else if res.None? then ResolutionNotIndexed
    else if Precedes(d.height, res.value) then Counted
    else AfterResolution
  }

  predicate Timely(d: Dated, res: Option<Resolution>) { !d.NotThere? && WhyOf(d, res).Counted? }

  predicate JobDated(votes: map<string, string>, dates: map<string, Dated>) { forall k | k in votes :: k in dates }

  function CountedOn(votes: map<string, string>, res: Option<Resolution>, dates: map<string, Dated>)
    : map<string, string>
    requires JobDated(votes, dates)
  {
    map k | k in votes && Timely(dates[k], res) :: votes[k]
  }

  function EntryOf(vote: string, d: Dated, res: Option<Resolution>): Entry
    requires !d.NotThere?
  {
    Entry(vote, if d.At? then Some(d.height) else None, WhyOf(d, res))
  }

  function ProofOn(votes: map<string, string>, res: Option<Resolution>, dates: map<string, Dated>): map<string, Entry>
    requires JobDated(votes, dates)
  {
    map k | k in votes && !dates[k].NotThere? :: EntryOf(votes[k], dates[k], res)
  }

  /** Every job's resolution and every verdict's date were read. */
  predicate AllDated(commits: Votes, rs: Resolutions, ds: Dates) {
    forall j | j in commits :: j in rs && (commits[j] == map[] || (j in ds && JobDated(commits[j], ds[j])))
  }

  function DatesOn(ds: Dates, job: string): map<string, Dated> { if job in ds then ds[job] else map[] }

  /** The verdicts counted, job by job; a job none of whose verdicts counts is not there. */
  function CountedVotes(commits: Votes, rs: Resolutions, ds: Dates): Votes
    requires AllDated(commits, rs, ds)
  {
    map j | j in commits && CountedOn(commits[j], rs[j], DatesOn(ds, j)) != map[] ::
      CountedOn(commits[j], rs[j], DatesOn(ds, j))
  }

  function Proof(commits: Votes, rs: Resolutions, ds: Dates): map<string, JobProof>
    requires AllDated(commits, rs, ds)
  {
    map j | j in commits :: JobProof(rs[j], ProofOn(commits[j], rs[j], DatesOn(ds, j)))
  }

  /** The jurors outside `rest` are decided and recorded. */
  ghost predicate JobSoFar(votes: map<string, string>, res: Option<Resolution>, dates: map<string, Dated>,
                           rest: set<string>,
                           counted: map<string, string>, jurors: map<string, Entry>) {
    && (forall k | k in votes && k !in rest :: k in dates)
    && counted == (map k | k in votes && k !in rest && Timely(dates[k], res) :: votes[k])
    && jurors == (map k | k in votes && k !in rest && !dates[k].NotThere? :: EntryOf(votes[k], dates[k], res))
  }

  lemma {:induction false} JobStep(votes: map<string, string>, res: Option<Resolution>, dates: map<string, Dated>,
                                   rest: set<string>, counted: map<string, string>, jurors: map<string, Entry>,
                                   k: string)
    requires JobSoFar(votes, res, dates, rest, counted, jurors) && k in rest && k in votes && k in dates
    ensures JobSoFar(votes, res, dates, rest - {k}, if Timely(dates[k], res) then counted[k := votes[k]] else counted,
                     if dates[k].NotThere? then jurors else jurors[k := EntryOf(votes[k], dates[k], res)])
  {
    hide WhyOf, Timely, EntryOf;
  }

  /** The jurors of one audit. */
  method JobVerdicts(votes: map<string, string>, res: Option<Resolution>, dates: map<string, Dated>)
      returns (ok: bool, counted: map<string, string>, jurors: map<string, Entry>)
    ensures ok <==> JobDated(votes, dates)
    ensures ok ==> counted == CountedOn(votes, res, dates) && jurors == ProofOn(votes, res, dates)
  {
    ok, counted, jurors := true, map[], map[];
    var rest := votes.Keys;
    while rest != {}
      invariant rest <= votes.Keys && JobSoFar(votes, res, dates, rest, counted, jurors)
      decreases |rest|
    {
      hide WhyOf, JobSoFar;
      var k :| k in rest;
      if k !in dates {
        return false, map[], map[];
      }
      JobStep(votes, res, dates, rest, counted, jurors, k);
      var d := dates[k];
      if !d.NotThere? {
        if WhyOf(d, res).Counted? { counted := counted[k := votes[k]]; }
        jurors := jurors[k := EntryOf(votes[k], d, res)];
      }
      rest := rest - {k};
    }
  }

  /** What of `commits` has been read. */
  function Outside(commits: Votes, rest: set<string>): Votes { map j | j in commits && j !in rest :: commits[j] }

  lemma {:induction false} OutsideNext(commits: Votes, rest: set<string>, j: string)
    requires j in rest && j in commits
    ensures Outside(commits, rest - {j}) == Outside(commits, rest)[j := commits[j]]
  {
  }

  ghost predicate TimelySoFar(some: Votes, rs: Resolutions, ds: Dates, counted: Votes, proof: map<string, JobProof>) {
    AllDated(some, rs, ds) && counted == CountedVotes(some, rs, ds) && proof == Proof(some, rs, ds)
  }

  lemma {:induction false} DatedNext(some: Votes, rs: Resolutions, ds: Dates, j: string, votes: map<string, string>)
    requires AllDated(some, rs, ds) && j in rs && JobDated(votes, DatesOn(ds, j))
    ensures AllDated(some[j := votes], rs, ds)
  {
    DatedJob(votes, ds, j);
    hide JobDated;
  }

  lemma {:induction false} CountedNext(some: Votes, rs: Resolutions, ds: Dates, j: string, votes: map<string, string>,
                                       c: map<string, string>)
    requires AllDated(some, rs, ds) && AllDated(some[j := votes], rs, ds) && j !in some
    requires JobDated(votes, DatesOn(ds, j)) && c == CountedOn(votes, rs[j], DatesOn(ds, j))
    ensures CountedVotes(some[j := votes], rs, ds)
         == if c != map[] then CountedVotes(some, rs, ds)[j := c] else CountedVotes(some, rs, ds)
  {
    hide CountedOn, DatesOn;
  }

  lemma {:induction false} ProofNext(some: Votes, rs: Resolutions, ds: Dates, j: string, votes: map<string, string>)
    requires AllDated(some, rs, ds) && AllDated(some[j := votes], rs, ds)
    requires JobDated(votes, DatesOn(ds, j))
    ensures Proof(some[j := votes], rs, ds) ==
            Proof(some, rs, ds)[j := JobProof(rs[j], ProofOn(votes, rs[j], DatesOn(ds, j)))]
  {
    hide ProofOn, DatesOn;
  }

  /** The verdicts the chain's own tally could have read, and the record of them all. */
  method TimelyVerdicts(commits: Votes, rs: Resolutions, ds: Dates) returns (r: Result<(Votes, map<string, JobProof>)>)
    ensures r.Ok? <==> AllDated(commits, rs, ds)
    ensures r.Ok? ==> r.value.0 == CountedVotes(commits, rs, ds) && r.value.1 == Proof(commits, rs, ds)
  {
    var counted: Votes, proof: map<string, JobProof> := map[], map[];
    var rest := commits.Keys;
    while rest != {}
      invariant rest <= commits.Keys && TimelySoFar(Outside(commits, rest), rs, ds, counted, proof)
      decreases |rest|
    {
      hide CountedOn, ProofOn, JobDated, CountedVotes, Proof;
      var j :| j in rest;
      if j !in rs {
        return Refused;
      }
      var ok, some, jurors := JobVerdicts(commits[j], rs[j], DatesOn(ds, j));
      if !ok {
        NotDatedJob(commits, rs, ds, j);
        return Refused;
      }
      var read := Outside(commits, rest);
      DatedNext(read, rs, ds, j, commits[j]);
      CountedNext(read, rs, ds, j, commits[j], some);
      ProofNext(read, rs, ds, j, commits[j]);
      OutsideNext(commits, rest, j);
      if some != map[] { counted := counted[j := some]; }
      proof, rest := proof[j := JobProof(rs[j], jurors)], rest - {j};
    }
    assert Outside(commits, {}) == commits;
    return Ok((counted, proof));
  }

  lemma {:induction false} NotDatedJob(commits: Votes, rs: Resolutions, ds: Dates, j: string)
    requires j in commits && !JobDated(commits[j], DatesOn(ds, j))
    ensures !AllDated(commits, rs, ds)
  {
  }

  lemma {:induction false} DatedJob(votes: map<string, string>, ds: Dates, j: string)
    requires JobDated(votes, DatesOn(ds, j))
    ensures votes == map[] || (j in ds && JobDated(votes, ds[j]))
  {
  }

  // ---------------------------------------------------------------- the verdicts the jury set pays

  /** When the relay recorded a sealed reveal: no record, not readable, or a time. */
  datatype Arrival = NoReveal | StoreUnread | Arrived(time: real)

  function Key(job: string, juror: string, primary: string): string { job + "__" + juror + "__" + primary }

  type Arrivals = map<string, Arrival>
  type Heights = map<string, map<string, int>>
  type Times = map<int, real>

  datatype Paid = AfterReveal | NoRevealSealed | StoreNotRead | BeforeReveal

  datatype Reads = Reads(primaries: map<string, string>, arrivals: Arrivals, committed: Heights, times: Times)

  /** Everything the verdict of `juror` on `job` is decided from was read. */
  predicate VerdictRead(x: Reads, job: string, juror: string) {
    job in x.primaries && (juror == x.primaries[job] || (
      && Key(job, juror, x.primaries[job]) in x.arrivals
      && (x.arrivals[Key(job, juror, x.primaries[job])].Arrived? ==>
            job in x.committed && juror in x.committed[job] && x.committed[job][juror] in x.times)))
  }

  function PaidAs(x: Reads, job: string, juror: string): Paid
    requires VerdictRead(x, job, juror) && juror != x.primaries[job]
  {
    var t := x.arrivals[Key(job, juror, x.primaries[job])];
    if t.NoReveal? then NoRevealSealed
    else if t.StoreUnread? then StoreNotRead
    else if x.times[x.committed[job][juror]] > t.time then AfterReveal
    else BeforeReveal
  }

  predicate Pays(x: Reads, job: string, juror: string) {
    VerdictRead(x, job, juror) && juror != x.primaries[job] && PaidAs(x, job, juror).AfterReveal?
  }

  /** The jobs whose verdict by `juror` is paid. */
  function PaidOn(votes: Votes, x: Reads, juror: string): set<string> {
    set j | j in votes && juror in votes[j] && Pays(x, j, juror)
  }

  predicate AllRead(votes: Votes, x: Reads) {
    forall j | j in votes :: j in x.primaries && forall k | k in votes[j] :: VerdictRead(x, j, k)
  }

  function PaidProof(votes: map<string, string>, x: Reads, job: string): map<string, Paid>
    requires job in x.primaries && forall k | k in votes :: VerdictRead(x, job, k)
  {
    map k | k in votes && k != x.primaries[job] :: PaidAs(x, job, k)
  }

  ghost predicate CountsOf(counts: map<string, nat>, votes: Votes, x: Reads) {
    forall juror: string :: Get(counts, juror, 0) == |PaidOn(votes, x, juror)|
  }

  ghost predicate Raised(before: map<string, nat>, after: map<string, nat>, votes: map<string, string>, x: Reads,
                         job: string, rest: set<string>) {
    forall k: string ::
      Get(after, k, 0) == Get(before, k, 0) + if k in votes && k !in rest && Pays(x, job, k) then 1 else 0
  }

  lemma {:induction false} RaisedStep(before: map<string, nat>, after: map<string, nat>, votes: map<string, string>,
                                      x: Reads, job: string,
                   rest: set<string>, k: string)
    requires k in rest && k in votes && Raised(before, after, votes, x, job, rest)
    ensures Raised(before, if Pays(x, job, k) then Add(after, k) else after, votes, x, job, rest - {k})
  {
    hide Pays;
  }

  ghost predicate PerSoFar(votes: map<string, string>, x: Reads, job: string, rest: set<string>, per: map<string, Paid>)
    requires job in x.primaries
  {
    && (forall k | k in votes && k !in rest :: VerdictRead(x, job, k))
    && per == map k | k in votes && k !in rest && k != x.primaries[job] :: PaidAs(x, job, k)
  }

  lemma {:induction false} PerStep(votes: map<string, string>, x: Reads, job: string, rest: set<string>,
                                   per: map<string, Paid>, k: string)
    requires job in x.primaries && PerSoFar(votes, x, job, rest, per) && k in rest && k in votes &&
             VerdictRead(x, job, k)
    ensures PerSoFar(votes, x, job, rest - {k}, if k != x.primaries[job] then per[k := PaidAs(x, job, k)] else per)
  {
    hide VerdictRead, PaidAs;
  }

  method JobCounts(votes: map<string, string>, x: Reads, job: string, before: map<string, nat>)
      returns (ok: bool, counts: map<string, nat>, per: map<string, Paid>)
    requires job in x.primaries
    ensures ok <==> forall k | k in votes :: VerdictRead(x, job, k)
    ensures ok ==> per == PaidProof(votes, x, job) && Raised(before, counts, votes, x, job, {})
  {
    ok, counts, per := true, before, map[];
    var primary, rest := x.primaries[job], votes.Keys;
    while rest != {}
      invariant rest <= votes.Keys && PerSoFar(votes, x, job, rest, per) && Raised(before, counts, votes, x, job, rest)
      decreases |rest|
    {
      hide VerdictRead, Raised, PaidAs, PerSoFar;
      var k :| k in rest;
      if !VerdictRead(x, job, k) {
        return false, before, map[];
      }
      RaisedStep(before, counts, votes, x, job, rest, k);
      PerStep(votes, x, job, rest, per, k);
      if k != primary {
        per := per[k := PaidAs(x, job, k)];
        if PaidAs(x, job, k).AfterReveal? { counts := Add(counts, k); }
      }
      rest := rest - {k};
    }
  }

  lemma {:induction false} PaidNext(votes: Votes, rest: set<string>, x: Reads, j: string, juror: string)
    requires j in rest && j in votes
    ensures |PaidOn(Outside(votes, rest - {j}), x, juror)|
         == |PaidOn(Outside(votes, rest), x, juror)| + if juror in votes[j] && Pays(x, j, juror) then 1 else 0
  {
    hide Pays;
    assert PaidOn(Outside(votes, rest - {j}), x, juror)
        == PaidOn(Outside(votes, rest), x, juror) + if juror in votes[j] && Pays(x, j, juror) then {j} else {};
  }

  lemma {:induction false} CountsNext(before: map<string, nat>, after: map<string, nat>, votes: Votes,
                                      rest: set<string>, x: Reads, j: string)
    requires j in rest && j in votes && CountsOf(before, Outside(votes, rest), x) &&
             Raised(before, after, votes[j], x, j, {})
    ensures CountsOf(after, Outside(votes, rest - {j}), x)
  {
    hide Pays, PaidOn, Outside;
    forall juror: string ensures Get(after, juror, 0) == |PaidOn(Outside(votes, rest - {j}), x, juror)| {
      PaidNext(votes, rest, x, j, juror);
    }
  }

  ghost predicate ProofSoFar(some: Votes, x: Reads, proof: map<string, map<string, Paid>>) {
    AllRead(some, x) && proof == map j | j in some :: PaidProof(some[j], x, j)
  }

  lemma {:induction false} ProofStep(some: Votes, x: Reads, proof: map<string, map<string, Paid>>, j: string,
                                     votes: map<string, string>)
    requires ProofSoFar(some, x, proof) && j in x.primaries && forall k | k in votes :: VerdictRead(x, j, k)
    ensures ProofSoFar(some[j := votes], x, proof[j := PaidProof(votes, x, j)])
  {
    hide VerdictRead, PaidProof;
  }

  /** The verdicts paid under the jury set: committed strictly after the reveal sealed to their juror arrived. */
  method JuryVerdicts(votes: Votes, x: Reads) returns (r: Result<(map<string, nat>, map<string, map<string, Paid>>)>)
    ensures r.Ok? <==> AllRead(votes, x)
    ensures r.Ok? ==> CountsOf(r.value.0, votes, x)
    ensures r.Ok? ==> r.value.1 == map j | j in votes :: PaidProof(votes[j], x, j)
  {
    var counts: map<string, nat>, proof: map<string, map<string, Paid>> := map[], map[];
    var rest := votes.Keys;
    while rest != {}
      invariant rest <= votes.Keys && CountsOf(counts, Outside(votes, rest), x) &&
                ProofSoFar(Outside(votes, rest), x, proof)
      decreases |rest|
    {
      hide VerdictRead, PaidProof, Pays, CountsOf, Raised, ProofSoFar;
      var j :| j in rest;
      if j !in x.primaries {
        return Refused;
      }
      var ok, next, per := JobCounts(votes[j], x, j, counts);
      if !ok {
        return Refused;
      }
      CountsNext(counts, next, votes, rest, x, j);
      ProofStep(Outside(votes, rest), x, proof, j, votes[j]);
      OutsideNext(votes, rest, j);
      counts, proof, rest := next, proof[j := per], rest - {j};
    }
    assert Outside(votes, {}) == votes;
    return Ok((counts, proof));
  }

  // ---------------------------------------------------------------- blind to the votes

  /** The same jurors voted on the same jobs. */
  ghost predicate SameVoters(a: Votes, b: Votes) {
    a.Keys == b.Keys && forall j | j in a :: a[j].Keys == b[j].Keys
  }

  lemma {:induction false} TimelyIsBlind(a: Votes, b: Votes, rs: Resolutions, ds: Dates)
    requires SameVoters(a, b)
    ensures AllDated(a, rs, ds) <==> AllDated(b, rs, ds)
    ensures AllDated(a, rs, ds) ==> SameVoters(CountedVotes(a, rs, ds), CountedVotes(b, rs, ds))
  {
    forall j | j in a ensures a[j] == map[] <==> b[j] == map[] {
      assert a[j] == map[] <==> a[j].Keys == {};
      assert b[j] == map[] <==> b[j].Keys == {};
    }
    if AllDated(a, rs, ds) {
      forall j | j in a
        ensures CountedOn(a[j], rs[j], DatesOn(ds, j)).Keys == CountedOn(b[j], rs[j], DatesOn(ds, j)).Keys
        ensures CountedOn(a[j], rs[j], DatesOn(ds, j)) == map[] <==> CountedOn(b[j], rs[j], DatesOn(ds, j)) == map[]
      {
        CountedBlind(a[j], b[j], rs[j], DatesOn(ds, j));
      }
    }
  }

  lemma {:induction false} CountedBlind(a: map<string, string>, b: map<string, string>, res: Option<Resolution>,
                                        dates: map<string, Dated>)
    requires a.Keys == b.Keys && JobDated(a, dates)
    ensures CountedOn(a, res, dates).Keys == CountedOn(b, res, dates).Keys
    ensures CountedOn(a, res, dates) == map[] <==> CountedOn(b, res, dates) == map[]
  {
    var x, y := CountedOn(a, res, dates), CountedOn(b, res, dates);
    assert x.Keys == y.Keys;
    assert x == map[] <==> x.Keys == {};
    assert y == map[] <==> y.Keys == {};
  }

  /** Main result: two days that differ only in what the jurors voted are read or refused alike and pay every juror the
      same number of verdicts. */
  lemma {:induction false} PayIsVoteBlind(a: Votes, b: Votes, rs: Resolutions, ds: Dates, x: Reads, juror: string)
    requires SameVoters(a, b) && AllDated(a, rs, ds)
    ensures AllDated(b, rs, ds)
    ensures var va, vb := CountedVotes(a, rs, ds), CountedVotes(b, rs, ds);
            && (AllRead(va, x) <==> AllRead(vb, x))
            && PaidOn(va, x, juror) == PaidOn(vb, x, juror)
  {
    hide CountedVotes, VerdictRead, Pays;
    TimelyIsBlind(a, b, rs, ds);
  }

  /** `b` holds the verdicts of `a`, and others none of which has a commit in the window. */
  ghost predicate AddsAbsent(a: Votes, b: Votes, rs: Resolutions, ds: Dates)
    requires AllDated(b, rs, ds)
  {
    && a.Keys <= b.Keys && (forall j | j in a :: a[j].Keys <= b[j].Keys)
    && forall j, k | j in b && k in b[j] :: (j in a && k in a[j] && a[j][k] == b[j][k]) || ds[j][k].NotThere?
  }

  lemma {:induction false} AbsentOnJob(a: map<string, string>, b: map<string, string>, res: Option<Resolution>,
                                       dates: map<string, Dated>)
    requires JobDated(a, dates) && JobDated(b, dates) && a.Keys <= b.Keys
    requires forall k | k in b :: (k in a && a[k] == b[k]) || dates[k].NotThere?
    ensures CountedOn(a, res, dates) == CountedOn(b, res, dates)
  {
  }

  /** Main result: verdicts with no commit in the window change nothing that is counted, whatever they say. */
  lemma {:induction false} AbsentChangesNothing(a: Votes, b: Votes, rs: Resolutions, ds: Dates)
    requires AllDated(a, rs, ds) && AllDated(b, rs, ds) && AddsAbsent(a, b, rs, ds)
    ensures CountedVotes(a, rs, ds) == CountedVotes(b, rs, ds)
  {
    forall j | j in b ensures CountsSame(a, b, rs, ds, j) { AbsentOn(a, b, rs, ds, j); }
    hide CountedOn, AllDated;
  }

  /** What is counted of job `j` is the same, nothing when `a` does not have it. */
  ghost predicate CountsSame(a: Votes, b: Votes, rs: Resolutions, ds: Dates, j: string)
    requires AllDated(a, rs, ds) && AllDated(b, rs, ds) && j in b
  {
    CountedOn(b[j], rs[j], DatesOn(ds, j)) == if j in a then CountedOn(a[j], rs[j], DatesOn(ds, j)) else map[]
  }

  lemma {:induction false} AbsentOn(a: Votes, b: Votes, rs: Resolutions, ds: Dates, j: string)
    requires AllDated(a, rs, ds) && AllDated(b, rs, ds) && AddsAbsent(a, b, rs, ds) && j in b
    ensures CountsSame(a, b, rs, ds, j)
  {
    var none: map<string, string> := map[];
    AbsentOnJob(if j in a then a[j] else none, b[j], rs[j], DatesOn(ds, j));
  }

  // ---------------------------------------------------------------- the contradictions of a controlled fault

  const CONTRADICTING_CLASSES := ["incoherent_answer", "no_reveal"]

  datatype Sanction = NotAgainst | Contradicted | ClassContradictsNobody | ArrivalUnread | RevealArrived

  datatype FaultProof = FaultProof(cls: string, votes: map<string, (string, Sanction)>)

  predicate ArrivalRead(x: Reads, job: string, juror: string) {
    job in x.primaries && Key(job, juror, x.primaries[job]) in x.arrivals
  }

  /** Whether the vote of one juror on a fault needs the arrival of its reveal. */
  predicate NeedsArrival(cls: string, vote: string) { vote == "1" && cls == "no_reveal" }

  function SanctionOf(cls: string, vote: string, x: Reads, job: string, juror: string): Sanction
    requires NeedsArrival(cls, vote) ==> ArrivalRead(x, job, juror)
  {
    if vote != "1" then NotAgainst
    else if cls !in CONTRADICTING_CLASSES then ClassContradictsNobody
    else if cls == "no_reveal" && !x.arrivals[Key(job, juror, x.primaries[job])].NoReveal? then
      if x.arrivals[Key(job, juror, x.primaries[job])].StoreUnread? then ArrivalUnread else RevealArrived
    else Contradicted
  }

  function JurorsOn(proof: map<string, JobProof>, job: string): map<string, Entry> {
    if job in proof then proof[job].jurors else map[]
  }

  predicate FaultRead(cls: string, jurors: map<string, Entry>, x: Reads, job: string) {
    forall k | k in jurors && NeedsArrival(cls, jurors[k].vote) :: ArrivalRead(x, job, k)
  }

  function SanctionsOn(cls: string, jurors: map<string, Entry>, x: Reads, job: string): map<string, (string, Sanction)>
    requires FaultRead(cls, jurors, x, job)
  {
    map k | k in jurors :: (jurors[k].vote, SanctionOf(cls, jurors[k].vote, x, job, k))
  }

  /** `juror` voted that the answer of a fault was right, and nothing it was handed could have said otherwise. */
  ghost predicate VotedForFault(faults: map<string, string>, proof: map<string, JobProof>, x: Reads, juror: string) {
    exists job | job in faults :: VotedForFaultOn(faults[job], JurorsOn(proof, job), x, job, juror)
  }

  predicate VotedForFaultOn(cls: string, jurors: map<string, Entry>, x: Reads, job: string, juror: string) {
    && juror in jurors && jurors[juror].vote == "1" && cls in CONTRADICTING_CLASSES
    && (cls == "no_reveal" ==> ArrivalRead(x, job, juror) && x.arrivals[Key(job, juror, x.primaries[job])].NoReveal?)
  }

  /** The jurors outside `rest` are sanctioned and recorded. */
  ghost predicate SanctionedSoFar(cls: string, jurors: map<string, Entry>, x: Reads, job: string, before: set<string>,
                                  rest: set<string>, out: set<string>, per: map<string, (string, Sanction)>) {
    && (forall k | k in jurors && k !in rest && NeedsArrival(cls, jurors[k].vote) :: ArrivalRead(x, job, k))
    && per == (map k | k in jurors && k !in rest :: (jurors[k].vote, SanctionOf(cls, jurors[k].vote, x, job, k)))
    && out == before + set k | k in jurors && k !in rest && VotedForFaultOn(cls, jurors, x, job, k)
  }

  lemma {:induction false} SanctionStep(cls: string, jurors: map<string, Entry>, x: Reads, job: string,
                                        before: set<string>, rest: set<string>, out: set<string>,
                                        per: map<string, (string, Sanction)>, k: string)
    requires SanctionedSoFar(cls, jurors, x, job, before, rest, out, per) && k in rest && k in jurors
    requires NeedsArrival(cls, jurors[k].vote) ==> ArrivalRead(x, job, k)
    ensures var s := SanctionOf(cls, jurors[k].vote, x, job, k);
            SanctionedSoFar(cls, jurors, x, job, before, rest - {k}, if s.Contradicted? then out + {k} else out,
                            per[k := (jurors[k].vote, s)])
  {
    SanctionMeans(cls, jurors, x, job, k);
    hide SanctionOf, VotedForFaultOn, ArrivalRead, NeedsArrival;
  }

  method FaultVotes(cls: string, jurors: map<string, Entry>, x: Reads, job: string, before: set<string>)
      returns (ok: bool, out: set<string>, per: map<string, (string, Sanction)>)
    ensures ok <==> FaultRead(cls, jurors, x, job)
    ensures ok ==> per == SanctionsOn(cls, jurors, x, job)
    ensures ok ==> out == before + set k | k in jurors && VotedForFaultOn(cls, jurors, x, job, k)
  {
    ok, out, per := true, before, map[];
    var rest := jurors.Keys;
    while rest != {}
      invariant rest <= jurors.Keys && SanctionedSoFar(cls, jurors, x, job, before, rest, out, per)
      decreases |rest|
    {
      hide ArrivalRead, SanctionedSoFar;
      var k :| k in rest;
      if NeedsArrival(cls, jurors[k].vote) && !ArrivalRead(x, job, k) {
        return false, before, map[];
      }
      var s := SanctionOf(cls, jurors[k].vote, x, job, k);
      SanctionStep(cls, jurors, x, job, before, rest, out, per, k);
      hide SanctionOf;
      per := per[k := (jurors[k].vote, s)];
      if s.Contradicted? { out := out + {k}; }
      rest := rest - {k};
    }
  }

  lemma {:induction false} SanctionMeans(cls: string, jurors: map<string, Entry>, x: Reads, job: string, k: string)
    requires k in jurors && (NeedsArrival(cls, jurors[k].vote) ==> ArrivalRead(x, job, k))
    ensures SanctionOf(cls, jurors[k].vote, x, job, k).Contradicted? <==> VotedForFaultOn(cls, jurors, x, job, k)
  {
  }

  predicate FaultsRead(faults: map<string, string>, proof: map<string, JobProof>, x: Reads) {
    forall j | j in faults :: FaultRead(faults[j], JurorsOn(proof, j), x, j)
  }

  function FaultRecord(faults: map<string, string>, proof: map<string, JobProof>, x: Reads): map<string, FaultProof>
    requires FaultsRead(faults, proof, x)
  {
    map j | j in faults :: FaultProof(faults[j], SanctionsOn(faults[j], JurorsOn(proof, j), x, j))
  }

  ghost predicate HeldSoFar(out: set<string>, faults: map<string, string>, proof: map<string, JobProof>, x: Reads,
                            rest: set<string>) {
    forall k :: k in out <==> exists j | j in faults && j !in rest ::
      VotedForFaultOn(faults[j], JurorsOn(proof, j), x, j, k)
  }

  lemma {:induction false} HeldStep(out: set<string>, faults: map<string, string>, proof: map<string, JobProof>,
                                    x: Reads, rest: set<string>, j: string)
    requires j in rest && j in faults && HeldSoFar(out, faults, proof, x, rest)
    ensures var jurors := JurorsOn(proof, j);
            var who := set k | k in jurors && VotedForFaultOn(faults[j], jurors, x, j, k);
            HeldSoFar(out + who, faults, proof, x, rest - {j})
  {
    var jurors := JurorsOn(proof, j);
    var who := set k | k in jurors && VotedForFaultOn(faults[j], jurors, x, j, k);
    assert forall k :: k in who <==> VotedForFaultOn(faults[j], jurors, x, j, k);
    hide VotedForFaultOn, JurorsOn;
  }

  /** The jurors a controlled fault contradicts, exactly, and the record of every vote on one. */
  method FaultContradictions(faults: map<string, string>, proof: map<string, JobProof>, x: Reads)
      returns (r: Result<(set<string>, map<string, FaultProof>)>)
    ensures r.Ok? <==> FaultsRead(faults, proof, x)
    ensures r.Ok? ==> forall juror :: juror in r.value.0 <==> VotedForFault(faults, proof, x, juror)
    ensures r.Ok? ==> r.value.1 == FaultRecord(faults, proof, x)
  {
    hide JurorsOn, SanctionsOn, FaultRead, VotedForFaultOn;
    var out: set<string>, record: map<string, FaultProof> := {}, map[];
    var rest := faults.Keys;
    while rest != {}
      invariant rest <= faults.Keys
      invariant forall j | j in faults && j !in rest :: FaultRead(faults[j], JurorsOn(proof, j), x, j)
      invariant HeldSoFar(out, faults, proof, x, rest)
      invariant record == map j | j in faults && j !in rest ::
                FaultProof(faults[j], SanctionsOn(faults[j], JurorsOn(proof, j), x, j))
      decreases |rest|
    {
      hide HeldSoFar;
      var j :| j in rest;
      HeldStep(out, faults, proof, x, rest, j);
      var ok, more, per := FaultVotes(faults[j], JurorsOn(proof, j), x, j, out);
      if !ok {
        return Refused;
      }
      out, record, rest := more, record[j := FaultProof(faults[j], per)], rest - {j};
    }
    return Ok((out, record));
  }

  /** A juror that votes only "0" on the faults is never contradicted, and so is nobody on a day without
      faults. */
  lemma {:induction false} ZeroIsNeverContradicted(faults: map<string, string>, proof: map<string, JobProof>, x: Reads,
                                                   juror: string)
    requires forall j | j in faults && juror in JurorsOn(proof, j) :: JurorsOn(proof, j)[juror].vote != "1"
    ensures !VotedForFault(faults, proof, x, juror)
  {
  }

  /** What `timely_verdicts` records is what the fault check reads: a verdict with no commit in the window is neither
      paid nor held against its juror. */
  lemma {:induction false} UnseenIsNotHeld(commits: Votes, rs: Resolutions, ds: Dates, faults: map<string, string>,
                                           x: Reads, juror: string)
    requires AllDated(commits, rs, ds)
    requires forall j | j in commits && juror in commits[j] :: ds[j][juror].NotThere?
    ensures PaidOn(CountedVotes(commits, rs, ds), x, juror) == {}
    ensures !VotedForFault(faults, Proof(commits, rs, ds), x, juror)
  {
    hide Pays;
  }
}
