/** The chain facts of a day: the programme's settled jobs counted as verified requests of their miner, the verdicts
    counted for the jurors, and the unwound jobs; and why no job is counted twice over a season. */
module DayFacts {
  import opened Wrappers
  import opened SeasonRules
  import opened SeasonWindow
  import opened JobStates
  import opened UnwoundWork
  import opened UnwoundRule
  import opened StateMarkers
  import opened Ordering
  import opened Tally

  type Verdicts = map<string, map<string, string>>

  /** What one ranking of one day reads. */
  datatype Ranking = Ranking(day: int, start: int, rules: RuleSet, jobs: seq<Job>, settle: map<string, int>,
                             verdicts: Verdicts, generator: string, finality: int, current: int,
                             answered: set<string>, last: int, lines: Lines)

  /** The blocks the day counts; refused when the last one lies outside the day, or while the day is not final. */
  function CountedWindow(r: Ranking): Result<Window> {
    var w := DayBounds(r.day, r.start, r.rules.dayBlocks, None).value;
    if !(w.first <= r.last <= w.last) || r.current < r.last + r.finality then Refused else Ok(Window(w.first, r.last))
  }

  /** A programme job settled in the day's counted window. */
  predicate Programme(r: Ranking, w: Window, j: Job) {
    j.id in r.settle && Within(w, r.settle[j.id]) && j.client == r.generator
  }

  predicate Works(r: Ranking, w: Window, j: Job) {
    Programme(r, w, j) && FinalPositive(j) && j.id in r.answered && j.minerId != ""
  }

  /** `juror` voted with the outcome of the job's audit, and the job is not its own. */
  predicate Agrees(r: Ranking, w: Window, j: Job, juror: string) {
    && Programme(r, w, j) && AuditOutcome(j).Some? && juror != j.minerId
    && juror in VotesOn(r, j) && VotesOn(r, j)[juror] == AuditOutcome(j).value
  }

  function VotesOn(r: Ranking, j: Job): map<string, string> { if j.id in r.verdicts then r.verdicts[j.id] else map[] }

  /** The places, among the first `n` jobs of the listing, of what is counted for an identity. */
  function WorkAt(r: Ranking, w: Window, mid: string, n: nat): set<nat>
    requires n <= |r.jobs|
  {
    set i: nat | i < n && Works(r, w, r.jobs[i]) && r.jobs[i].minerId == mid
  }

  function AgreedAt(r: Ranking, w: Window, juror: string, n: nat): set<nat>
    requires n <= |r.jobs|
  {
    set i: nat | i < n && Agrees(r, w, r.jobs[i], juror)
  }

  ghost predicate WorkCounted(r: Ranking, w: Window, n: nat, work: map<string, nat>)
    requires n <= |r.jobs|
  {
    forall mid: string :: Get(work, mid, 0) == |WorkAt(r, w, mid, n)|
  }

  ghost predicate VerdictsCounted(r: Ranking, w: Window, n: nat, judged: map<string, nat>)
    requires n <= |r.jobs|
  {
    forall juror: string :: Get(judged, juror, 0) == |AgreedAt(r, w, juror, n)|
  }

  lemma {:induction false} WorkNext(r: Ranking, w: Window, mid: string, n: nat)
    requires n < |r.jobs|
    ensures |WorkAt(r, w, mid, n + 1)|
         == |WorkAt(r, w, mid, n)| + if Works(r, w, r.jobs[n]) && r.jobs[n].minerId == mid then 1 else 0
  {
    hide Works;
    assert WorkAt(r, w, mid, n + 1)
        == WorkAt(r, w, mid, n) + if Works(r, w, r.jobs[n]) && r.jobs[n].minerId == mid then {n} else {};
  }

  lemma {:induction false} AgreedNext(r: Ranking, w: Window, juror: string, n: nat)
    requires n < |r.jobs|
    ensures |AgreedAt(r, w, juror, n + 1)| ==
            |AgreedAt(r, w, juror, n)| + if Agrees(r, w, r.jobs[n], juror) then 1 else 0
  {
    hide Agrees;
    assert AgreedAt(r, w, juror, n + 1) ==
           AgreedAt(r, w, juror, n) + if Agrees(r, w, r.jobs[n], juror) then {n} else {};
  }

  lemma {:induction false} WorkStep(r: Ranking, w: Window, n: nat, work: map<string, nat>)
    requires n < |r.jobs| && WorkCounted(r, w, n, work)
    ensures WorkCounted(r, w, n + 1, if Works(r, w, r.jobs[n]) then Add(work, r.jobs[n].minerId) else work)
  {
    hide Works, WorkAt;
    var after := if Works(r, w, r.jobs[n]) then Add(work, r.jobs[n].minerId) else work;
    forall mid: string ensures Get(after, mid, 0) == |WorkAt(r, w, mid, n + 1)| { WorkNext(r, w, mid, n); }
  }

  /** One vote more for each juror that agreed with the outcome, and nothing for the others. */
  ghost predicate Raised(before: map<string, nat>, after: map<string, nat>, who: set<string>) {
    forall k: string :: Get(after, k, 0) == Get(before, k, 0) + if k in who then 1 else 0
  }

  function Agreeing(votes: map<string, string>, outcome: string, miner: string): set<string> {
    set k | k in votes && votes[k] == outcome && k != miner
  }

  method CountVotes(votes: map<string, string>, outcome: string, miner: string, before: map<string, nat>)
      returns (judged: map<string, nat>)
    ensures Raised(before, judged, Agreeing(votes, outcome, miner))
  {
    judged := before;
    var rest := votes.Keys;
    while rest != {}
      invariant rest <= votes.Keys && Raised(before, judged, Agreeing(votes, outcome, miner) - rest)
      decreases |rest|
    {
      var k :| k in rest;
      if votes[k] == outcome && k != miner {
        judged := Add(judged, k);
      }
      rest := rest - {k};
    }
  }

  lemma {:induction false} VerdictStep(r: Ranking, w: Window, n: nat, before: map<string, nat>, after: map<string, nat>)
    requires n < |r.jobs| && VerdictsCounted(r, w, n, before)
    requires Raised(before, after, set k | k in VotesOn(r, r.jobs[n]) && Agrees(r, w, r.jobs[n], k))
    ensures VerdictsCounted(r, w, n + 1, after)
  {
    var who := set k | k in VotesOn(r, r.jobs[n]) && Agrees(r, w, r.jobs[n], k);
    assert forall k: string :: k in who <==> Agrees(r, w, r.jobs[n], k);
    hide Agrees, AgreedAt;
    forall juror: string ensures Get(after, juror, 0) == |AgreedAt(r, w, juror, n + 1)| { AgreedNext(r, w, juror, n); }
  }

  datatype Facts = Facts(work: map<string, nat>, verdicts: map<string, nat>)

  /** The work and the verdicts of one day, or a refusal while the day is not final. */
  method ChainDayFacts(r: Ranking) returns (res: Result<Facts>)
    ensures res.Ok? <==> CountedWindow(r).Ok?
    ensures res.Ok? ==> WorkCounted(r, CountedWindow(r).value, |r.jobs|, res.value.work)
    ensures res.Ok? ==> VerdictsCounted(r, CountedWindow(r).value, |r.jobs|, res.value.verdicts)
  {
    hide FinalPositive, AuditOutcome;
    var window := CountedWindow(r);
    if window.Refused? {
      return Refused;
    }
    var w := window.value;
    var work: map<string, nat>, judged: map<string, nat> := map[], map[];
    for n := 0 to |r.jobs|
      invariant WorkCounted(r, w, n, work) && VerdictsCounted(r, w, n, judged)
    {
      hide WorkCounted, VerdictsCounted;
      WorkStep(r, w, n, work);
      work, judged := CountJob(r, w, n, work, judged);
    }
    return Ok(Facts(work, judged));
  }

  /** The body of the loop: what one job adds. */
  method CountJob(r: Ranking, w: Window, n: nat, workBefore: map<string, nat>, before: map<string, nat>)
      returns (work: map<string, nat>, judged: map<string, nat>)
    requires n < |r.jobs| && VerdictsCounted(r, w, n, before)
    ensures work == if Works(r, w, r.jobs[n]) then Add(workBefore, r.jobs[n].minerId) else workBefore
    ensures VerdictsCounted(r, w, n + 1, judged)
  {
    hide FinalPositive, AuditOutcome, VerdictsCounted;
    var j := r.jobs[n];
    work, judged := workBefore, before;
    if j.id in r.settle && Within(w, r.settle[j.id]) && j.client == r.generator {
      if FinalPositive(j) && j.id in r.answered && j.minerId != "" {
        work := Add(work, j.minerId);
      }
      var outcome := AuditOutcome(j);
      if outcome.Some? {
        judged := CountVotes(VotesOn(r, j), outcome.value, j.minerId, judged);
        assert Agreeing(VotesOn(r, j), outcome.value, j.minerId) == set k | k in VotesOn(r, j) && Agrees(r, w, j, k);
      }
    }
    VerdictStep(r, w, n, before, judged);
  }

  // ---------------------------------------------------------------- the unwound jobs of the day

  function UnwoundUpto(r: Ranking, w: Window, n: nat): Result<map<string, Unwound>>
    requires n <= |r.jobs|
  {
    if n == 0 then Ok(map[])
    else
      var m, j := UnwoundUpto(r, w, n - 1), r.jobs[n - 1];
      if m.Refused? || !Programme(r, w, j) then m
      else
        var why := JobUnwound(j);
        if why.Refused? then Refused
        else if why.value.None? then m
        else Ok(m.value[j.id := Unwound(j.minerId, why.value.value)])
  }

  function UnwoundIn(r: Ranking): Result<map<string, Unwound>> {
    if CountedWindow(r).Refused? then Refused else UnwoundUpto(r, CountedWindow(r).value, |r.jobs|)
  }

  method UnwoundProgrammeJobs(r: Ranking) returns (res: Result<map<string, Unwound>>)
    ensures res == UnwoundIn(r)
  {
    hide JobUnwound;
    var window := CountedWindow(r);
    if window.Refused? {
      return Refused;
    }
    var w, out: map<string, Unwound> := window.value, map[];
    var n := 0;
    while n < |r.jobs|
      invariant n <= |r.jobs| && UnwoundUpto(r, w, n) == Ok(out)
      decreases |r.jobs| - n
    {
      var j := r.jobs[n];
      if Programme(r, w, j) {
        var why := JobUnwound(j);
        if why.Refused? {
          RefusedStays(r, w, n + 1, |r.jobs|);
          return Refused;
        }
        if why.value.Some? {
          out := out[j.id := Unwound(j.minerId, why.value.value)];
        }
      }
      n := n + 1;
    }
    return Ok(out);
  }

  lemma {:induction false} RefusedStays(r: Ranking, w: Window, n: nat, m: nat)
    requires n <= m <= |r.jobs| && UnwoundUpto(r, w, n).Refused?
    ensures UnwoundUpto(r, w, m).Refused?
  {
    if n < m { RefusedStays(r, w, n, m - 1); }
  }

  /** Job `i` is the one the dictionary holds under its id. */
  predicate UnwoundAs(r: Ranking, w: Window, i: nat, u: Unwound)
    requires i < |r.jobs|
  {
    Programme(r, w, r.jobs[i]) && JobUnwound(r.jobs[i]) == Ok(Some(u.state)) && u.minerId == r.jobs[i].minerId
  }

  /** Every job of the dictionary is a programme job settled in the window whose state has the unwound marker. */
  lemma {:induction false} UnwoundMeaning(r: Ranking, w: Window, n: nat, id: string) returns (i: nat)
    requires n <= |r.jobs| && UnwoundUpto(r, w, n).Ok? && id in UnwoundUpto(r, w, n).value
    ensures i < n && r.jobs[i].id == id && UnwoundAs(r, w, i, UnwoundUpto(r, w, n).value[id])
  {
    hide JobUnwound, Programme;
    var j := r.jobs[n - 1];
    if Programme(r, w, j) && JobUnwound(j).Ok? && JobUnwound(j).value.Some? && j.id == id {
      i := n - 1;
    } else {
      i := UnwoundMeaning(r, w, n - 1, id);
    }
  }

  // ---------------------------------------------------------------- what a ranking credits

  function JobId(): Job -> string { (j: Job) => j.id }

  /** A ranking that could be made: the day final, every slash read, no job twice in the listing. */
  ghost predicate Made(r: Ranking) {
    && CountedWindow(r).Ok? && UnwoundIn(r).Ok? && Distinct(Map(r.jobs, JobId()))
    && r.answered == AnsweredIn(r.lines) && r.rules.dayBlocks > 0
  }

  /** The jobs counted as verified requests of `mid`, on each of the two paths. */
  function PaidTo(r: Ranking, mid: string): set<string>
    requires CountedWindow(r).Ok?
  {
    set i | i in WorkAt(r, CountedWindow(r).value, mid, |r.jobs|) :: r.jobs[i].id
  }

  function UnwoundTo(r: Ranking, mid: string): set<string>
    requires UnwoundIn(r).Ok?
  {
    if r.rules.paysUnwoundWork then PaidJobs(r.lines, UnwoundIn(r).value, r.day, mid) else {}
  }

  ghost function CreditedTo(r: Ranking, mid: string): set<string>
    requires Made(r)
  {
    PaidTo(r, mid) + UnwoundTo(r, mid)
  }

  lemma {:induction false} SameId(r: Ranking, i: nat, k: nat)
    requires Distinct(Map(r.jobs, JobId())) && i < |r.jobs| && k < |r.jobs| && r.jobs[i].id == r.jobs[k].id
    ensures i == k
  {
    var ids := Map(r.jobs, JobId());
    assert ids[i] == ids[k];
  }

  /** Every job credited is a programme job settled in the day's window, on exactly one path and to its own miner. */
  lemma {:induction false} CreditedJob(r: Ranking, mid: string, id: string) returns (i: nat)
    requires Made(r) && id in CreditedTo(r, mid)
    ensures i < |r.jobs| && r.jobs[i].id == id && r.jobs[i].minerId == mid &&
            Programme(r, CountedWindow(r).value, r.jobs[i])
    ensures id in PaidTo(r, mid) <==> FinalPositive(r.jobs[i])
    ensures id in UnwoundTo(r, mid) <==> id !in PaidTo(r, mid)
  {
    hide FinalPositive, JobUnwound, CountedWindow, Pays, Programme;
    var w := CountedWindow(r).value;
    if id in PaidTo(r, mid) {
      i :| i in WorkAt(r, w, mid, |r.jobs|) && r.jobs[i].id == id;
      PathsApart(r.jobs[i]);
      if id in UnwoundTo(r, mid) {
        var k := UnwoundMeaning(r, w, |r.jobs|, id);
        SameId(r, i, k);
      }
    } else {
      i := UnwoundMeaning(r, w, |r.jobs|, id);
      PathsApart(r.jobs[i]);
    }
  }

  lemma {:induction false} PlacesAreJobs(r: Ranking, places: set<nat>)
    requires Distinct(Map(r.jobs, JobId())) && forall i | i in places :: i < |r.jobs|
    ensures |set i | i in places :: r.jobs[i].id| == |places|
  {
    if places != {} {
      var k :| k in places;
      var rest := places - {k};
      PlacesAreJobs(r, rest);
      var ids := set i | i in rest :: r.jobs[i].id;
      forall i | i in rest ensures r.jobs[i].id != r.jobs[k].id {
        if r.jobs[i].id == r.jobs[k].id { SameId(r, i, k); }
      }
      assert (set i | i in places :: r.jobs[i].id) == ids + {r.jobs[k].id};
    }
  }

  /** What the two operations count together for an identity is the number of jobs credited to it. */
  lemma {:induction false} CreditsCounted(r: Ranking, mid: string, work: map<string, nat>, paid: map<string, nat>)
    requires Made(r) && WorkCounted(r, CountedWindow(r).value, |r.jobs|, work)
    requires Get(paid, mid, 0) == |UnwoundTo(r, mid)|
    ensures Get(work, mid, 0) + Get(paid, mid, 0) == |CreditedTo(r, mid)|
  {
    hide CountedWindow, Works, UnwoundIn;
    PlacesAreJobs(r, WorkAt(r, CountedWindow(r).value, mid, |r.jobs|));
    assert PaidTo(r, mid) !! UnwoundTo(r, mid) by {
      forall id | id in CreditedTo(r, mid) ensures !(id in PaidTo(r, mid) && id in UnwoundTo(r, mid)) {
        var i := CreditedJob(r, mid, id);
      }
    }
  }

  /** Two rankings of one season: the same first block and day length, one settlement per job, one ranking per day. */
  ghost predicate SameSeason(r: Ranking, s: Ranking) {
    && r.start == s.start && r.rules.dayBlocks == s.rules.dayBlocks
    && (forall id | id in r.settle && id in s.settle :: r.settle[id] == s.settle[id])
    && (r.day == s.day ==> r == s)
  }

  /** Main result: a job credited twice was credited once: by the same ranking, to the same identity. */
  lemma {:induction false} CreditedOnce(r: Ranking, s: Ranking, mid: string, nid: string, id: string)
    requires Made(r) && Made(s) && SameSeason(r, s)
    requires id in CreditedTo(r, mid) && id in CreditedTo(s, nid)
    ensures r == s && mid == nid
  {
    var i := CreditedJob(r, mid, id);
    var k := CreditedJob(s, nid, id);
    hide CreditedTo, FinalPositive;
    WindowsApart(r.day, s.day, r.start, r.rules.dayBlocks, r.settle[id]);
    SameId(r, i, k);
  }

  // ---------------------------------------------------------------- a season of rankings

  /** Who was credited on which ranking. */
  datatype Credit = Credit(ranking: Ranking, mid: string)

  ghost predicate OneSeason(cs: seq<Credit>) {
    && Distinct(cs) && (forall i | 0 <= i < |cs| :: Made(cs[i].ranking))
    && (forall i, j | 0 <= i < |cs| && 0 <= j < |cs| :: SameSeason(cs[i].ranking, cs[j].ranking))
  }

  ghost function Requests(cs: seq<Credit>): nat
    requires OneSeason(cs)
  {
    if cs == [] then 0
    else
      var c := cs[|cs| - 1];
      Requests(cs[..|cs| - 1]) + |CreditedTo(c.ranking, c.mid)|
  }

  ghost function JobsCredited(cs: seq<Credit>): set<string>
    requires OneSeason(cs)
  {
    set i, id | 0 <= i < |cs| && id in CreditedTo(cs[i].ranking, cs[i].mid) :: id
  }

  /** Main result: over any days and identities of a season, the verified requests counted are as many as the jobs they
      are counted for: no job adds two. */
  lemma {:induction false} EachJobPaidOnce(cs: seq<Credit>)
    requires OneSeason(cs)
    ensures Requests(cs) == |JobsCredited(cs)|
  {
    hide CreditedTo, Made, SameSeason;
    if cs != [] {
      var pre, c := cs[..|cs| - 1], cs[|cs| - 1];
      EachJobPaidOnce(pre);
      var last := CreditedTo(c.ranking, c.mid);
      JobsNext(cs);
      hide JobsCredited;
      assert JobsCredited(pre) !! last;
    }
  }

  /** The last credit adds its own jobs, none of which was credited before. */
  lemma {:induction false} JobsNext(cs: seq<Credit>)
    requires OneSeason(cs) && cs != []
    ensures var pre, c := cs[..|cs| - 1], cs[|cs| - 1];
            && JobsCredited(cs) == JobsCredited(pre) + CreditedTo(c.ranking, c.mid)
            && JobsCredited(pre) !! CreditedTo(c.ranking, c.mid)
  {
    hide CreditedTo, Made, SameSeason;
    var pre, c := cs[..|cs| - 1], cs[|cs| - 1];
    forall id | id in JobsCredited(pre) ensures id !in CreditedTo(c.ranking, c.mid) {
      var i :| 0 <= i < |pre| && id in CreditedTo(pre[i].ranking, pre[i].mid);
      if id in CreditedTo(c.ranking, c.mid) { CreditedOnce(pre[i].ranking, c.ranking, pre[i].mid, c.mid, id); }
    }
  }

  // ---------------------------------------------------------------- what is counted, said on heights and states

  /** The first block of the ranking's day. */
  function FirstBlock(r: Ranking): int { r.start + r.day * r.rules.dayBlocks }

  /** The day is counted: its last counted block lies in it and is final. */
  predicate DayIsFinal(r: Ranking) {
    && FirstBlock(r) <= r.last <= FirstBlock(r) + r.rules.dayBlocks - 1
    && r.current >= r.last + r.finality
  }

  /** A job of the programme settled from the day's first block to its last counted one. */
  predicate SettledInDay(r: Ranking, j: Job) {
    j.client == r.generator && j.id in r.settle && FirstBlock(r) <= r.settle[j.id] <= r.last
  }

  lemma {:induction false} WindowMeans(r: Ranking)
    ensures CountedWindow(r).Ok? <==> DayIsFinal(r)
    ensures DayIsFinal(r) ==> forall j :: Programme(r, CountedWindow(r).value, j) <==> SettledInDay(r, j)
  {
  }

  /** What a verified request is: a job of the programme settled in the day, answered, of a named miner, and paid for
      good. */
  lemma {:induction false} WorkMeans(r: Ranking, j: Job)
    requires DayIsFinal(r)
    ensures CountedWindow(r).Ok?
    ensures Works(r, CountedWindow(r).value, j) <==>
              SettledInDay(r, j) && PaidForGood(j) && j.id in r.answered && j.minerId != ""
  {
    WindowMeans(r);
    FinalPositiveMeans(j);
    hide PaidForGood, FinalPositive, CountedWindow;
  }

  /** What a counted verdict is: on a job of the programme settled in the day whose audit concluded, by another than its
      miner, "0" when the miner was convicted and "1" when it was not. */
  lemma {:induction false} VerdictMeans(r: Ranking, j: Job, juror: string)
    requires DayIsFinal(r)
    ensures CountedWindow(r).Ok?
    ensures Agrees(r, CountedWindow(r).value, j, juror) <==>
              && SettledInDay(r, j) && Concluded(j) && juror != j.minerId && juror in VotesOn(r, j)
              && VotesOn(r, j)[juror] == if SomeMarkerHolds(j.state, "clawed") || Truthy(j.slashed) then "0" else "1"
  {
    WindowMeans(r);
    OutcomeMeans(j);
    hide Concluded, SomeMarkerHolds, AuditOutcome, CountedWindow;
  }

  lemma {:induction false} DifferentIds(r: Ranking, i: nat, k: nat)
    requires Distinct(Map(r.jobs, JobId())) && i < k < |r.jobs|
    ensures r.jobs[i].id != r.jobs[k].id
  {
    var ids := Map(r.jobs, JobId());
    assert ids[i] != ids[k];
  }

  /** The dictionary holds every unwound job of the window, as the chain says it. */
  lemma {:induction false} UnwoundHeld(r: Ranking, w: Window, n: nat, i: nat, why: Why)
    requires i < n <= |r.jobs| && Distinct(Map(r.jobs, JobId())) && UnwoundUpto(r, w, n).Ok?
    requires Programme(r, w, r.jobs[i]) && JobUnwound(r.jobs[i]) == Ok(Some(why))
    ensures r.jobs[i].id in UnwoundUpto(r, w, n).value
    ensures UnwoundUpto(r, w, n).value[r.jobs[i].id] == Unwound(r.jobs[i].minerId, why)
  {
    hide JobUnwound, Programme;
    if i < n - 1 {
      UnwoundHeld(r, w, n - 1, i, why);
      DifferentIds(r, i, n - 1);
    }
  }

  /** The slash of the job cannot be told: it was not read, or it is neither true nor false with nothing clawed back. */
  ghost predicate SlashUnknown(j: Job) {
    && IsMarker(j.state, "unwound")
    && (j.slashed.Absent? || (j.slashed.Other? && !IsMarker(j.state, "clawed")))
  }

  lemma {:induction false} UnwoundUptoRefused(r: Ranking, w: Window, n: nat)
    requires n <= |r.jobs|
    ensures UnwoundUpto(r, w, n).Refused? <==>
              exists i | 0 <= i < n :: Programme(r, w, r.jobs[i]) && SlashUnknown(r.jobs[i])
  {
    if n > 0 {
      UnwoundUptoRefused(r, w, n - 1);
      JobUnwoundMeans(r.jobs[n - 1]);
      hide JobUnwound, Programme, SlashUnknown, IsMarker, UnwoundClear;
    }
  }

  /** Main result: the unwound jobs of a day are refused exactly while the day is not final, or when the slash of one of
      its unwound programme jobs cannot be told. */
  lemma {:induction false} UnwoundRefusedExactly(r: Ranking)
    ensures UnwoundIn(r).Refused? <==>
              !DayIsFinal(r) || exists i | 0 <= i < |r.jobs| :: SettledInDay(r, r.jobs[i]) && SlashUnknown(r.jobs[i])
  {
    WindowMeans(r);
    hide Programme, SettledInDay, SlashUnknown, CountedWindow, DayIsFinal;
    if DayIsFinal(r) { UnwoundUptoRefused(r, CountedWindow(r).value, |r.jobs|); }
  }

  /** A job the unwound path credits. */
  ghost predicate UnwoundCredit(r: Ranking, j: Job) {
    r.rules.paysUnwoundWork && UnwoundClear(j) && EvidencePays(r.lines, j.id, j.minerId, r.day)
  }

  lemma {:induction false} UnwoundCreditExactly(r: Ranking, i: nat, mid: string)
    requires Made(r) && i < |r.jobs|
    ensures r.jobs[i].id in UnwoundTo(r, mid) <==>
              r.jobs[i].minerId == mid && SettledInDay(r, r.jobs[i]) && UnwoundCredit(r, r.jobs[i])
  {
    hide CountedWindow, JobUnwound, Pays, UnwoundClear, EvidencePays, SettledInDay, Programme;
    var j, w, m := r.jobs[i], CountedWindow(r).value, UnwoundIn(r).value;
    WindowMeans(r);
    JobUnwoundMeans(j);
    if j.id in m {
      var k := UnwoundMeaning(r, w, |r.jobs|, j.id);
      SameId(r, i, k);
      PaysExactly(r.lines, j.id, m[j.id], r.day);
    }
    if SettledInDay(r, j) && UnwoundClear(j) {
      UnwoundHeld(r, w, |r.jobs|, i, Clear);
    }
  }

  lemma {:induction false} PaidExactly(r: Ranking, i: nat, mid: string)
    requires Made(r) && i < |r.jobs|
    ensures r.jobs[i].id in PaidTo(r, mid) <==>
              && r.jobs[i].minerId == mid && mid != "" && SettledInDay(r, r.jobs[i]) && PaidForGood(r.jobs[i])
              && Sealed(r.lines, r.jobs[i].id)
  {
    hide CountedWindow, PaidForGood, FinalPositive, Works, SettledInDay;
    var j, w := r.jobs[i], CountedWindow(r).value;
    WindowMeans(r);
    WorkMeans(r, j);
    FirstSealMeans(r.lines, j.id);
    if j.id in PaidTo(r, mid) {
      var k :| k in WorkAt(r, w, mid, |r.jobs|) && r.jobs[k].id == j.id;
      SameId(r, i, k);
    }
    if Works(r, w, j) && j.minerId == mid { assert i in WorkAt(r, w, mid, |r.jobs|); }
  }

  /** Main result: exactly which jobs are credited to an identity, said on heights, states, slashes and evidence: its
      own jobs of the programme settled in the day, whose answer a seal lists, paid for good or unwound with nothing
      against them and paid by the evidence. */
  lemma {:induction false} CreditedExactly(r: Ranking, i: nat, mid: string)
    requires Made(r) && i < |r.jobs|
    ensures var j := r.jobs[i];
            j.id in CreditedTo(r, mid) <==>
              && j.minerId == mid && mid != "" && SettledInDay(r, j)
              && ((PaidForGood(j) && Sealed(r.lines, j.id)) || UnwoundCredit(r, j))
  {
    PaidExactly(r, i, mid);
    UnwoundCreditExactly(r, i, mid);
    hide PaidTo, UnwoundTo, PaidForGood, Sealed, SettledInDay, EvidencePays, IsMarker;
  }

  /** Main result: a convicted miner is never credited: a credited job has no slash and nothing clawed back. */
  lemma {:induction false} ConvictedIsNeverCredited(r: Ranking, i: nat, mid: string)
    requires Made(r) && i < |r.jobs| && r.jobs[i].id in CreditedTo(r, mid)
    ensures !Truthy(r.jobs[i].slashed) && !IsMarker(r.jobs[i].state, "clawed")
    ensures r.jobs[i].id in UnwoundTo(r, mid) ==> r.jobs[i].slashed.NotSlashed?
  {
    hide CreditedTo, UnwoundTo, EvidencePays, Sealed, PaidForGood, UnwoundClear, SettledInDay, Made, IsMarker;
    CreditedExactly(r, i, mid);
    UnwoundCreditExactly(r, i, mid);
    NotConvicted(r.jobs[i]);
  }

  lemma {:induction false} NotConvicted(j: Job)
    requires PaidForGood(j) || UnwoundClear(j)
    ensures !Truthy(j.slashed) && !IsMarker(j.state, "clawed")
    ensures UnwoundClear(j) ==> j.slashed.NotSlashed?
  {
    SplitFindsMarkers(j.state, "clawed");
    WholeHolds("clawed");
    hide Split, Contains;
  }
}
