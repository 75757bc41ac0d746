/** The exact conditions under which evidence that went missing pays an unwound job: which jobs a marked loss exposes,
    which filing of grades protects every job, and which records may be lost without a mark. */
module Exposure {
  import opened Evidence
  import opened UnwoundWork
  import opened Damage

  // ---------------------------------------------------------------- the first seal, file by file

  predicate Seals(d: DayLog, job: string) { exists r | r in d.recs :: r.WorkSealed? && job in r.answered }

  lemma {:induction false} SealedOnAppend(a: Lines, b: Lines, job: string)
    ensures job in SealedOn(a + b) <==> job in SealedOn(a) || job in SealedOn(b)
    ensures job in SealedOn(a + b) ==>
            SealedOn(a + b)[job] == if job in SealedOn(a) then SealedOn(a)[job] else SealedOn(b)[job]
  {
    if b == [] {
      assert a + b == a;
    } else {
      var pre, l := b[..|b| - 1], b[|b| - 1];
      assert (a + b)[..|a + b| - 1] == a + pre;
      SealedOnAppend(a, pre, job);
      if IsSeal(l) {
        WithSealMeaning(SealedOn(a + pre), l.rec.answered, l.rec.day, job);
        WithSealMeaning(SealedOn(pre), l.rec.answered, l.rec.day, job);
      }
    }
  }

  /** One file seals the job for its own day, or not at all. */
  lemma {:induction false} FileSeals(d: DayLog, job: string)
    requires forall r | r in d.recs :: r.day == d.day
    ensures var m := SealedOn(ReadBack(d.day, d.recs, d.bad));
            (job in m <==> Seals(d, job)) && (job in m ==> m[job] == d.day)
  {
    var lines := ReadBack(d.day, d.recs, d.bad);
    SealedOnMeaning(lines, job);
    forall l ensures l in lines <==> LogHolds(d, l) { ReadBackHolds(d, l); }
    hide ReadBack, SealedOn;
    if Seals(d, job) {
      var r :| r in d.recs && r.WorkSealed? && job in r.answered;
      assert Known(r) in lines;
    }
  }

  /** The job is sealed for the day of the first file that seals it. */
  lemma {:induction false} FirstSeal(logs: seq<DayLog>, job: string, i: nat)
    requires Filed(logs) && i < |logs| && Seals(logs[i], job) && forall k | 0 <= k < i :: !Seals(logs[k], job)
    ensures job in SealedOn(AllLines(logs)) && SealedOn(AllLines(logs))[job] == logs[i].day
  {
    var n := |logs| - 1;
    var pre, d := logs[..n], logs[n];
    hide Seals, SealedOn, ReadBack;
    SealedOnAppend(AllLines(pre), ReadBack(d.day, d.recs, d.bad), job);
    FileSeals(d, job);
    if i < n { FirstSeal(pre, job, i); } else { NoSeal(pre, job); }
  }

  lemma {:induction false} NoSeal(logs: seq<DayLog>, job: string)
    requires Filed(logs) && forall k | 0 <= k < |logs| :: !Seals(logs[k], job)
    ensures job !in SealedOn(AllLines(logs))
  {
    if logs != [] {
      var n := |logs| - 1;
      var pre, d := logs[..n], logs[n];
      hide Seals, SealedOn, ReadBack;
      SealedOnAppend(AllLines(pre), ReadBack(d.day, d.recs, d.bad), job);
      FileSeals(d, job);
      NoSeal(pre, job);
    }
  }

  lemma {:induction false} LeastSeal(logs: seq<DayLog>, job: string, n: nat) returns (i: nat)
    requires n < |logs| && Seals(logs[n], job)
    ensures i <= n && Seals(logs[i], job) && forall k | 0 <= k < i :: !Seals(logs[k], job)
  {
    if k: nat :| k < n && Seals(logs[k], job) { i := LeastSeal(logs, job, k); } else { i := n; }
  }

  // ---------------------------------------------------------------- hiding chosen records

  function Kept(recs: seq<Record>, drop: Record -> bool): seq<Record> {
    if recs == [] then []
    else
      var r := recs[|recs| - 1];
      Kept(recs[..|recs| - 1], drop) + if drop(r) then [] else [r]
  }

  lemma {:induction false} KeptHolds(recs: seq<Record>, drop: Record -> bool, r: Record)
    ensures r in Kept(recs, drop) <==> r in recs && !drop(r)
  {
    if recs != [] {
      KeptHolds(recs[..|recs| - 1], drop, r);
      assert forall x :: x in recs <==> x in recs[..|recs| - 1] || x == recs[|recs| - 1];
    }
  }

  /** The file with the records `drop` names behind the marker, when its day is among `days`. */
  function Marked(d: DayLog, days: set<int>, drop: Record -> bool): DayLog {
    if d.day in days then DayLog(d.day, Kept(d.recs, drop), if d.bad == 0 then 1 else d.bad) else d
  }

  function AllMarked(logs: seq<DayLog>, days: set<int>, drop: Record -> bool): (r: seq<DayLog>)
    ensures |r| == |logs| && forall i | 0 <= i < |logs| :: r[i] == Marked(logs[i], days, drop)
  {
    if logs == [] then [] else AllMarked(logs[..|logs| - 1], days, drop) + [Marked(logs[|logs| - 1], days, drop)]
  }

  lemma {:induction false} MarkedHides(d: DayLog, days: set<int>, drop: Record -> bool)
    ensures Hides(d, Marked(d, days, drop))
  {
    forall r | r in Kept(d.recs, drop) ensures r in d.recs { KeptHolds(d.recs, drop, r); }
  }

  lemma {:induction false} MarkingHides(logs: seq<DayLog>, days: set<int>, drop: Record -> bool)
    requires Filed(logs)
    ensures AllHide(logs, AllMarked(logs, days, drop)) && Filed(AllMarked(logs, days, drop))
    ensures forall r :: Known(r) in AllLines(AllMarked(logs, days, drop)) <==>
              Known(r) in AllLines(logs) && !(r.day in days && drop(r))
  {
    var hidden := AllMarked(logs, days, drop);
    forall i, r | 0 <= i < |logs|
      ensures r in hidden[i].recs <==> r in logs[i].recs && !(logs[i].day in days && drop(r))
    {
      KeptHolds(logs[i].recs, drop, r);
    }
    forall i | 0 <= i < |logs| ensures Hides(logs[i], hidden[i]) { MarkedHides(logs[i], days, drop); }
    forall r
      ensures Known(r) in AllLines(hidden) <==> Known(r) in AllLines(logs) && !(r.day in days && drop(r))
    {
      RecordsRead(logs, r);
      RecordsRead(hidden, r);
      if i :| 0 <= i < |logs| && r in logs[i].recs && !(r.day in days && drop(r)) { assert r in hidden[i].recs; }
    }
  }

  function Days(logs: seq<DayLog>): set<int> { set i | 0 <= i < |logs| :: logs[i].day }

  lemma {:induction false} MarkingMarks(logs: seq<DayLog>, days: set<int>, drop: Record -> bool)
    requires TornDays(AllLines(logs)) <= days <= Days(logs)
    ensures TornDays(AllLines(AllMarked(logs, days, drop))) == days
  {
    var hidden := AllMarked(logs, days, drop);
    TornAre(logs);
    TornAre(hidden);
    hide AllLines, TornDays, Kept, AllMarked;
    assert forall i | 0 <= i < |logs| ::
             hidden[i].day == logs[i].day && (hidden[i].bad > 0 <==> logs[i].bad > 0 || logs[i].day in days);
    hide Marked;
    forall t | t in days ensures t in BadDays(hidden) {
      var i :| 0 <= i < |logs| && logs[i].day == t;
      assert hidden[i].bad > 0 && hidden[i].day == t;
    }
    forall t | t in BadDays(hidden) ensures t in days {
      var i :| 0 <= i < |hidden| && hidden[i].bad > 0 && hidden[i].day == t;
      assert logs[i].bad > 0 ==> logs[i].day in BadDays(logs);
    }
  }

  // ---------------------------------------------------------------- which jobs a marked loss exposes

  /** The days that must be marked for the seal of file `i` to be the first one read and for no grade of the job itself
      to be read: those marked already, those of its own grades and those of its earlier seals. */
  function MustMark(logs: seq<DayLog>, job: string, mid: string, i: nat): set<int>
    requires i <= |logs|
  {
    var ls := AllLines(logs);
    TornDays(ls) + (set g | g in OwnGrades(GradesIn(ls), job, mid) :: g.day)
    + (set k | 0 <= k < i && Seals(logs[k], job) :: logs[k].day)
  }

  predicate ExposedAt(logs: seq<DayLog>, job: string, mid: string, day: int, i: nat)
    requires i < |logs|
  {
    var marked := MustMark(logs, job, mid, i);
    Seals(logs[i], job) && logs[i].day !in marked && DayPays(AllLines(logs), day, mid, marked)
  }

  /** Some seal's day stays unmarked when they are, and the miner's day then pays. */
  predicate Exposed(logs: seq<DayLog>, job: string, u: Unwound, day: int) {
    u.state.Clear? && exists i | 0 <= i < |logs| :: ExposedAt(logs, job, u.minerId, day, i)
  }

  /** Damage that pays the job shows where it is exposed. */
  lemma {:induction false} PaidIsExposed(logs: seq<DayLog>, hidden: seq<DayLog>, job: string, u: Unwound, day: int)
    requires Filed(logs) && AllHide(logs, hidden)
    requires Pays(AllLines(hidden), job, u, day) && !Pays(AllLines(logs), job, u, day)
    ensures Exposed(logs, job, u, day)
  {
    var ls, hs, mid := AllLines(logs), AllLines(hidden), u.minerId;
    HidingIsLoss(logs, hidden);
    LossIsDamage(logs, hidden);
    if OwnGrades(GradesIn(hs), job, mid) != {} { OwnPaidBefore(ls, hs, job, u, day); }
    UngradedPays(hs, job, u, day);
    var i := FirstLeft(logs, hidden, job);
    MustBeMarked(logs, hidden, job, mid, i);
    DayPaidBefore(ls, hs, day, mid);
    hide DayPays, MustMark, Seals, AllLines, Damaged, Pays, AllHide, TornDays;
    assert ExposedAt(logs, job, mid, day, i);
  }

  /** A job paid on its own grades after damage was paid before. */
  lemma {:induction false} OwnPaidBefore(ls: Lines, hs: Lines, job: string, u: Unwound, day: int)
    requires Damaged(ls, hs) && Pays(hs, job, u, day) && OwnGrades(GradesIn(hs), job, u.minerId) != {}
    ensures Pays(ls, job, u, day)
  {
    DamageHidesFacts(ls, hs);
    var g :| g in OwnGrades(GradesIn(hs), job, u.minerId) && g.coherent;
    assert g in OwnGrades(GradesIn(ls), job, u.minerId);
  }

  /** The first seal that damage left to be read. */
  lemma {:induction false} FirstLeft(logs: seq<DayLog>, hidden: seq<DayLog>, job: string) returns (i: nat)
    requires Filed(logs) && AllHide(logs, hidden) && job in SealedOn(AllLines(hidden))
    ensures i < |logs| && Seals(logs[i], job) && logs[i].day == SealedOn(AllLines(hidden))[job]
    ensures forall k | 0 <= k < i :: !Seals(hidden[k], job)
  {
    assert Filed(hidden) by {
      forall k, r | 0 <= k < |hidden| && r in hidden[k].recs ensures r.day == hidden[k].day {
        assert Hides(logs[k], hidden[k]);
      }
    }
    hide SealedOn, AllLines;
    if forall k | 0 <= k < |hidden| :: !Seals(hidden[k], job) { NoSeal(hidden, job); }
    var n :| 0 <= n < |hidden| && Seals(hidden[n], job);
    i := LeastSeal(hidden, job, n);
    FirstSeal(hidden, job, i);
    assert Hides(logs[i], hidden[i]);
  }

  /** What damage took is marked. */
  lemma {:induction false} TakenIsMarked(logs: seq<DayLog>, hidden: seq<DayLog>, k: nat)
    requires AllHide(logs, hidden) && k < |logs| && logs[k] != hidden[k]
    ensures logs[k].day in TornDays(AllLines(hidden))
  {
    TornAre(hidden);
    assert Hides(logs[k], hidden[k]);
  }

  lemma {:induction false} OwnRead(logs: seq<DayLog>, job: string, mid: string, k: nat, r: Record)
    requires k < |logs| && r in logs[k].recs && r.WorkGrade? && r.jobId == job && r.minerId == mid
    ensures OwnGrades(GradesIn(AllLines(logs)), job, mid) != {}
  {
    RecordsRead(logs, r);
    assert IsGrade(Known(r));
    assert Grade(r.day, job, mid, r.coherent) in OwnGrades(GradesIn(AllLines(logs)), job, mid);
  }

  lemma {:induction false} OwnTaken(logs: seq<DayLog>, hidden: seq<DayLog>, job: string, mid: string, g: Grade)
    requires Filed(logs) && AllHide(logs, hidden) && OwnGrades(GradesIn(AllLines(hidden)), job, mid) == {}
    requires g in OwnGrades(GradesIn(AllLines(logs)), job, mid)
    ensures g.day in TornDays(AllLines(hidden))
  {
    var ls := AllLines(logs);
    var l :| l in ls && IsGrade(l) && g == Grade(l.rec.day, l.rec.jobId, l.rec.minerId, l.rec.coherent);
    RecordsRead(logs, l.rec);
    hide TornDays, AllLines, GradesIn;
    var k :| 0 <= k < |logs| && l.rec in logs[k].recs;
    if logs[k] == hidden[k] { OwnRead(hidden, job, mid, k, l.rec); } else { TakenIsMarked(logs, hidden, k); }
  }

  lemma {:induction false} MustBeMarked(logs: seq<DayLog>, hidden: seq<DayLog>, job: string, mid: string, i: nat)
    requires Filed(logs) && AllHide(logs, hidden) && i <= |logs|
    requires OwnGrades(GradesIn(AllLines(hidden)), job, mid) == {} && forall k | 0 <= k < i :: !Seals(hidden[k], job)
    ensures MustMark(logs, job, mid, i) <= TornDays(AllLines(hidden))
  {
    HidingIsLoss(logs, hidden);
    LossIsDamage(logs, hidden);
    hide TornDays, Seals, AllLines, GradesIn, OwnGrades, AllHide, Filed;
    forall g | g in OwnGrades(GradesIn(AllLines(logs)), job, mid) ensures g.day in TornDays(AllLines(hidden)) {
      OwnTaken(logs, hidden, job, mid, g);
    }
    forall k | 0 <= k < i && Seals(logs[k], job) ensures logs[k].day in TornDays(AllLines(hidden)) {
      TakenIsMarked(logs, hidden, k);
    }
  }

  /** The job's own grades and its seals: what has to go for its day to decide. */
  function About(job: string, mid: string): Record -> bool {
    (r: Record) => (r.WorkGrade? && r.jobId == job && r.minerId == mid) || (r.WorkSealed? && job in r.answered)
  }

  lemma {:induction false} MustMarkDays(logs: seq<DayLog>, job: string, mid: string, i: nat)
    requires Filed(logs) && i <= |logs|
    ensures TornDays(AllLines(logs)) <= MustMark(logs, job, mid, i) <= Days(logs)
  {
    var ls := AllLines(logs);
    TornAre(logs);
    forall g | g in OwnGrades(GradesIn(ls), job, mid) ensures g.day in Days(logs) {
      var l :| l in ls && IsGrade(l) && g == Grade(l.rec.day, l.rec.jobId, l.rec.minerId, l.rec.coherent);
      RecordsRead(logs, l.rec);
    }
  }

  /** Marking those days and hiding what they hold of the job leaves it without grades, sealed at `i`. */
  lemma {:induction false} ExposingLeaves(logs: seq<DayLog>, job: string, mid: string, i: nat)
    requires Filed(logs) && i < |logs| && Seals(logs[i], job) && logs[i].day !in MustMark(logs, job, mid, i)
    ensures var marked := MustMark(logs, job, mid, i);
            var hs := AllLines(AllMarked(logs, marked, About(job, mid)));
            && OwnGrades(GradesIn(hs), job, mid) == {} && job in AnsweredIn(hs) && TornDays(hs) == marked
            && job in SealedOn(hs) && SealedOn(hs)[job] == logs[i].day
  {
    var marked := MustMark(logs, job, mid, i);
    var hidden := AllMarked(logs, marked, About(job, mid));
    MustMarkDays(logs, job, mid, i);
    MarkingHides(logs, marked, About(job, mid));
    MarkingMarks(logs, marked, About(job, mid));
    NoOwnRead(logs, marked, job, mid);
    assert hidden[i] == logs[i];
    forall k | 0 <= k < i ensures !Seals(hidden[k], job) { SealTaken(logs[k], marked, job, mid); }
    hide Seals, AllLines, SealedOn, TornDays, GradesIn;
    FirstSeal(hidden, job, i);
    SealedOnMeaning(AllLines(hidden), job);
  }

  lemma {:induction false} SealTaken(d: DayLog, marked: set<int>, job: string, mid: string)
    requires Seals(d, job) ==> d.day in marked
    ensures !Seals(Marked(d, marked, About(job, mid)), job)
  {
    forall r | r in d.recs { KeptHolds(d.recs, About(job, mid), r); }
    var b := Marked(d, marked, About(job, mid));
    if r :| r in b.recs && r.WorkSealed? && job in r.answered { KeptHolds(d.recs, About(job, mid), r); }
  }

  lemma {:induction false} NoOwnRead(logs: seq<DayLog>, marked: set<int>, job: string, mid: string)
    requires Filed(logs) && forall g | g in OwnGrades(GradesIn(AllLines(logs)), job, mid) :: g.day in marked
    ensures OwnGrades(GradesIn(AllLines(AllMarked(logs, marked, About(job, mid)))), job, mid) == {}
  {
    var ls, hs := AllLines(logs), AllLines(AllMarked(logs, marked, About(job, mid)));
    MarkingHides(logs, marked, About(job, mid));
    forall g | g in GradesIn(hs) ensures g !in OwnGrades(GradesIn(hs), job, mid) {
      var l :| l in hs && IsGrade(l) && g == Grade(l.rec.day, l.rec.jobId, l.rec.minerId, l.rec.coherent);
      assert Known(l.rec) in ls;
      assert g in GradesIn(ls);
    }
  }

  /** Hiding what concerns the job leaves the other grades of its miner's day. */
  lemma {:induction false} DayStillPays(logs: seq<DayLog>, job: string, mid: string, day: int, marked: set<int>)
    requires Filed(logs) && !AnyCoherent(OwnGrades(GradesIn(AllLines(logs)), job, mid))
    requires DayPays(AllLines(logs), day, mid, marked)
    ensures DayPays(AllLines(AllMarked(logs, marked, About(job, mid))), day, mid, marked)
  {
    var ls, hs := AllLines(logs), AllLines(AllMarked(logs, marked, About(job, mid)));
    MarkingHides(logs, marked, About(job, mid));
    hide AllLines, AllMarked;
    if AnyCoherent(DayGrades(GradesIn(ls), day, mid)) {
      var g :| g in DayGrades(GradesIn(ls), day, mid) && g.coherent;
      var l :| l in ls && IsGrade(l) && g == Grade(l.rec.day, l.rec.jobId, l.rec.minerId, l.rec.coherent);
      assert g.jobId != job by { assert g.jobId == job ==> g in OwnGrades(GradesIn(ls), job, mid); }
      assert Known(l.rec) in hs;
      assert g in DayGrades(GradesIn(hs), day, mid);
    } else {
      SameDay(ls, hs, day, mid);
    }
  }

  lemma {:induction false} SameDay(ls: Lines, hs: Lines, day: int, mid: string)
    requires forall r: Record | r.day == day :: Known(r) in ls <==> Known(r) in hs
    ensures DayGrades(GradesIn(hs), day, mid) == DayGrades(GradesIn(ls), day, mid)
    ensures SampledJobs(SamplesIn(hs), day, mid) == SampledJobs(SamplesIn(ls), day, mid)
  {
    assert forall l | l in ls && l.Known? && l.rec.day == day :: l == Known(l.rec) && l in hs;
    assert forall l | l in hs && l.Known? && l.rec.day == day :: l == Known(l.rec) && l in ls;
    assert forall s: Sample | s.day == day :: s in SamplesIn(ls) <==> s in SamplesIn(hs);
    assert forall g: Grade | g.day == day :: g in GradesIn(ls) <==> g in GradesIn(hs);
  }

  /** An exposed job is paid by some damage. */
  lemma {:induction false} ExposedIsPaid(logs: seq<DayLog>, job: string, u: Unwound, day: int, i: nat)
    requires Filed(logs) && i < |logs| && u.state.Clear? && ExposedAt(logs, job, u.minerId, day, i)
    requires !Pays(AllLines(logs), job, u, day)
    ensures exists hidden :: AllHide(logs, hidden) && Pays(AllLines(hidden), job, u, day)
  {
    var mid := u.minerId;
    var marked := MustMark(logs, job, mid, i);
    var hidden := AllMarked(logs, marked, About(job, mid));
    MarkingHides(logs, marked, About(job, mid));
    ExposingLeaves(logs, job, mid, i);
    NoCoherentOwn(logs, job, u, day, i);
    DayStillPays(logs, job, mid, day, marked);
    hide AllLines, AllMarked, MustMark, DayPays, Seals, Filed;
    UngradedPays(AllLines(hidden), job, u, day);
  }

  /** A sealed job with a coherent grade of its own is paid. */
  lemma {:induction false} NoCoherentOwn(logs: seq<DayLog>, job: string, u: Unwound, day: int, i: nat)
    requires Filed(logs) && i < |logs| && u.state.Clear? && Seals(logs[i], job) && !Pays(AllLines(logs), job, u, day)
    ensures !AnyCoherent(OwnGrades(GradesIn(AllLines(logs)), job, u.minerId))
  {
    var r :| r in logs[i].recs && r.WorkSealed? && job in r.answered;
    RecordsRead(logs, r);
    assert job in AnsweredIn(AllLines(logs)) by { assert IsSeal(Known(r)); }
  }

  /** Main result: a job the whole evidence leaves unpaid is paid by some damage if and only if it is exposed: some
      seal's day stays unmarked once the days of its own grades and of its earlier seals are marked, and its miner's day
      then pays. */
  lemma {:induction false} PaidByDamageExactlyWhen(logs: seq<DayLog>, job: string, u: Unwound, day: int)
    requires Filed(logs) && !Pays(AllLines(logs), job, u, day)
    ensures (exists hidden :: AllHide(logs, hidden) && Pays(AllLines(hidden), job, u, day)) <==>
            Exposed(logs, job, u, day)
  {
    hide Pays, AllHide, AllLines, ExposedAt, Filed;
    if hidden :| AllHide(logs, hidden) && Pays(AllLines(hidden), job, u, day) {
      PaidIsExposed(logs, hidden, job, u, day);
    }
    if Exposed(logs, job, u, day) {
      var i :| 0 <= i < |logs| && ExposedAt(logs, job, u.minerId, day, i);
      ExposedIsPaid(logs, job, u, day, i);
    }
  }

  // ---------------------------------------------------------------- which filing protects every job

  /** The seals of the job are of day `s` and its own grades of day `g`. */
  ghost predicate FiledOn(ls: Lines, job: string, mid: string, s: int, g: int) {
    && (forall l | l in ls && IsSeal(l) && job in l.rec.answered :: l.rec.day == s)
    && (forall l | l in ls && IsGrade(l) && l.rec.jobId == job && l.rec.minerId == mid :: l.rec.day == g)
  }

  /** No damage pays a job filed that way when the whole evidence leaves it unpaid. */
  ghost predicate FilingProtects(s: int, g: int) {
    forall logs: seq<DayLog>, hidden: seq<DayLog>, job: string, u: Unwound, day: int |
      Filed(logs) && AllHide(logs, hidden) && FiledOn(AllLines(logs), job, u.minerId, s, g)
      && Pays(AllLines(hidden), job, u, day) :: Pays(AllLines(logs), job, u, day)
  }

  /** The evidence that shows it for two days: the seal and another answer's coherent grade on one, the job's own
      incoherent grade on the other. */
  function Misfiled(job: string, mid: string, s: int, g: int): seq<DayLog> {
    [DayLog(s, [WorkSealed(s, [job]), WorkGrade(s, mid, job + "'", "", true)], 0),
     DayLog(g, [WorkGrade(g, mid, job, "", false)], 0)]
  }

  lemma {:induction false} MisfiledLines(job: string, mid: string, s: int, g: int, r: Record)
    ensures Filed(Misfiled(job, mid, s, g))
    ensures Known(r) in AllLines(Misfiled(job, mid, s, g)) <==>
              r in [WorkSealed(s, [job]), WorkGrade(s, mid, job + "'", "", true), WorkGrade(g, mid, job, "", false)]
    ensures TornDays(AllLines(Misfiled(job, mid, s, g))) == {}
  {
    var logs := Misfiled(job, mid, s, g);
    RecordsRead(logs, r);
    TornAre(logs);
    hide AllLines, TornDays;
    assert r in logs[0].recs || r in logs[1].recs <==>
             r in [WorkSealed(s, [job]), WorkGrade(s, mid, job + "'", "", true), WorkGrade(g, mid, job, "", false)];
  }

  lemma {:induction false} MisfiledFacts(job: string, mid: string, s: int, g: int)
    ensures var ls := AllLines(Misfiled(job, mid, s, g));
            && OwnGrades(GradesIn(ls), job, mid) == {Grade(g, job, mid, false)}
            && Grade(s, job + "'", mid, true) in DayGrades(GradesIn(ls), s, mid)
            && FiledOn(ls, job, mid, s, g) && Filed(Misfiled(job, mid, s, g)) && TornDays(ls) == {}
  {
    var logs := Misfiled(job, mid, s, g);
    var ls := AllLines(logs);
    forall r: Record { MisfiledLines(job, mid, s, g, r); }
    hide AllLines, Misfiled, TornDays;
    var other, own := WorkGrade(s, mid, job + "'", "", true), WorkGrade(g, mid, job, "", false);
    assert Known(own) in ls && IsGrade(Known(own));
    assert Known(other) in ls && IsGrade(Known(other));
    assert |job + "'"| != |job|;
    forall l | l in ls && l.Known? ensures l.rec in [WorkSealed(s, [job]), other, own] { assert l == Known(l.rec); }
  }

  /** A grade filed under another day than its job's seal can be hidden without a mark where it is looked for. */
  lemma {:induction false} MisfiledGradePays(job: string, mid: string, s: int, g: int)
    requires s != g
    ensures var logs, u := Misfiled(job, mid, s, g), Unwound(mid, Clear);
            && Filed(logs) && FiledOn(AllLines(logs), job, mid, s, g) && !Pays(AllLines(logs), job, u, s)
            && exists hidden :: AllHide(logs, hidden) && Pays(AllLines(hidden), job, u, s)
  {
    var logs, u := Misfiled(job, mid, s, g), Unwound(mid, Clear);
    MisfiledFacts(job, mid, s, g);
    assert !Pays(AllLines(logs), job, u, s);
    assert Seals(logs[0], job) by { assert logs[0].recs[0] in logs[0].recs && [job][0] in logs[0].recs[0].answered; }
    hide AllLines, Pays, GradesIn, Filed;
    assert MustMark(logs, job, mid, 0) == {g};
    assert ExposedAt(logs, job, mid, s, 0);
    PaidByDamageExactlyWhen(logs, job, u, s);
  }

  /** Main result: filing the grades of a job under one day and its seals under another protects it from every damage if
      and only if the two days are one. */
  lemma {:induction false} FilingProtectsExactlyWhen(s: int, g: int)
    ensures FilingProtects(s, g) <==> s == g
  {
    if s == g {
      forall logs: seq<DayLog>, hidden: seq<DayLog>, job: string, u: Unwound, day: int |
        Filed(logs) && AllHide(logs, hidden) && FiledOn(AllLines(logs), job, u.minerId, s, g)
        && Pays(AllLines(hidden), job, u, day)
        ensures Pays(AllLines(logs), job, u, day)
      {
        HidingIsLoss(logs, hidden);
        LossIsDamage(logs, hidden);
        DamageNeverPays(AllLines(logs), AllLines(hidden), job, u, day);
      }
    } else {
      MisfiledGradePays("j", "m", s, g);
    }
  }

  // ---------------------------------------------------------------- which records may be lost without a mark

  /** The files without the record `r` in the `i`-th, and no mark of it. */
  function Without(logs: seq<DayLog>, i: nat, r: Record): seq<DayLog>
    requires i < |logs|
  {
    logs[i := logs[i].(recs := Kept(logs[i].recs, (x: Record) => x == r))]
  }

  /** Losing it without a mark never pays a job sealed and graded on one day. */
  ghost predicate LossNeverPays(r: Record) {
    forall logs: seq<DayLog>, i: nat, job: string, u: Unwound, day: int |
      i < |logs| && Filed(logs) && SealedOnce(AllLines(logs), job, u.minerId)
      && Pays(AllLines(Without(logs, i, r)), job, u, day) :: Pays(AllLines(logs), job, u, day)
  }

  lemma {:induction false} WithoutLoses(logs: seq<DayLog>, i: nat, r: Record)
    requires i < |logs| && !IncoherentGrade(r)
    ensures AllLose(logs, Without(logs, i, r))
  {
    forall x { KeptHolds(logs[i].recs, (y: Record) => y == r, x); }
  }

  /** Evidence of one day in which the grade `r` decides, and the same evidence without it. */
  function Decided(r: Record): seq<Record>
    requires r.WorkGrade?
  {
    [WorkSealed(r.day, [r.jobId]), WorkGrade(r.day, r.minerId, r.jobId + "'", "", true)]
  }

  /** The evidence around `r`, with `r` in it or not. */
  ghost predicate Around(r: Record, recs: seq<Record>)
    requires r.WorkGrade?
  {
    forall x :: x in recs <==> x in Decided(r) || (x == r && r in recs)
  }

  lemma {:induction false} DecidedLines(r: Record, recs: seq<Record>)
    requires IncoherentGrade(r) && Around(r, recs)
    ensures var ls := AllLines([DayLog(r.day, recs, 0)]);
            && TornDays(ls) == {} && (Known(r) in ls <==> r in recs)
            && Known(Decided(r)[0]) in ls && Known(Decided(r)[1]) in ls
            && forall l | l in ls && l.Known? :: l.rec == Decided(r)[0] || l.rec == Decided(r)[1] || l.rec == r
  {
    var logs := [DayLog(r.day, recs, 0)];
    TornAre(logs);
    forall x: Record ensures Known(x) in AllLines(logs) <==> x in recs { RecordsRead(logs, x); }
    hide AllLines, TornDays;
    assert Decided(r)[0] in Decided(r) && Decided(r)[1] in Decided(r);
    forall l | l in AllLines(logs) && l.Known? ensures l.rec in recs { assert l == Known(l.rec); }
  }

  lemma {:induction false} DecidedSealed(r: Record, recs: seq<Record>)
    requires IncoherentGrade(r) && Around(r, recs)
    ensures var ls := AllLines([DayLog(r.day, recs, 0)]);
            && AnyCoherent(DayGrades(GradesIn(ls), r.day, r.minerId))
            && r.jobId in AnsweredIn(ls) && SealedOnce(ls, r.jobId, r.minerId)
  {
    var ls := AllLines([DayLog(r.day, recs, 0)]);
    DecidedLines(r, recs);
    hide AllLines, TornDays, Around;
    var seal, other := Decided(r)[0], Decided(r)[1];
    assert IsSeal(Known(seal)) && [r.jobId][0] in seal.answered && IsGrade(Known(other));
    assert Grade(r.day, r.jobId + "'", r.minerId, true) in DayGrades(GradesIn(ls), r.day, r.minerId);
  }

  lemma {:induction false} DecidedOwn(r: Record, recs: seq<Record>)
    requires IncoherentGrade(r) && Around(r, recs)
    ensures var own := OwnGrades(GradesIn(AllLines([DayLog(r.day, recs, 0)])), r.jobId, r.minerId);
            (own == {} <==> r !in recs) && !AnyCoherent(own)
  {
    var ls := AllLines([DayLog(r.day, recs, 0)]);
    var own := OwnGrades(GradesIn(ls), r.jobId, r.minerId);
    DecidedLines(r, recs);
    hide AllLines, TornDays, Around;
    assert |r.jobId + "'"| != |r.jobId|;
    forall g | g in own ensures g == Grade(r.day, r.jobId, r.minerId, false) && r in recs {
      var l :| l in ls && IsGrade(l) && g == Grade(l.rec.day, l.rec.jobId, l.rec.minerId, l.rec.coherent);
      assert l == Known(l.rec);
    }
    if r in recs {
      assert IsGrade(Known(r));
      assert Grade(r.day, r.jobId, r.minerId, false) in own;
    }
  }

  lemma {:induction false} DecidedWithout(r: Record)
    requires IncoherentGrade(r)
    ensures var recs := Decided(r) + [r];
            var kept := Kept(recs, (y: Record) => y == r);
            && Around(r, recs) && r in recs && Around(r, kept) && r !in kept
            && Filed([DayLog(r.day, recs, 0)])
  {
    var recs := Decided(r) + [r];
    var kept := Kept(recs, (y: Record) => y == r);
    assert |r.jobId + "'"| != |r.jobId|;
    forall x ensures x in recs <==> x in Decided(r) || x == r {}
    forall x ensures x in kept <==> x in recs && x != r { KeptHolds(recs, (y: Record) => y == r, x); }
    hide Kept;
  }

  /** The evidence around `r` pays the job exactly when `r` is not in it. */
  lemma {:induction false} DecidedPays(r: Record, recs: seq<Record>)
    requires IncoherentGrade(r) && Around(r, recs)
    ensures Pays(AllLines([DayLog(r.day, recs, 0)]), r.jobId, Unwound(r.minerId, Clear), r.day) <==> r !in recs
  {
    DecidedLines(r, recs);
    DecidedSealed(r, recs);
    DecidedOwn(r, recs);
    hide Around, AllLines, AnyCoherent, TornDays, GradesIn, AnsweredIn, SealedOnce, OwnGrades, DayGrades;
    if r !in recs { UngradedPays(AllLines([DayLog(r.day, recs, 0)]), r.jobId, Unwound(r.minerId, Clear), r.day); }
  }

  /** An incoherent grade lost without a mark pays the job it was about. */
  lemma {:induction false} LostGradePays(r: Record)
    requires IncoherentGrade(r)
    ensures !LossNeverPays(r)
  {
    var recs, u := Decided(r) + [r], Unwound(r.minerId, Clear);
    var logs := [DayLog(r.day, recs, 0)];
    var kept := Kept(recs, (y: Record) => y == r);
    DecidedWithout(r);
    DecidedSealed(r, recs);
    hide Decided, Around, Filed, AllLines, Pays, SealedOnce, Kept;
    DecidedPays(r, recs);
    DecidedPays(r, kept);
    assert Without(logs, 0, r) == [DayLog(r.day, kept, 0)];
  }

  /** Main result: a record may be lost without a mark and never pay a job if and only if it is not a grade that says
      incoherent. */
  lemma {:induction false} LossNeverPaysExactlyWhen(r: Record)
    ensures LossNeverPays(r) <==> !IncoherentGrade(r)
  {
    if IncoherentGrade(r) {
      LostGradePays(r);
    } else {
      forall logs: seq<DayLog>, i: nat, job: string, u: Unwound, day: int |
        i < |logs| && Filed(logs) && SealedOnce(AllLines(logs), job, u.minerId)
        && Pays(AllLines(Without(logs, i, r)), job, u, day)
        ensures Pays(AllLines(logs), job, u, day)
      {
        WithoutLoses(logs, i, r);
        LossIsDamage(logs, Without(logs, i, r));
        DamageNeverPays(AllLines(logs), AllLines(Without(logs, i, r)), job, u, day);
      }
    }
  }
}
