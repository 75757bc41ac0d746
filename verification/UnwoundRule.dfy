/** What pays an unwound job, said on the lines of the evidence one by one, without the sets and counts of the rule. */
module UnwoundRule {
  import opened Evidence
  import opened UnwoundWork
  import opened Ordering

  /** A line grades the job's own answer that way. */
  ghost predicate OwnGraded(ls: Lines, job: string, mid: string, coherent: bool) {
    exists l | l in ls :: IsGrade(l) && l.rec.jobId == job && l.rec.minerId == mid && l.rec.coherent == coherent
  }

  /** A line grades that way an answer of the miner's day. */
  ghost predicate DayGraded(ls: Lines, day: int, mid: string, coherent: bool) {
    exists l | l in ls :: IsGrade(l) && l.rec.day == day && l.rec.minerId == mid && l.rec.coherent == coherent
  }

  ghost predicate Marked(ls: Lines, day: int) { exists l | l in ls :: l.UnreadableLines? && l.day == day }

  ghost predicate AnyMarked(ls: Lines) { exists l | l in ls :: l.UnreadableLines? }

  /** Line `n` is the first that seals the job. */
  ghost predicate FirstSealAt(ls: Lines, job: string, n: nat) {
    && n < |ls| && IsSeal(ls[n]) && job in ls[n].rec.answered
    && forall k | 0 <= k < n :: !(IsSeal(ls[k]) && job in ls[k].rec.answered)
  }

  ghost predicate Sealed(ls: Lines, job: string) {
    exists l | l in ls :: IsSeal(l) && job in l.rec.answered
  }

  /** The lines grade answers of one job only of the miner's day. */
  ghost predicate OneJobGraded(ls: Lines, day: int, mid: string) {
    forall a, b | a in ls && b in ls && IsGrade(a) && IsGrade(b) && a.rec.day == day == b.rec.day
                  && a.rec.minerId == mid == b.rec.minerId :: a.rec.jobId == b.rec.jobId
  }

  /** The lines sample answers of two jobs of the miner's day. */
  ghost predicate TwoJobsSampled(ls: Lines, day: int, mid: string) {
    exists a, b | a in ls && b in ls && IsAnswer(a) && IsAnswer(b) ::
      a.rec.day == day == b.rec.day && a.rec.minerId == mid == b.rec.minerId && a.rec.jobId != b.rec.jobId
  }

  /** The miner's day speaks for a job not graded itself: an answer of it is graded coherent; or its file can be read,
      it has a grade, and it was sampled twice and graded once. */
  ghost predicate DaySpeaks(ls: Lines, day: int, mid: string) {
    || DayGraded(ls, day, mid, true)
    || (&& !Marked(ls, day) && DayGraded(ls, day, mid, false)
        && OneJobGraded(ls, day, mid) && TwoJobsSampled(ls, day, mid))
  }

  /** What pays: the job's own coherent grade; or no grade of its own, a readable file of the day that first sealed it,
      and a day that speaks for it. */
  ghost predicate EvidencePays(ls: Lines, job: string, mid: string, day: int) {
    && Sealed(ls, job)
    && (|| OwnGraded(ls, job, mid, true)
        || (&& !OwnGraded(ls, job, mid, false) && DaySpeaks(ls, day, mid)
            && forall n: nat | FirstSealAt(ls, job, n) :: !Marked(ls, ls[n].rec.day)))
  }

  // ---------------------------------------------------------------- the facts behind the rule

  lemma {:induction false} OwnMeans(ls: Lines, job: string, mid: string)
    ensures var own := OwnGrades(GradesIn(ls), job, mid);
            && (AnyCoherent(own) <==> OwnGraded(ls, job, mid, true))
            && (own == {} <==> !OwnGraded(ls, job, mid, true) && !OwnGraded(ls, job, mid, false))
  {
    var own := OwnGrades(GradesIn(ls), job, mid);
    forall l | l in ls && IsGrade(l) && l.rec.jobId == job && l.rec.minerId == mid
      ensures Grade(l.rec.day, job, mid, l.rec.coherent) in own
    {
    }
    forall g | g in own ensures OwnGraded(ls, job, mid, g.coherent) {
      var l :| l in ls && IsGrade(l) && g == Grade(l.rec.day, l.rec.jobId, l.rec.minerId, l.rec.coherent);
    }
  }

  lemma {:induction false} DayMeans(ls: Lines, day: int, mid: string)
    ensures var g := DayGrades(GradesIn(ls), day, mid);
            && (AnyCoherent(g) <==> DayGraded(ls, day, mid, true))
            && (g == {} <==> !DayGraded(ls, day, mid, true) && !DayGraded(ls, day, mid, false))
  {
    var g := DayGrades(GradesIn(ls), day, mid);
    forall l | l in ls && IsGrade(l) && l.rec.day == day && l.rec.minerId == mid
      ensures Grade(day, l.rec.jobId, mid, l.rec.coherent) in g
    {
    }
    forall x | x in g ensures DayGraded(ls, day, mid, x.coherent) {
      var l :| l in ls && IsGrade(l) && x == Grade(l.rec.day, l.rec.jobId, l.rec.minerId, l.rec.coherent);
    }
  }

  lemma {:induction false} AtMostOne<T>(s: set<T>)
    ensures |s| <= 1 <==> forall x, y | x in s && y in s :: x == y
  {
    if s != {} {
      var x :| x in s;
      assert s == {x} + (s - {x});
      if |s| > 1 {
        var y :| y in s - {x};
      } else {
        assert s - {x} == {};
      }
    }
  }

  lemma {:induction false} GradedJobsMean(ls: Lines, day: int, mid: string)
    ensures |JobsOf(DayGrades(GradesIn(ls), day, mid))| <= 1 <==> OneJobGraded(ls, day, mid)
  {
    var jobs := JobsOf(DayGrades(GradesIn(ls), day, mid));
    AtMostOne(jobs);
    forall l | l in ls && IsGrade(l) && l.rec.day == day && l.rec.minerId == mid ensures l.rec.jobId in jobs {
      assert Grade(day, l.rec.jobId, mid, l.rec.coherent) in DayGrades(GradesIn(ls), day, mid);
    }
    forall j | j in jobs
      ensures exists l | l in ls :: IsGrade(l) && l.rec.day == day && l.rec.minerId == mid && l.rec.jobId == j
    {
      var g :| g in DayGrades(GradesIn(ls), day, mid) && g.jobId == j;
      var l :| l in ls && IsGrade(l) && g == Grade(l.rec.day, l.rec.jobId, l.rec.minerId, l.rec.coherent);
    }
    hide JobsOf, DayGrades, GradesIn;
  }

  lemma {:induction false} SampledJobsMean(ls: Lines, day: int, mid: string)
    ensures |SampledJobs(SamplesIn(ls), day, mid)| <= 1 <==> !TwoJobsSampled(ls, day, mid)
  {
    var jobs := SampledJobs(SamplesIn(ls), day, mid);
    AtMostOne(jobs);
    forall l | l in ls && IsAnswer(l) && l.rec.day == day && l.rec.minerId == mid ensures l.rec.jobId in jobs {
      assert Sample(day, mid, l.rec.jobId) in SamplesIn(ls);
    }
    forall j | j in jobs
      ensures exists l | l in ls :: IsAnswer(l) && l.rec.day == day && l.rec.minerId == mid && l.rec.jobId == j
    {
      var x :| x in SamplesIn(ls) && x.day == day && x.minerId == mid && x.jobId == j;
      var l :| l in ls && IsAnswer(l) && x == Sample(l.rec.day, l.rec.minerId, l.rec.jobId);
    }
    hide SampledJobs, SamplesIn;
  }

  /** The void rule in words: with a grade and none coherent, a day is kept exactly when one answer is graded and two or
      more were sampled. */
  lemma {:induction false} VoidRule(graded: nat, gradable: nat)
    requires graded >= 1
    ensures !GradedOut(graded, false, gradable) <==> graded == 1 && gradable >= 2
    ensures !GradedOut(graded, true, gradable) && !GradedOut(0, false, gradable)
  {
  }

  lemma {:induction false} MarkedMeans(ls: Lines, day: int)
    ensures day in TornDays(ls) <==> Marked(ls, day)
    ensures TornDays(ls) != {} <==> AnyMarked(ls)
  {
    if l :| l in ls && l.UnreadableLines? { assert l.day in TornDays(ls); }
    if t :| t in TornDays(ls) { var l :| l in ls && l.UnreadableLines? && l.day == t; }
  }

  lemma {:induction false} FirstSealMeans(ls: Lines, job: string)
    ensures job in SealedOn(ls) <==> Sealed(ls, job)
    ensures job in AnsweredIn(ls) <==> Sealed(ls, job)
    ensures forall n: nat | FirstSealAt(ls, job, n) :: job in SealedOn(ls) && SealedOn(ls)[job] == ls[n].rec.day
    ensures Sealed(ls, job) ==> exists n: nat :: FirstSealAt(ls, job, n)
  {
    SealedOnMeaning(ls, job);
    assert job in AnsweredIn(ls) <==> Sealed(ls, job);
    hide AnsweredIn;
    if ls != [] {
      var pre, m := ls[..|ls| - 1], |ls| - 1;
      FirstSealMeans(pre, job);
      assert forall k | 0 <= k < m :: pre[k] == ls[k];
      if IsSeal(ls[m]) { WithSealMeaning(SealedOn(pre), ls[m].rec.answered, ls[m].rec.day, job); }
      FirstSealNext(ls, job);
      hide FirstSealAt, Sealed, SealedOn;
    }
  }

  lemma {:induction false} FirstSealNext(ls: Lines, job: string)
    requires ls != []
    ensures var pre, m := ls[..|ls| - 1], |ls| - 1;
            var seals := IsSeal(ls[m]) && job in ls[m].rec.answered;
            && (forall n: nat | n < m :: FirstSealAt(ls, job, n) <==> FirstSealAt(pre, job, n))
            && (FirstSealAt(ls, job, m) <==> seals && !Sealed(pre, job))
            && (Sealed(ls, job) <==> Sealed(pre, job) || seals)
            && (forall n: nat | FirstSealAt(ls, job, n) :: n <= m)
            && (forall n: nat | FirstSealAt(pre, job, n) :: n < m)
  {
    var pre, m := ls[..|ls| - 1], |ls| - 1;
    assert forall k | 0 <= k < m :: pre[k] == ls[k];
    assert forall l :: l in ls <==> l in pre || l == ls[m];
    if Sealed(pre, job) {
      var l :| l in pre && IsSeal(l) && job in l.rec.answered;
      var k :| 0 <= k < m && pre[k] == l;
    }
    if k :| 0 <= k < m && IsSeal(ls[k]) && job in ls[k].rec.answered { assert pre[k] in pre; }
  }

  // ---------------------------------------------------------------- the rule, exactly

  /** What each grading says of the lines: the job's own grades first, then whether the file of its first seal can be
      read, then its miner's day. */
  ghost predicate GradingSays(ls: Lines, job: string, mid: string, day: int, g: Grading) {
    var own := OwnGraded(ls, job, mid, true) || OwnGraded(ls, job, mid, false);
    var blind := if Sealed(ls, job) then exists n: nat :: FirstSealAt(ls, job, n) && Marked(ls, ls[n].rec.day)
                 else AnyMarked(ls);
    match g
    case OwnCoherent => OwnGraded(ls, job, mid, true)
    case OwnIncoherent => own && !OwnGraded(ls, job, mid, true)
    case GradingUnreadable => !own && (blind || (!DayGraded(ls, day, mid, true) && Marked(ls, day)))
    case DayCoherent => !own && !blind && DayGraded(ls, day, mid, true)
    case NotGraded => !own && !blind && !Marked(ls, day) && !DayGraded(ls, day, mid, true) &&
      !DayGraded(ls, day, mid, false)
    case DayGradedOut =>
      && !own && !blind && !Marked(ls, day) && !DayGraded(ls, day, mid, true) && DayGraded(ls, day, mid, false)
      && !(OneJobGraded(ls, day, mid) && TwoJobsSampled(ls, day, mid))
    case DayNotGradedOut =>
      && !own && !blind && !Marked(ls, day) && !DayGraded(ls, day, mid, true) && DayGraded(ls, day, mid, false)
      && OneJobGraded(ls, day, mid) && TwoJobsSampled(ls, day, mid)
  }

  lemma {:induction false} GradingMeans(ls: Lines, job: string, mid: string, day: int)
    ensures GradingSays(ls, job, mid, day, GradingOf(ls, job, mid, day))
  {
    OwnMeans(ls, job, mid);
    DayMeans(ls, day, mid);
    GradedJobsMean(ls, day, mid);
    SampledJobsMean(ls, day, mid);
    FirstSealMeans(ls, job);
    MarkedMeans(ls, day);
    if job in SealedOn(ls) { MarkedMeans(ls, SealedOn(ls)[job]); }
    var g := DayGrades(GradesIn(ls), day, mid);
    if g != {} {
      SomeJob(g);
      VoidRule(|JobsOf(g)|, |SampledJobs(SamplesIn(ls), day, mid)|);
    }
    hide OwnGrades, DayGrades, GradesIn, SamplesIn, SampledJobs, JobsOf, AnyCoherent, TornDays, SealedOn, AnsweredIn;
    hide OwnGraded, DayGraded, Marked, AnyMarked, FirstSealAt, Sealed, OneJobGraded, TwoJobsSampled, GradedOut;
  }

  lemma {:induction false} SomeJob(g: set<Grade>)
    requires g != {}
    ensures |JobsOf(g)| >= 1
  {
    var x :| x in g;
    assert x.jobId in JobsOf(g);
  }

  /** Main result: an unwound job is paid exactly when the chain says it is clear and the lines of the evidence pay
      it. */
  lemma {:induction false} PaysExactly(ls: Lines, job: string, u: Unwound, day: int)
    ensures Pays(ls, job, u, day) <==> u.state.Clear? && EvidencePays(ls, job, u.minerId, day)
  {
    GradingMeans(ls, job, u.minerId, day);
    FirstSealMeans(ls, job);
    hide GradingOf, AnsweredIn, SealedOn, OwnGraded, DayGraded, Marked, AnyMarked, FirstSealAt, Sealed, OneJobGraded;
    hide TwoJobsSampled;
  }

  /** What the published record says of every unwound job: whether its answer was sealed, unknown when it was not and a
      line cannot be read; and why it is not paid, the chain's own reason first, then the missing answer, then the
      grading. */
  lemma {:induction false} EntrySays(ls: Lines, unwound: map<string, Unwound>, day: int, job: string)
    requires job in unwound
    ensures job in AllEntries(ls, unwound, day)
    ensures var e, u := AllEntries(ls, unwound, day)[job], unwound[job];
            && e.minerId == u.minerId && GradingSays(ls, job, u.minerId, day, e.graded)
            && (e.answered.Yes? <==> Sealed(ls, job))
            && (e.answered.Unknown? <==> !Sealed(ls, job) && AnyMarked(ls))
            && (e.why.Clear? <==> u.state.Clear? && EvidencePays(ls, job, u.minerId, day))
            && (!u.state.Clear? ==> e.why == u.state)
            && (u.state.Clear? && e.answered.Unknown? ==> e.why == AnswerUnreadable)
            && (u.state.Clear? && e.answered.No? ==> e.why == NotAnswered)
            && (u.state.Clear? && e.answered.Yes? && !e.why.Clear? ==> e.why == Graded(e.graded))
  {
    var u := unwound[job];
    PaysExactly(ls, job, u, day);
    GradingMeans(ls, job, u.minerId, day);
    FirstSealMeans(ls, job);
    MarkedMeans(ls, day);
    hide GradingOf, AnsweredIn, SealedOn, GradingSays, EvidencePays, Sealed, AnyMarked, TornDays, FirstSealAt;
  }
}
