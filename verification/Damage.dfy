/** Evidence with records missing: what damage or a crash may take from the files, when that can never pay an unwound
    job that the whole evidence leaves unpaid, and exactly when it can. */
module Damage {
  import opened Evidence
  import opened UnwoundWork
  import opened Ordering

  /** One day's file: the records it reads as, and how many of its lines it cannot read. */
  datatype DayLog = DayLog(day: int, recs: seq<Record>, bad: nat)

  function AllLines(logs: seq<DayLog>): Lines {
    if logs == [] then []
    else
      var d := logs[|logs| - 1];
      AllLines(logs[..|logs| - 1]) + ReadBack(d.day, d.recs, d.bad)
  }

  /** Every record carries the day of the file it was appended to. */
  predicate Filed(logs: seq<DayLog>) {
    forall i, r | 0 <= i < |logs| && r in logs[i].recs :: r.day == logs[i].day
  }

  // ---------------------------------------------------------------- what may be missing

  /** `b` is `a` after damage: no record that was not there, and any record missing is counted as unreadable. */
  predicate Hides(a: DayLog, b: DayLog) {
    && a.day == b.day
    && (forall r | r in b.recs :: r in a.recs)
    && (b.bad == 0 ==> a == b)
  }

  ghost predicate AllHide(logs: seq<DayLog>, hidden: seq<DayLog>) {
    |logs| == |hidden| && forall i | 0 <= i < |logs| :: Hides(logs[i], hidden[i])
  }

  predicate IncoherentGrade(r: Record) { r.WorkGrade? && !r.coherent }

  /** `b` is `a` after damage and crashes: a record missing is counted as unreadable, or it left no trace, and then it
      is not a grade that says incoherent. */
  predicate Loses(a: DayLog, b: DayLog) {
    && a.day == b.day
    && (forall r | r in b.recs :: r in a.recs)
    && (b.bad == 0 ==> a.bad == 0 && forall r | r in a.recs && r !in b.recs :: !IncoherentGrade(r))
  }

  ghost predicate AllLose(logs: seq<DayLog>, left: seq<DayLog>) {
    |logs| == |left| && forall i | 0 <= i < |logs| :: Loses(logs[i], left[i])
  }

  /** The same on the lines read: nothing new, every mark kept, and of the days not marked no incoherent grade lost. */
  ghost predicate Damaged(ls: Lines, hs: Lines) {
    && (forall l | l in hs && l.Known? :: l in ls)
    && TornDays(ls) <= TornDays(hs)
    && (forall l | l in ls && l.Known? && l.rec.day !in TornDays(hs) && IncoherentGrade(l.rec) :: l in hs)
  }

  predicate LogHolds(d: DayLog, l: Line<Record>) {
    if l.Known? then l.rec in d.recs else d.bad > 0 && l == UnreadableLines(d.day, d.bad)
  }

  lemma {:induction false} ReadBackHolds(d: DayLog, l: Line<Record>)
    ensures l in ReadBack(d.day, d.recs, d.bad) <==> LogHolds(d, l)
  {
    var k := KnownLines(d.recs);
    if l.Known? && l.rec in d.recs {
      var i :| 0 <= i < |d.recs| && d.recs[i] == l.rec;
      assert k[i] == l;
      assert ReadBack(d.day, d.recs, d.bad)[i] == l;
    }
    if l.UnreadableLines? && LogHolds(d, l) {
      assert ReadBack(d.day, d.recs, d.bad)[|k|] == l;
    }
  }

  lemma {:induction false} LinesNext(logs: seq<DayLog>, l: Line<Record>)
    requires logs != []
    ensures var pre, d := logs[..|logs| - 1], logs[|logs| - 1];
            l in AllLines(logs) <==> l in AllLines(pre) || l in ReadBack(d.day, d.recs, d.bad)
  {
    hide ReadBack;
  }

  lemma {:induction false} LinesHold(logs: seq<DayLog>, l: Line<Record>)
    ensures l in AllLines(logs) <==> exists i :: 0 <= i < |logs| && LogHolds(logs[i], l)
  {
    if logs != [] {
      var pre, d := logs[..|logs| - 1], logs[|logs| - 1];
      LinesHold(pre, l);
      ReadBackHolds(d, l);
      LinesNext(logs, l);
      hide AllLines, ReadBack, LogHolds;
      assert forall i | 0 <= i < |pre| :: pre[i] == logs[i];
      if l in AllLines(pre) {
        var i :| 0 <= i < |pre| && LogHolds(pre[i], l);
        assert LogHolds(logs[i], l);
      }
    }
  }

  /** The days some file of which has a line that cannot be read. */
  function BadDays(logs: seq<DayLog>): set<int> { set i | 0 <= i < |logs| && logs[i].bad > 0 :: logs[i].day }

  lemma {:induction false} TornAre(logs: seq<DayLog>)
    ensures TornDays(AllLines(logs)) == BadDays(logs)
  {
    forall t ensures t in TornDays(AllLines(logs)) <==> t in BadDays(logs) {
      if t in TornDays(AllLines(logs)) {
        var m :| m in AllLines(logs) && m.UnreadableLines? && m.day == t;
        LinesHold(logs, m);
      }
      if t in BadDays(logs) {
        var i :| 0 <= i < |logs| && logs[i].bad > 0 && logs[i].day == t;
        var m: Line<Record> := UnreadableLines(t, logs[i].bad);
        LinesHold(logs, m);
        assert LogHolds(logs[i], m);
      }
    }
  }

  /** A record is read exactly when some file holds it. */
  lemma {:induction false} RecordsRead(logs: seq<DayLog>, r: Record)
    ensures Known(r) in AllLines(logs) <==> exists i :: 0 <= i < |logs| && r in logs[i].recs
  {
    LinesHold(logs, Known(r));
    forall i | 0 <= i < |logs| ensures LogHolds(logs[i], Known(r)) <==> r in logs[i].recs {}
    if i :| 0 <= i < |logs| && r in logs[i].recs { assert LogHolds(logs[i], Known(r)); }
  }

  lemma {:induction false} LossIsDamage(logs: seq<DayLog>, left: seq<DayLog>)
    requires AllLose(logs, left) && Filed(logs)
    ensures Damaged(AllLines(logs), AllLines(left))
  {
    var ls, hs := AllLines(logs), AllLines(left);
    TornAre(logs);
    TornAre(left);
    forall t | t in BadDays(logs) ensures t in BadDays(left) {
      var i :| 0 <= i < |logs| && logs[i].bad > 0 && logs[i].day == t;
      assert Loses(logs[i], left[i]);
    }
    forall l | l in hs && l.Known? ensures l in ls {
      RecordsRead(left, l.rec);
      RecordsRead(logs, l.rec);
      var i :| 0 <= i < |left| && l.rec in left[i].recs;
      assert Loses(logs[i], left[i]);
    }
    forall l | l in ls && l.Known? && l.rec.day !in TornDays(hs) && IncoherentGrade(l.rec) ensures l in hs {
      RecordsRead(logs, l.rec);
      RecordsRead(left, l.rec);
      var i :| 0 <= i < |logs| && l.rec in logs[i].recs;
      assert Loses(logs[i], left[i]) && left[i].bad == 0;
    }
  }

  lemma {:induction false} HidingIsLoss(logs: seq<DayLog>, hidden: seq<DayLog>)
    requires AllHide(logs, hidden)
    ensures AllLose(logs, hidden)
  {
    forall i | 0 <= i < |logs| ensures Loses(logs[i], hidden[i]) { assert Hides(logs[i], hidden[i]); }
  }

  // ---------------------------------------------------------------- what stays unpaid

  lemma {:induction false} DamageHidesFacts(ls: Lines, hs: Lines)
    requires Damaged(ls, hs)
    ensures GradesIn(hs) <= GradesIn(ls) && AnsweredIn(hs) <= AnsweredIn(ls) && SamplesIn(hs) <= SamplesIn(ls)
  {
  }

  /** The incoherent grades of a day that was not marked are all read. */
  lemma {:induction false} IncoherentKept(ls: Lines, hs: Lines, g: Grade)
    requires Damaged(ls, hs) && g in GradesIn(ls) && !g.coherent && g.day !in TornDays(hs)
    ensures g in GradesIn(hs)
  {
    var l :| l in ls && IsGrade(l) && g == Grade(l.rec.day, l.rec.jobId, l.rec.minerId, l.rec.coherent);
    assert l in hs;
  }

  /** A day that was not marked, none of whose grades says coherent, has the grades it had and no more samples. */
  lemma {:induction false} DayKept(ls: Lines, hs: Lines, day: int, mid: string)
    requires Damaged(ls, hs) && day !in TornDays(hs) && !AnyCoherent(DayGrades(GradesIn(ls), day, mid))
    ensures DayGrades(GradesIn(hs), day, mid) == DayGrades(GradesIn(ls), day, mid)
    ensures |SampledJobs(SamplesIn(hs), day, mid)| <= |SampledJobs(SamplesIn(ls), day, mid)|
  {
    DamageHidesFacts(ls, hs);
    hide GradesIn, SamplesIn, TornDays;
    var g, h := DayGrades(GradesIn(ls), day, mid), DayGrades(GradesIn(hs), day, mid);
    forall x | x in g ensures x in h { IncoherentKept(ls, hs, x); }
    assert h <= g;
    SubsetSize(SampledJobs(SamplesIn(hs), day, mid), SampledJobs(SamplesIn(ls), day, mid));
  }

  /** The job is listed by seals of one day only, and its own grades are filed under that day. */
  ghost predicate SealedOnce(ls: Lines, job: string, mid: string) {
    && (forall a, b | a in ls && b in ls && IsSeal(a) && IsSeal(b) && job in a.rec.answered && job in b.rec.answered ::
          a.rec.day == b.rec.day)
    && (forall a, g | a in ls && g in ls && IsSeal(a) && IsGrade(g) && job in a.rec.answered
                      && g.rec.jobId == job && g.rec.minerId == mid :: g.rec.day == a.rec.day)
  }

  /** With its seal's day unmarked, the job is sealed as it was, and has no own grade unless a coherent one. */
  lemma {:induction false} OwnGradesKept(ls: Lines, hs: Lines, job: string, mid: string)
    requires Damaged(ls, hs) && SealedOnce(ls, job, mid) && OwnGrades(GradesIn(hs), job, mid) == {}
    requires job in SealedOn(hs) && SealedOn(hs)[job] !in TornDays(hs)
    ensures OwnGrades(GradesIn(ls), job, mid) == {} || AnyCoherent(OwnGrades(GradesIn(ls), job, mid))
    ensures job in SealedOn(ls) && SealedOn(ls)[job] == SealedOn(hs)[job]
  {
    SealedOnMeaning(ls, job);
    SealedOnMeaning(hs, job);
    DamageHidesFacts(ls, hs);
    var s :| s in hs && IsSeal(s) && job in s.rec.answered && s.rec.day == SealedOn(hs)[job];
    var t :| t in ls && IsSeal(t) && job in t.rec.answered && t.rec.day == SealedOn(ls)[job];
    assert s in ls;
    var own := OwnGrades(GradesIn(ls), job, mid);
    if own != {} && !AnyCoherent(own) {
      var g :| g in own;
      var l :| l in ls && IsGrade(l) && g == Grade(l.rec.day, l.rec.jobId, l.rec.minerId, l.rec.coherent);
      assert l.rec.day == s.rec.day;
      IncoherentKept(ls, hs, g);
    }
  }

  /** What a miner's day says of a job that has no grade of its own, the days of `marked` being marked. */
  predicate DayPays(ls: Lines, day: int, mid: string, marked: set<int>) {
    var g := DayGrades(GradesIn(ls), day, mid);
    || AnyCoherent(g)
    || (day !in marked && g != {} && !GradedOut(|JobsOf(g)|, false, |SampledJobs(SamplesIn(ls), day, mid)|))
  }

  /** The rule, for a job without grades of its own. */
  lemma {:induction false} UngradedPays(ls: Lines, job: string, u: Unwound, day: int)
    requires u.state.Clear? && job in AnsweredIn(ls) && OwnGrades(GradesIn(ls), job, u.minerId) == {}
    ensures job in SealedOn(ls)
    ensures Pays(ls, job, u, day) <==> SealedOn(ls)[job] !in TornDays(ls) && DayPays(ls, day, u.minerId, TornDays(ls))
  {
    SealedOnMeaning(ls, job);
  }

  /** What a day pays after damage it paid before. */
  lemma {:induction false} DayPaidBefore(ls: Lines, hs: Lines, day: int, mid: string)
    requires Damaged(ls, hs) && DayPays(hs, day, mid, TornDays(hs))
    ensures forall marked | marked <= TornDays(hs) :: DayPays(ls, day, mid, marked)
  {
    DamageHidesFacts(ls, hs);
    var g, h := DayGrades(GradesIn(ls), day, mid), DayGrades(GradesIn(hs), day, mid);
    if AnyCoherent(h) {
      var x :| x in h && x.coherent;
      assert x in g;
    } else if !AnyCoherent(g) {
      DayKept(ls, hs, day, mid);
    }
  }

  /** Main result: what is missing from the evidence never pays a job that the whole evidence leaves unpaid. */
  lemma {:induction false} DamageNeverPays(ls: Lines, hs: Lines, job: string, u: Unwound, day: int)
    requires Damaged(ls, hs) && SealedOnce(ls, job, u.minerId)
    requires Pays(hs, job, u, day)
    ensures Pays(ls, job, u, day)
  {
    var mid := u.minerId;
    DamageHidesFacts(ls, hs);
    var own, left := OwnGrades(GradesIn(ls), job, mid), OwnGrades(GradesIn(hs), job, mid);
    if left != {} {
      var g :| g in left && g.coherent;
      assert g in own;
    } else {
      UngradedPays(hs, job, u, day);
      OwnGradesKept(ls, hs, job, mid);
      if own == {} {
        UngradedPays(ls, job, u, day);
        DayPaidBefore(ls, hs, day, mid);
      }
    }
  }

  /** The same over a season's files, counted per miner. */
  lemma {:induction false} DamageNeverPaysMore(logs: seq<DayLog>, left: seq<DayLog>, unwound: map<string, Unwound>,
                                               day: int, mid: string)
    requires AllLose(logs, left) && Filed(logs)
    requires forall j | j in unwound :: SealedOnce(AllLines(logs), j, unwound[j].minerId)
    ensures PaidJobs(AllLines(left), unwound, day, mid) <= PaidJobs(AllLines(logs), unwound, day, mid)
    ensures |PaidJobs(AllLines(left), unwound, day, mid)| <= |PaidJobs(AllLines(logs), unwound, day, mid)|
  {
    LossIsDamage(logs, left);
    var a, b := PaidJobs(AllLines(left), unwound, day, mid), PaidJobs(AllLines(logs), unwound, day, mid);
    hide Pays, SealedOnce, AllLines;
    forall j | j in a ensures j in b {
      DamageNeverPays(AllLines(logs), AllLines(left), j, unwound[j], day);
    }
    SubsetSize(a, b);
  }

  // ---------------------------------------------------------------- from crashed appends to unpaid jobs

  /** The appends made to one day's file, each with the byte it stopped at. */
  datatype DayWrites = DayWrites(day: int, attempts: seq<Attempt<Record>>)

  function LogOf(c: Codec<Record>, w: DayWrites): DayLog {
    var lines := LinesOf(FileOf(c, w.attempts));
    DayLog(w.day, Records(c, lines), BadLines(c, lines))
  }

  /** An append that a crash may have stopped: in the middle of its record, which leaves a line that cannot be read, or
      before its first byte, which leaves nothing and is harmless unless the record is an incoherent grade. */
  predicate Crashed(whole: Status, cut: Status, r: Record) {
    cut == whole || cut.Torn? || (whole.Completed? && cut.Nothing? && !IncoherentGrade(r))
  }

  /** The same appends, some of them cut short. */
  ghost predicate Crashes(c: Codec<Record>, w: DayWrites, t: DayWrites) {
    && w.day == t.day && |w.attempts| == |t.attempts|
    && forall i | 0 <= i < |w.attempts| ::
         && w.attempts[i].rec == t.attempts[i].rec
         && Crashed(Statuses(c, w.attempts)[i], Statuses(c, t.attempts)[i], w.attempts[i].rec)
  }

  lemma {:induction false} CrashedRecords(a: seq<Attempt<Record>>, b: seq<Attempt<Record>>, st: seq<Status>,
                                          tt: seq<Status>)
    requires |a| == |b| == |st| == |tt|
    requires forall i | 0 <= i < |a| :: a[i].rec == b[i].rec && Crashed(st[i], tt[i], a[i].rec)
    ensures forall r | r in CompletedRecords(b, tt) :: r in CompletedRecords(a, st)
    ensures TornCount(tt) == 0 ==>
              && TornCount(st) == 0
              && forall r | r in CompletedRecords(a, st) && r !in CompletedRecords(b, tt) :: !IncoherentGrade(r)
  {
    if a != [] {
      var n := |a| - 1;
      CrashedRecords(a[..n], b[..n], st[..n], tt[..n]);
    }
  }

  lemma {:induction false} CrashIsLoss(c: Codec<Record>, w: DayWrites, t: DayWrites)
    requires Sound(c) && Crashes(c, w, t)
    ensures Loses(LogOf(c, w), LogOf(c, t))
  {
    CrashLeavesCompleted(c, w.attempts);
    CrashLeavesCompleted(c, t.attempts);
    CrashedRecords(w.attempts, t.attempts, Statuses(c, w.attempts), Statuses(c, t.attempts));
  }

  function LogsOf(c: Codec<Record>, ws: seq<DayWrites>): seq<DayLog> {
    seq(|ws|, i requires 0 <= i < |ws| => LogOf(c, ws[i]))
  }

  /** Main result, from the bytes to the pay: of two histories of the evidence files, the one in which crashes cut some
      appends short pays no miner for more unwound jobs than the other. */
  lemma {:induction false} CrashesNeverPayMore(c: Codec<Record>, ws: seq<DayWrites>, ts: seq<DayWrites>,
                            unwound: map<string, Unwound>, day: int, mid: string)
    requires Sound(c) && |ws| == |ts| && forall i | 0 <= i < |ws| :: Crashes(c, ws[i], ts[i])
    requires Filed(LogsOf(c, ws))
    requires forall j | j in unwound :: SealedOnce(AllLines(LogsOf(c, ws)), j, unwound[j].minerId)
    ensures PaidJobs(AllLines(LogsOf(c, ts)), unwound, day, mid) <= PaidJobs(AllLines(LogsOf(c, ws)), unwound, day, mid)
  {
    forall i | 0 <= i < |ws| ensures Loses(LogsOf(c, ws)[i], LogsOf(c, ts)[i]) {
      CrashIsLoss(c, ws[i], ts[i]);
    }
    DamageNeverPaysMore(LogsOf(c, ws), LogsOf(c, ts), unwound, day, mid);
  }
}
