/** The rows of a day before the formula: one identity per miner id met in any family of facts, in order, with the
    address it declared last and its work void when its day is graded out. */
module DayIdentities {
  import opened Wrappers
  import opened SeasonRules
  import opened SeasonCalc
  import opened Evidence
  import opened UnwoundWork
  import opened Damage
  import opened Exposure
  import opened Ordering
  import opened Tally
  import opened UnwoundRule

  /** The families of facts of a day. */
  datatype Families = Families(work: map<string, int>, verdicts: map<string, int>, presence: map<string, int>,
                               judge: map<string, int>)

  function Miners(f: Families): set<string> { f.work.Keys + f.verdicts.Keys + f.presence.Keys + f.judge.Keys }

  /** The address `mid` declared last, "" when it declared none. */
  function Declared(ls: Lines, mid: string): string {
    if ls == [] then ""
    else
      var l := ls[|ls| - 1];
      if l.Known? && l.rec.Payout? && l.rec.minerId == mid then l.rec.address else Declared(ls[..|ls| - 1], mid)
  }

  /** The miner's day is graded out: enough graded answers and none of them coherent. */
  predicate Void(ls: Lines, day: int, mid: string) {
    var g := DayGrades(GradesIn(ls), day, mid);
    GradedOut(|JobsOf(g)|, AnyCoherent(g), |SampledJobs(SamplesIn(ls), day, mid)|)
  }

  function IdentityOf(ls: Lines, day: int, f: Families, byDefault: map<string, string>, mid: string): Identity {
    Identity(mid, Get(f.presence, mid, 0), if Void(ls, day, mid) then 0 else Get(f.work, mid, 0),
             Get(f.verdicts, mid, 0),
             if Declared(ls, mid) != "" then Declared(ls, mid) else Get(byDefault, mid, ""),
             Get(f.judge, mid, 0), false, None, false)
  }

  method Payouts(ls: Lines) returns (payout: map<string, string>)
    ensures forall mid: string :: Get(payout, mid, "") == Declared(ls, mid)
  {
    payout := map[];
    for n := 0 to |ls|
      invariant forall mid: string :: Get(payout, mid, "") == Declared(ls[..n], mid)
    {
      assert ls[..n + 1][..n] == ls[..n];
      if ls[n].Known? && ls[n].rec.Payout? {
        payout := payout[ls[n].rec.minerId := ls[n].rec.address];
      }
    }
    assert ls[..|ls|] == ls;
  }

  /** `ids` are the identities the evidence and the families give, one per miner, in order. */
  ghost predicate IdentitiesOf(ids: seq<Identity>, day: int, ls: Lines, f: Families, byDefault: map<string, string>) {
    exists mids: seq<string> :: ListingOf(mids, Miners(f)) && Listed(ids, mids, day, ls, f, byDefault)
  }

  ghost predicate Listed(ids: seq<Identity>, mids: seq<string>, day: int, ls: Lines, f: Families,
                         byDefault: map<string, string>) {
    |ids| == |mids| && forall i | 0 <= i < |mids| :: ids[i] == IdentityOf(ls, day, f, byDefault, mids[i])
  }

  /** One identity per miner of any family, in order, with what the evidence and the families say of it. */
  method DayIdentities(day: int, ls: Lines, f: Families, byDefault: map<string, string>) returns (out: seq<Identity>)
    ensures IdentitiesOf(out, day, ls, f, byDefault)
  {
    hide GradedOut, ListingOf, StringLe, Declared;
    var payout := Payouts(ls);
    var sampled := SampledOf(day, ls);
    var grades := GradesOf(day, ls);
    var mids := SortedKeys(Miners(f));
    out := [];
    for n := 0 to |mids|
      invariant |out| == n
      invariant forall i | 0 <= i < n :: out[i] == IdentityOf(ls, day, f, byDefault, mids[i])
    {
      hide DayGrades, GradesIn, SamplesIn, SampledJobs, JobsOf, AnyCoherent;
      var mid := mids[n];
      var g := Get(grades, mid, []);
      var void := GradedOut(|g|, true in g, |Get(sampled, mid, {})|);
      var address := Get(payout, mid, "");
      out := out + [Identity(mid, Get(f.presence, mid, 0), if void then 0 else Get(f.work, mid, 0),
                             Get(f.verdicts, mid, 0), if address != "" then address else Get(byDefault, mid, ""),
                             Get(f.judge, mid, 0), false, None, false)];
    }
    assert Listed(out, mids, day, ls, f, byDefault);
  }

  lemma {:induction false} RowAccepted(i: Identity, r: RuleSet)
    requires !i.probation && !i.notDated && i.kitVersion.None?
    requires i.judgeActive == 0 || (i.judgeActive == 1 && r.kit.Some?)
    ensures RowOf(i, r).Ok?
  {
  }

  /** Main result: the calculation never refuses the identities of a day: none is met twice, and a judge day is the only
      fact a set without the judge reward would refuse. */
  lemma {:induction false} AlwaysAccepted(day: int, ls: Lines, f: Families, byDefault: map<string, string>,
                                          ids: seq<Identity>, r: RuleSet)
    requires IdentitiesOf(ids, day, ls, f, byDefault)
    requires forall m | m in f.judge :: f.judge[m] == 0 || (f.judge[m] == 1 && r.kit.Some?)
    ensures Accepted(ids, r)
  {
    hide RowOf, ListingOf, Void, Declared, StringLe;
    var mids :| ListingOf(mids, Miners(f)) && Listed(ids, mids, day, ls, f, byDefault);
    ListedOnce(mids, Miners(f));
    assert Map(ids, Named()) == mids;
    hide Distinct;
    forall i | 0 <= i < |ids| ensures RowOf(ids[i], r).Ok? {
      IdentityPlain(ls, day, f, byDefault, mids[i], r);
      RowAccepted(ids[i], r);
    }
  }

  lemma {:induction false} ListedOnce(names: seq<string>, all: set<string>)
    requires ListingOf(names, all)
    ensures Distinct(names)
  {
    hide StringLe;
  }

  lemma {:induction false} IdentityPlain(ls: Lines, day: int, f: Families, byDefault: map<string, string>, mid: string,
                                         r: RuleSet)
    requires forall m | m in f.judge :: f.judge[m] == 0 || (f.judge[m] == 1 && r.kit.Some?)
    ensures var i := IdentityOf(ls, day, f, byDefault, mid);
            && !i.probation && !i.notDated && i.kitVersion.None?
            && (i.judgeActive == 0 || (i.judgeActive == 1 && r.kit.Some?))
  {
  }

  // ---------------------------------------------------------------- what an identity says

  /** Line `n` is the last on which the miner declares an address. */
  ghost predicate LastPayout(ls: Lines, mid: string, n: nat) {
    && n < |ls| && ls[n].Known? && ls[n].rec.Payout? && ls[n].rec.minerId == mid
    && forall m | n < m < |ls| :: !(ls[m].Known? && ls[m].rec.Payout? && ls[m].rec.minerId == mid)
  }

  lemma {:induction false} DeclaredExactly(ls: Lines, mid: string)
    ensures forall n: nat | LastPayout(ls, mid, n) :: Declared(ls, mid) == ls[n].rec.address
    ensures (forall n: nat :: !LastPayout(ls, mid, n)) ==> Declared(ls, mid) == ""
  {
    if ls != [] {
      var pre, m := ls[..|ls| - 1], |ls| - 1;
      DeclaredExactly(pre, mid);
      assert forall k | 0 <= k < m :: pre[k] == ls[k];
      if ls[m].Known? && ls[m].rec.Payout? && ls[m].rec.minerId == mid {
        assert LastPayout(ls, mid, m);
      } else {
        forall n: nat ensures LastPayout(ls, mid, n) <==> LastPayout(pre, mid, n) {}
      }
    }
  }

  /** Every graded answer of the miner's day is incoherent, and two were graded or at most one sampled. */
  ghost predicate WorthNothing(ls: Lines, day: int, mid: string) {
    && DayGraded(ls, day, mid, false) && !DayGraded(ls, day, mid, true)
    && (!OneJobGraded(ls, day, mid) || !TwoJobsSampled(ls, day, mid))
  }

  lemma {:induction false} VoidExactly(ls: Lines, day: int, mid: string)
    ensures Void(ls, day, mid) <==> WorthNothing(ls, day, mid)
  {
    var g := DayGrades(GradesIn(ls), day, mid);
    DayMeans(ls, day, mid);
    GradedJobsMean(ls, day, mid);
    SampledJobsMean(ls, day, mid);
    JobsOfNone(g);
    hide DayGraded, OneJobGraded, TwoJobsSampled, GradedOut, AnyCoherent, JobsOf, DayGrades, GradesIn, SampledJobs;
    var n, m := |JobsOf(g)|, |SampledJobs(SamplesIn(ls), day, mid)|;
    VoidRule(if n >= 1 then n else 1, m);
  }

  lemma {:induction false} JobsOfNone(g: set<Grade>)
    ensures |JobsOf(g)| == 0 <==> g == {}
  {
    if x :| x in g { assert x.jobId in JobsOf(g); }
    assert g == {} ==> JobsOf(g) == {};
  }

  /** Main result: a miner has one identity exactly when some family of facts names it. The identity carries the miner's
      facts, no work when the grades of its day make it worth nothing, and the address of its last declaration, or the
      default one when there is none. */
  lemma {:induction false} IdentityExactly(ids: seq<Identity>, day: int, ls: Lines, f: Families,
                                           byDefault: map<string, string>, mid: string)
    requires IdentitiesOf(ids, day, ls, f, byDefault)
    ensures (exists n :: 0 <= n < |ids| && ids[n].minerId == mid) <==>
              mid in f.work || mid in f.verdicts || mid in f.presence || mid in f.judge
    ensures forall m, n | 0 <= m < n < |ids| ::
            ids[m].minerId != ids[n].minerId && StringLe(ids[m].minerId, ids[n].minerId)
    ensures forall n | 0 <= n < |ids| && ids[n].minerId == mid :: IdentitySays(ids[n], day, ls, f, byDefault)
  {
    hide StringLe, Void, Declared, IdentitySays;
    var mids :| ListingOf(mids, Miners(f)) && Listed(ids, mids, day, ls, f, byDefault);
    forall n | 0 <= n < |ids| ensures ids[n].minerId == mids[n] && IdentitySays(ids[n], day, ls, f, byDefault) {
      SaysOf(day, ls, f, byDefault, mids[n]);
    }
    hide IdentityOf;
    assert mid in mids <==> mid in Miners(f);
    if mid in mids {
      var n :| 0 <= n < |mids| && mids[n] == mid;
      assert ids[n].minerId == mid;
    }
  }

  /** The identity carries its miner's facts. */
  ghost predicate IdentitySays(i: Identity, day: int, ls: Lines, f: Families, byDefault: map<string, string>) {
    var mid := i.minerId;
    && (i.presence == if mid in f.presence then f.presence[mid] else 0)
    && (i.verdicts == if mid in f.verdicts then f.verdicts[mid] else 0)
    && (i.judgeActive == if mid in f.judge then f.judge[mid] else 0)
    && (WorthNothing(ls, day, mid) ==> i.verifiedRequests == 0)
    && (!WorthNothing(ls, day, mid) ==> i.verifiedRequests == if mid in f.work then f.work[mid] else 0)
    && (forall n: nat | LastPayout(ls, mid, n) && ls[n].rec.address != "" :: i.address == ls[n].rec.address)
    && ((forall n: nat | LastPayout(ls, mid, n) :: ls[n].rec.address == "") ==>
          i.address == if mid in byDefault then byDefault[mid] else "")
  }

  lemma {:induction false} SaysOf(day: int, ls: Lines, f: Families, byDefault: map<string, string>, mid: string)
    ensures IdentitySays(IdentityOf(ls, day, f, byDefault, mid), day, ls, f, byDefault)
    ensures IdentityOf(ls, day, f, byDefault, mid).minerId == mid
  {
    hide Void, Declared, WorthNothing;
    VoidExactly(ls, day, mid);
    DeclaredExactly(ls, mid);
    hide LastPayout;
  }

  // ---------------------------------------------------------------- a void day and evidence that went missing

  /** Whatever is missing, so long as only days of `marks` are marked, the day stays void. */
  ghost predicate StaysVoid(logs: seq<DayLog>, day: int, mid: string, marks: set<int>) {
    forall left | AllLose(logs, left) && TornDays(AllLines(left)) <= marks :: Void(AllLines(left), day, mid)
  }

  lemma {:induction false} VoidKept(ls: Lines, hs: Lines, day: int, mid: string)
    requires Damaged(ls, hs) && Void(ls, day, mid) && day !in TornDays(hs)
    ensures Void(hs, day, mid)
  {
    DayKept(ls, hs, day, mid);
  }

  /** The grades of the day hidden behind its marker: the day is void no longer, and its work counts again. */
  lemma {:induction false} MarkedUnvoids(logs: seq<DayLog>, day: int, mid: string)
    requires Filed(logs) && Void(AllLines(logs), day, mid)
    ensures var marks := TornDays(AllLines(logs)) + {day};
            exists hidden :: AllHide(logs, hidden) && TornDays(AllLines(hidden)) == marks &&
              !Void(AllLines(hidden), day, mid)
  {
    var marks, drop := TornDays(AllLines(logs)) + {day}, (r: Record) => r.WorkGrade?;
    var hidden := AllMarked(logs, marks, drop);
    var hs := AllLines(hidden);
    GradedDay(logs, day, mid);
    MarkingHides(logs, marks, drop);
    MarkingMarks(logs, marks, drop);
    hide AllLines, AllMarked, TornDays, Filed, AllHide, Void;
    forall l | l in hs && IsGrade(l) ensures l.rec.day != day { assert l == Known(l.rec); }
    UngradedIsNotVoid(hs, day, mid);
  }

  lemma {:induction false} UngradedIsNotVoid(hs: Lines, day: int, mid: string)
    requires forall l | l in hs && IsGrade(l) :: l.rec.day != day
    ensures !Void(hs, day, mid)
  {
    var g := DayGrades(GradesIn(hs), day, mid);
    assert g == {};
    assert JobsOf(g) == {};
  }

  lemma {:induction false} GradedDay(logs: seq<DayLog>, day: int, mid: string)
    requires Filed(logs) && Void(AllLines(logs), day, mid)
    ensures TornDays(AllLines(logs)) + {day} <= Days(logs)
  {
    var ls := AllLines(logs);
    TornAre(logs);
    hide AllLines;
    var g := DayGrades(GradesIn(ls), day, mid);
    assert g == {} ==> JobsOf(g) == {};
    var x :| x in g;
    var l :| l in ls && IsGrade(l) && x == Grade(l.rec.day, l.rec.jobId, l.rec.minerId, l.rec.coherent);
    RecordsRead(logs, l.rec);
  }

  /** Main result: a graded-out day stays void under every loss that marks only days of `marks` if and only if the day
      itself is not among them. */
  lemma {:induction false} VoidStaysExactlyWhen(logs: seq<DayLog>, day: int, mid: string, marks: set<int>)
    requires Filed(logs) && Void(AllLines(logs), day, mid) && TornDays(AllLines(logs)) <= marks
    ensures StaysVoid(logs, day, mid, marks) <==> day !in marks
  {
    hide Void, AllLines, TornDays, Filed, AllHide, AllLose;
    if day in marks {
      MarkedUnvoids(logs, day, mid);
      var hidden :| AllHide(logs, hidden) && TornDays(AllLines(hidden)) == TornDays(AllLines(logs)) + {day}
                    && !Void(AllLines(hidden), day, mid);
      HidingIsLoss(logs, hidden);
    } else {
      forall left | AllLose(logs, left) && TornDays(AllLines(left)) <= marks ensures Void(AllLines(left), day, mid) {
        LossIsDamage(logs, left);
        VoidKept(AllLines(logs), AllLines(left), day, mid);
      }
    }
  }

  /** Two sampled answers of a miner, the first graded incoherent, and the grade of the second when it is read. */
  function TwoGraded(day: int, mid: string, j: string, k: string, both: bool): seq<Record> {
    [WorkAnswer(day, mid, j), WorkAnswer(day, mid, k), WorkGrade(day, mid, j, "", false)]
    + if both then [WorkGrade(day, mid, k, "", false)] else []
  }

  lemma {:induction false} TwoGradedVoid(day: int, mid: string, j: string, k: string, both: bool, bad: nat)
    requires j != k
    ensures Void(AllLines([DayLog(day, TwoGraded(day, mid, j, k, both), bad)]), day, mid) <==> both
  {
    var recs := TwoGraded(day, mid, j, k, both);
    var a, b := WorkAnswer(day, mid, j), WorkAnswer(day, mid, k);
    var g, h := WorkGrade(day, mid, j, "", false), WorkGrade(day, mid, k, "", false);
    assert forall x :: x in recs <==> x == a || x == b || x == g || (both && x == h);
    hide TwoGraded;
    var graded := if both then {j, k} else {j};
    TwoSampled(DayLog(day, recs, bad), mid, j, k, graded);
    assert |{j, k}| == 2;
    hide AllLines;
  }

  /** The least such loss: of two sampled answers, both graded incoherent, one grade torn, and the day's work, worth
      nothing on the whole evidence, is paid. */
  lemma {:induction false} TornGradeUnvoids(day: int, mid: string, j: string, k: string, f: Families,
                                            byDefault: map<string, string>)
    requires j != k
    ensures var whole := [DayLog(day, TwoGraded(day, mid, j, k, true), 0)];
            var torn := [DayLog(day, TwoGraded(day, mid, j, k, false), 1)];
            && AllHide(whole, torn) && Void(AllLines(whole), day, mid) && !Void(AllLines(torn), day, mid)
            && IdentityOf(AllLines(whole), day, f, byDefault, mid).verifiedRequests == 0
            && IdentityOf(AllLines(torn), day, f, byDefault, mid).verifiedRequests == Get(f.work, mid, 0)
  {
    TwoGradedVoid(day, mid, j, k, true, 0);
    TwoGradedVoid(day, mid, j, k, false, 1);
    hide AllLines, Void;
  }

  /** A file that samples two answers of a miner and grades those of `graded`, all incoherent. */
  lemma {:induction false} TwoSampled(d: DayLog, mid: string, j: string, k: string, graded: set<string>)
    requires j != k && (forall x | x in d.recs :: x.day == d.day)
    requires forall x | x in d.recs && x.WorkGrade? :: x.minerId == mid && x.jobId in graded && !x.coherent
    requires forall x | x in graded :: WorkGrade(d.day, mid, x, "", false) in d.recs
    requires forall x | x in d.recs && x.WorkAnswer? :: x.minerId == mid && x.jobId in {j, k}
    requires WorkAnswer(d.day, mid, j) in d.recs && WorkAnswer(d.day, mid, k) in d.recs
    ensures var ls := AllLines([d]);
            && JobsOf(DayGrades(GradesIn(ls), d.day, mid)) == graded &&
                 !AnyCoherent(DayGrades(GradesIn(ls), d.day, mid))
            && SampledJobs(SamplesIn(ls), d.day, mid) == {j, k}
  {
    var ls := AllLines([d]);
    forall x: Record ensures Known(x) in ls <==> x in d.recs { RecordsRead([d], x); assert [d][0] == d; }
    hide AllLines;
    forall l | l in ls && l.Known? ensures l.rec in d.recs { assert l == Known(l.rec); }
    forall x | x in d.recs && x.WorkGrade? ensures Grade(d.day, x.jobId, mid, false) in GradesIn(ls) {
      assert IsGrade(Known(x));
    }
    forall x | x in d.recs && x.WorkAnswer? ensures Sample(d.day, x.minerId, x.jobId) in SamplesIn(ls) {
      assert IsAnswer(Known(x));
    }
    var g, s := JobsOf(DayGrades(GradesIn(ls), d.day, mid)), SampledJobs(SamplesIn(ls), d.day, mid);
    forall x | x in graded ensures x in g {
      assert WorkGrade(d.day, mid, x, "", false) in d.recs;
      assert Grade(d.day, x, mid, false) in DayGrades(GradesIn(ls), d.day, mid);
    }
    forall x | x in {j, k} ensures x in s {
      assert WorkAnswer(d.day, mid, x) in d.recs;
      assert Sample(d.day, mid, x) in SamplesIn(ls);
    }
    assert g <= graded && s <= {j, k};
  }
}
