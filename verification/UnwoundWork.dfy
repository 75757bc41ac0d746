/** The work of an unwound audit: an unwound job is paid on what the evidence log says of its answer and of its
    grades. */
module UnwoundWork {
  import opened Evidence
  import opened Ordering
  import opened Tally

  datatype Record =
    | Payout(day: int, minerId: string, address: string)
    | WorkAnswer(day: int, minerId: string, jobId: string)
    | WorkGrade(day: int, minerId: string, jobId: string, grader: string, coherent: bool)
    | WorkSealed(day: int, answered: seq<string>)
    | Capacity(day: int, minerId: string)

  type Lines = seq<Line<Record>>

  const GRADES_TO_VOID: nat := 2
  const FIRST_GRADER := "gpu"

  /** The grading that decided, as the published ranking names it. */
  datatype Grading =
    | OwnCoherent | OwnIncoherent | DayCoherent | DayNotGradedOut | DayGradedOut | NotGraded | GradingUnreadable

  predicate PaidGrading(g: Grading) { g.OwnCoherent? || g.DayCoherent? || g.DayNotGradedOut? }

  /** What the chain says of an unwound job, and why a job is not paid. */
  datatype Why = Clear | Convicted | UnexpectedState | NoPrimary | NotAnswered | AnswerUnreadable | Graded(g: Grading)

  datatype Unwound = Unwound(minerId: string, state: Why)

  datatype Answer = Yes | No | Unknown

  datatype Entry = Entry(minerId: string, answered: Answer, graded: Grading, why: Why)

  // ---------------------------------------------------------------- what the records say

  datatype Grade = Grade(day: int, jobId: string, minerId: string, coherent: bool)
  datatype Sample = Sample(day: int, minerId: string, jobId: string)

  predicate IsGrade(l: Line<Record>) { l.Known? && l.rec.WorkGrade? }
  predicate IsAnswer(l: Line<Record>) { l.Known? && l.rec.WorkAnswer? }
  predicate IsSeal(l: Line<Record>) { l.Known? && l.rec.WorkSealed? }

  function GradesIn(ls: Lines): set<Grade> {
    set l | l in ls && IsGrade(l) :: Grade(l.rec.day, l.rec.jobId, l.rec.minerId, l.rec.coherent)
  }

  function SamplesIn(ls: Lines): set<Sample> {
    set l | l in ls && IsAnswer(l) :: Sample(l.rec.day, l.rec.minerId, l.rec.jobId)
  }

  function AnsweredIn(ls: Lines): set<string> {
    set l, j | l in ls && IsSeal(l) && j in l.rec.answered :: j
  }

  function TornDays(ls: Lines): set<int> {
    set l | l in ls && l.UnreadableLines? :: l.day
  }

  /** The day of the first seal that lists each job. */
  function SealedOn(ls: Lines): map<string, int> {
    if ls == [] then map[]
    else
      var m, l := SealedOn(ls[..|ls| - 1]), ls[|ls| - 1];
      if IsSeal(l) then WithSeal(m, l.rec.answered, l.rec.day) else m
  }

  /** `setdefault` for every job of a seal: a job keeps the day it already has. */
  function WithSeal(m: map<string, int>, jobs: seq<string>, day: int): map<string, int> {
    if jobs == [] then m
    else
      var w, j := WithSeal(m, jobs[..|jobs| - 1], day), jobs[|jobs| - 1];
      if j in w then w else w[j := day]
  }

  // ---------------------------------------------------------------- the rule, on what the records say

  function OwnGrades(gs: set<Grade>, job: string, mid: string): set<Grade> {
    set g | g in gs && g.jobId == job && g.minerId == mid
  }

  function DayGrades(gs: set<Grade>, day: int, mid: string): set<Grade> {
    set g | g in gs && g.day == day && g.minerId == mid
  }

  function JobsOf(gs: set<Grade>): set<string> { set g | g in gs :: g.jobId }

  function SampledJobs(ss: set<Sample>, day: int, mid: string): set<string> {
    set s | s in ss && s.day == day && s.minerId == mid :: s.jobId
  }

  predicate AnyCoherent(gs: set<Grade>) { exists g | g in gs :: g.coherent }

  function Min(a: nat, b: nat): nat { if a < b then a else b }
  function Max(a: nat, b: nat): nat { if a < b then b else a }

  /** The void rule on `graded` answers, none of them coherent, and `gradable` sampled ones. */
  predicate GradedOut(graded: nat, anyCoherent: bool, gradable: nat) {
    graded >= Max(1, Min(GRADES_TO_VOID, gradable)) && !anyCoherent
  }

  /** The rule of decision 18, own answer first, stated on the facts rather than on the dictionaries. */
  function GradingOf(ls: Lines, job: string, mid: string, day: int): Grading {
    var gs, torn, sealed := GradesIn(ls), TornDays(ls), SealedOn(ls);
    var own, g := OwnGrades(gs, job, mid), DayGrades(gs, day, mid);
    if own != {} then (if AnyCoherent(own) then OwnCoherent else OwnIncoherent)
    else if (if job in sealed then sealed[job] in torn else torn != {}) then GradingUnreadable
    else if AnyCoherent(g) then DayCoherent
    else if day in torn then GradingUnreadable
    else if g == {} then NotGraded
    else if GradedOut(|JobsOf(g)|, false, |SampledJobs(SamplesIn(ls), day, mid)|) then DayGradedOut
    else DayNotGradedOut
  }

  predicate Pays(ls: Lines, job: string, u: Unwound, day: int) {
    u.state.Clear? && job in AnsweredIn(ls) && PaidGrading(GradingOf(ls, job, u.minerId, day))
  }

  function PayingJobs(ls: Lines, unwound: map<string, Unwound>, day: int): set<string> {
    set j | j in unwound && Pays(ls, j, unwound[j], day)
  }

  function MinerOf(unwound: map<string, Unwound>): map<string, string> {
    map j | j in unwound :: unwound[j].minerId
  }

  /** The unwound jobs of `day` credited to `mid`. */
  function PaidJobs(ls: Lines, unwound: map<string, Unwound>, day: int, mid: string): set<string> {
    Credited(PayingJobs(ls, unwound, day), MinerOf(unwound), mid)
  }

  // ---------------------------------------------------------------- the first seal of a job

  lemma {:induction false} WithSealMeaning(m: map<string, int>, jobs: seq<string>, day: int, job: string)
    ensures job in WithSeal(m, jobs, day) <==> job in m || job in jobs
    ensures job in WithSeal(m, jobs, day) ==> WithSeal(m, jobs, day)[job] == if job in m then m[job] else day
  {
    if jobs != [] { WithSealMeaning(m, jobs[..|jobs| - 1], day, job); }
  }

  lemma {:induction false} SealedOnMeaning(ls: Lines, job: string)
    ensures job in SealedOn(ls) <==> job in AnsweredIn(ls)
    ensures job in SealedOn(ls) ==>
            exists l :: l in ls && IsSeal(l) && job in l.rec.answered && l.rec.day == SealedOn(ls)[job]
  {
    if ls != [] {
      var pre, last := ls[..|ls| - 1], ls[|ls| - 1];
      SealedOnMeaning(pre, job);
      if IsSeal(last) { WithSealMeaning(SealedOn(pre), last.rec.answered, last.rec.day, job); }
      assert forall l :: l in ls <==> l in pre || l == last;
    }
  }

  // ---------------------------------------------------------------- the dictionaries the ranking builds

  type ByGrader = map<string, seq<bool>>
  type Key = (string, string)

  function GraderOf(grader: string): string { if grader == "" then FIRST_GRADER else grader }

  predicate AnswerIncoherent(bg: ByGrader) { bg != map[] && forall g | g in bg :: true !in bg[g] }

  function WithGrade(m: map<Key, ByGrader>, r: Record): map<Key, ByGrader>
    requires r.WorkGrade?
  {
    var k := (r.jobId, r.minerId);
    var bg: ByGrader := if k in m then m[k] else map[];
    m[k := bg[GraderOf(r.grader) := Get(bg, GraderOf(r.grader), []) + [r.coherent]]]
  }

  function AnswerGradesOf(ls: Lines): map<Key, ByGrader> {
    if ls == [] then map[]
    else
      var m, l := AnswerGradesOf(ls[..|ls| - 1]), ls[|ls| - 1];
      if IsGrade(l) then WithGrade(m, l.rec) else m
  }

  method AnswerGrades(ls: Lines) returns (out: map<Key, ByGrader>)
    ensures out == AnswerGradesOf(ls)
  {
    out := map[];
    for i := 0 to |ls|
      invariant out == AnswerGradesOf(ls[..i])
    {
      assert ls[..i + 1][..i] == ls[..i];
      if IsGrade(ls[i]) {
        var r := ls[i].rec;
        var k := (r.jobId, r.minerId);
        ghost var before := out;
        if k !in out {
          out := out[k := map[]];
        }
        if GraderOf(r.grader) !in out[k] {
          out := out[k := out[k][GraderOf(r.grader) := []]];
        }
        out := out[k := out[k][GraderOf(r.grader) := out[k][GraderOf(r.grader)] + [r.coherent]]];
        assert out[k] == WithGrade(before, r)[k];
        assert out == WithGrade(before, r);
      }
    }
    assert ls[..|ls|] == ls;
  }

  lemma {:induction false} OwnGradesGrow(pre: Lines, l: Line<Record>, job: string, mid: string)
    ensures OwnGrades(GradesIn(pre + [l]), job, mid) == OwnGrades(GradesIn(pre), job, mid) +
            if IsGrade(l) && l.rec.jobId == job && l.rec.minerId == mid
            then {Grade(l.rec.day, job, mid, l.rec.coherent)} else {}
  {
    assert forall x :: x in pre + [l] <==> x in pre || x == l;
  }

  /** The nested dictionary says of each answer what its grades say: whether it has one, and whether all of them,
      from every grader, read incoherent. */
  lemma {:induction false} AnswerGradesMeaning(ls: Lines, job: string, mid: string)
    ensures var m, own := AnswerGradesOf(ls), OwnGrades(GradesIn(ls), job, mid);
            && ((job, mid) in m <==> own != {})
            && ((job, mid) in m ==> m[(job, mid)] != map[] && (AnswerIncoherent(m[(job, mid)]) <==> !AnyCoherent(own)))
  {
    if ls != [] {
      var pre, l := ls[..|ls| - 1], ls[|ls| - 1];
      AnswerGradesMeaning(pre, job, mid);
      OwnGradesGrow(pre, l, job, mid);
      assert pre + [l] == ls;
      if IsGrade(l) && l.rec.jobId == job && l.rec.minerId == mid {
        var own0, own := OwnGrades(GradesIn(pre), job, mid), OwnGrades(GradesIn(ls), job, mid);
        var g := Grade(l.rec.day, job, mid, l.rec.coherent);
        assert own == own0 + {g};
        assert AnyCoherent(own) <==> AnyCoherent(own0) || l.rec.coherent;
        GradeAdded(AnswerGradesOf(pre), l.rec);
      }
    }
  }

  lemma {:induction false} GradeAdded(m: map<Key, ByGrader>, r: Record)
    requires r.WorkGrade?
    ensures var k, m' := (r.jobId, r.minerId), WithGrade(m, r);
            && k in m' && m'[k] != map[]
            && (AnswerIncoherent(m'[k]) <==> !r.coherent && (k in m ==> m[k] == map[] || AnswerIncoherent(m[k])))
  {
    var k, gr := (r.jobId, r.minerId), GraderOf(r.grader);
    var bg: ByGrader := if k in m then m[k] else map[];
    var bg' := WithGrade(m, r)[k];
    assert gr in bg' && bg'[gr] == Get(bg, gr, []) + [r.coherent];
    assert bg'[gr][|bg'[gr]| - 1] == r.coherent;
    assert forall g | g in bg && g != gr :: g in bg' && bg'[g] == bg[g];
    assert true in bg'[gr] <==> r.coherent || true in Get(bg, gr, []);
  }

  method AnsweredJobs(ls: Lines) returns (out: set<string>)
    ensures out == AnsweredIn(ls)
  {
    out := {};
    for i := 0 to |ls|
      invariant out == AnsweredIn(ls[..i])
    {
      assert forall x :: x in ls[..i + 1] <==> x in ls[..i] || x == ls[i];
      if IsSeal(ls[i]) {
        out := out + set j | j in ls[i].rec.answered;
      }
    }
    assert ls[..|ls|] == ls;
  }

  /** The inner loop over the jobs of one seal. */
  method SealDays(r: Record, before: map<string, int>) returns (out: map<string, int>)
    requires r.WorkSealed?
    ensures out == WithSeal(before, r.answered, r.day)
  {
    out := before;
    for n := 0 to |r.answered|
      invariant out == WithSeal(before, r.answered[..n], r.day)
    {
      assert r.answered[..n + 1][..n] == r.answered[..n];
      if r.answered[n] !in out {
        out := out[r.answered[n] := r.day];
      }
    }
    assert r.answered[..|r.answered|] == r.answered;
  }

  method SealedDays(ls: Lines) returns (out: map<string, int>)
    ensures out == SealedOn(ls)
  {
    out := map[];
    for i := 0 to |ls|
      invariant out == SealedOn(ls[..i])
    {
      assert ls[..i + 1][..i] == ls[..i];
      if IsSeal(ls[i]) {
        out := SealDays(ls[i].rec, out);
      }
    }
    assert ls[..|ls|] == ls;
  }

  function DayLines(ls: Lines, day: int): Lines {
    if ls == [] then []
    else
      var l := ls[|ls| - 1];
      DayLines(ls[..|ls| - 1], day) + (if (if l.Known? then l.rec.day else l.day) == day then [l] else [])
  }

  lemma {:induction false} DayLinesHold(ls: Lines, day: int, l: Line<Record>)
    ensures l in DayLines(ls, day) <==> l in ls && (if l.Known? then l.rec.day else l.day) == day
  {
    if ls != [] {
      DayLinesHold(ls[..|ls| - 1], day, l);
      assert forall x :: x in ls <==> x in ls[..|ls| - 1] || x == ls[|ls| - 1];
    }
  }

  lemma {:induction false} DayLinesFacts(ls: Lines, day: int, job: string, mid: string)
    ensures OwnGrades(GradesIn(DayLines(ls, day)), job, mid) ==
            set g | g in DayGrades(GradesIn(ls), day, mid) && g.jobId == job
    ensures SampledJobs(SamplesIn(DayLines(ls, day)), day, mid) == SampledJobs(SamplesIn(ls), day, mid)
  {
    forall l ensures l in DayLines(ls, day) <==> l in ls && (if l.Known? then l.rec.day else l.day) == day {
      DayLinesHold(ls, day, l);
    }
    var a, b := SamplesIn(DayLines(ls, day)), SamplesIn(ls);
    assert forall s: Sample | s.day == day :: s in a <==> s in b;
  }

  /** The answers of `mid` among the keys of the dictionary of grades. */
  function JobsKeyed(keys: set<Key>, mid: string): set<string> {
    set k | k in keys && k.1 == mid :: k.0
  }

  ghost predicate SampledRead(day: int, ls: Lines, sampled: map<string, set<string>>) {
    forall mid: string :: Get(sampled, mid, {}) == SampledJobs(SamplesIn(ls), day, mid)
  }

  /** One entry per graded answer of the miner's day, its combined grade. */
  ghost predicate GradesRead(day: int, ls: Lines, grades: map<string, seq<bool>>) {
    forall mid: string ::
      && |Get(grades, mid, [])| == |JobsOf(DayGrades(GradesIn(ls), day, mid))|
      && (true in Get(grades, mid, []) <==> AnyCoherent(DayGrades(GradesIn(ls), day, mid)))
  }

  method SampledOf(day: int, ls: Lines) returns (sampled: map<string, set<string>>)
    ensures SampledRead(day, ls, sampled)
  {
    var dayLines := DayLines(ls, day);
    sampled := map[];
    for i := 0 to |dayLines|
      invariant SampledRead(day, dayLines[..i], sampled)
    {
      assert dayLines[i] in dayLines;
      DayLinesHold(ls, day, dayLines[i]);
      SampledStep(day, dayLines[..i], dayLines[i], sampled);
      assert dayLines[..i] + [dayLines[i]] == dayLines[..i + 1];
      if IsAnswer(dayLines[i]) {
        var r := dayLines[i].rec;
        sampled := sampled[r.minerId := Get(sampled, r.minerId, {}) + {r.jobId}];
      }
    }
    assert dayLines[..|dayLines|] == dayLines;
    forall mid: string ensures Get(sampled, mid, {}) == SampledJobs(SamplesIn(ls), day, mid) {
      DayLinesFacts(ls, day, "", mid);
    }
  }

  lemma {:induction false} SampledGrow(pre: Lines, l: Line<Record>, day: int, mid: string)
    requires IsAnswer(l) ==> l.rec.day == day
    ensures SampledJobs(SamplesIn(pre + [l]), day, mid) == SampledJobs(SamplesIn(pre), day, mid) +
            if IsAnswer(l) && l.rec.minerId == mid then {l.rec.jobId} else {}
  {
    assert forall x :: x in pre + [l] <==> x in pre || x == l;
    assert SamplesIn(pre + [l]) ==
           SamplesIn(pre) + if IsAnswer(l) then {Sample(l.rec.day, l.rec.minerId, l.rec.jobId)} else {};
  }

  lemma {:induction false} SampledStep(day: int, pre: Lines, l: Line<Record>, sampled: map<string, set<string>>)
    requires SampledRead(day, pre, sampled) && (IsAnswer(l) ==> l.rec.day == day)
    ensures SampledRead(day, pre + [l],
              if IsAnswer(l) then sampled[l.rec.minerId := Get(sampled, l.rec.minerId, {}) + {l.rec.jobId}]
              else sampled)
  {
    var after :=
      if IsAnswer(l) then sampled[l.rec.minerId := Get(sampled, l.rec.minerId, {}) + {l.rec.jobId}] else sampled;
    forall mid: string ensures Get(after, mid, {}) == SampledJobs(SamplesIn(pre + [l]), day, mid) {
      SampledGrow(pre, l, day, mid);
      assert Get(sampled, mid, {}) == SampledJobs(SamplesIn(pre), day, mid);
    }
  }

  /** `grades` holds one combined grade for each answer whose key is in `done`. */
  ghost predicate KeyedRead(all: map<Key, ByGrader>, done: set<Key>, grades: map<string, seq<bool>>)
    requires done <= all.Keys
  {
    forall mid: string ::
      && |Get(grades, mid, [])| == |JobsKeyed(done, mid)|
      && (true in Get(grades, mid, []) <==> exists k | k in done :: k.1 == mid && !AnswerIncoherent(all[k]))
  }

  lemma {:induction false} KeyedStep(all: map<Key, ByGrader>, done: set<Key>, k: Key, grades: map<string, seq<bool>>)
    requires done <= all.Keys && k in all && k !in done && KeyedRead(all, done, grades)
    ensures KeyedRead(all, done + {k}, grades[k.1 := Get(grades, k.1, []) + [!AnswerIncoherent(all[k])]])
  {
    KeyedGrows(done, k);
    var g := Get(grades, k.1, []) + [!AnswerIncoherent(all[k])];
    assert g[|g| - 1] == !AnswerIncoherent(all[k]);
    assert true in g <==> true in Get(grades, k.1, []) || !AnswerIncoherent(all[k]);
  }

  method GradesOf(day: int, ls: Lines) returns (grades: map<string, seq<bool>>)
    ensures GradesRead(day, ls, grades)
  {
    var all := AnswerGrades(DayLines(ls, day));
    grades := map[];
    var rest := all.Keys;
    while rest != {}
      invariant rest <= all.Keys && KeyedRead(all, all.Keys - rest, grades)
      decreases |rest|
    {
      var k :| k in rest;
      KeyedStep(all, all.Keys - rest, k, grades);
      assert all.Keys - (rest - {k}) == (all.Keys - rest) + {k};
      grades := grades[k.1 := Get(grades, k.1, []) + [!AnswerIncoherent(all[k])]];
      rest := rest - {k};
    }
    assert all.Keys - {} == all.Keys;
    forall mid: string
      ensures && |Get(grades, mid, [])| == |JobsOf(DayGrades(GradesIn(ls), day, mid))|
              && (true in Get(grades, mid, []) <==> AnyCoherent(DayGrades(GradesIn(ls), day, mid)))
    {
      KeyedMeaning(day, ls, mid);
    }
  }

  lemma {:induction false} KeyedGrows(keys: set<Key>, k: Key)
    requires k !in keys
    ensures forall mid: string ::
              |JobsKeyed(keys + {k}, mid)| == |JobsKeyed(keys, mid)| + (if mid == k.1 then 1 else 0)
  {
    forall mid: string
      ensures |JobsKeyed(keys + {k}, mid)| == |JobsKeyed(keys, mid)| + (if mid == k.1 then 1 else 0)
    {
      if mid == k.1 {
        assert k.0 !in JobsKeyed(keys, mid);
        assert JobsKeyed(keys + {k}, mid) == JobsKeyed(keys, mid) + {k.0};
      } else {
        assert JobsKeyed(keys + {k}, mid) == JobsKeyed(keys, mid);
      }
    }
  }

  lemma {:induction false} KeyedMeaning(day: int, ls: Lines, mid: string)
    ensures var all, g := AnswerGradesOf(DayLines(ls, day)), DayGrades(GradesIn(ls), day, mid);
            && JobsKeyed(all.Keys, mid) == JobsOf(g)
            && ((exists k | k in all.Keys :: k.1 == mid && !AnswerIncoherent(all[k])) <==> AnyCoherent(g))
  {
    var all, g := AnswerGradesOf(DayLines(ls, day)), DayGrades(GradesIn(ls), day, mid);
    forall job: string
      ensures (job, mid) in all <==> job in JobsOf(g)
      ensures (job, mid) in all ==>
                (AnswerIncoherent(all[(job, mid)]) <==> !exists x | x in g :: x.jobId == job && x.coherent)
    {
      AnswerGradesMeaning(DayLines(ls, day), job, mid);
      DayLinesFacts(ls, day, job, mid);
      var own := set x | x in g && x.jobId == job;
      assert own != {} <==> job in JobsOf(g) by {
        if own != {} { var x :| x in own; assert x.jobId in JobsOf(g); }
        if job in JobsOf(g) { var x :| x in g && x.jobId == job; assert x in own; }
      }
    }
    if AnyCoherent(g) {
      var x :| x in g && x.coherent;
      assert x.jobId in JobsOf(g) && (x.jobId, mid) in all.Keys;
    }
  }

  /** What the grading of every unwound job of a day is read from. */
  datatype Reads = Reads(own: map<Key, ByGrader>, sealedOn: map<string, int>, torn: set<int>,
                         sampled: map<string, set<string>>, grades: map<string, seq<bool>>)

  ghost predicate ReadsOf(day: int, ls: Lines, r: Reads) {
    && r.own == AnswerGradesOf(ls) && r.sealedOn == SealedOn(ls) && r.torn == TornDays(ls)
    && SampledRead(day, ls, r.sampled) && GradesRead(day, ls, r.grades)
  }

  /** The decision as the code takes it, on the dictionaries. */
  function Decide(job: string, mid: string, day: int, r: Reads): Grading {
    if (job, mid) in r.own && r.own[(job, mid)] != map[] then
      (if AnswerIncoherent(r.own[(job, mid)]) then OwnIncoherent else OwnCoherent)
    else if (if job in r.sealedOn then r.sealedOn[job] in r.torn else r.torn != {}) then GradingUnreadable
    else
      var g := Get(r.grades, mid, []);
      if true in g then DayCoherent
      else if day in r.torn then GradingUnreadable
      else if g == [] then NotGraded
      else if GradedOut(|g|, true in g, |Get(r.sampled, mid, {})|) then DayGradedOut
      else DayNotGradedOut
  }

  /** The decision on the dictionaries is the rule on the facts. */
  lemma {:induction false} DecideIsGrading(job: string, mid: string, day: int, ls: Lines, r: Reads)
    requires ReadsOf(day, ls, r)
    ensures Decide(job, mid, day, r) == GradingOf(ls, job, mid, day)
  {
    AnswerGradesMeaning(ls, job, mid);
    var g := DayGrades(GradesIn(ls), day, mid);
    assert g == {} <==> JobsOf(g) == {} by {
      if g != {} {
        var x :| x in g;
        assert x.jobId in JobsOf(g);
      }
    }
    assert |JobsOf(g)| == |Get(r.grades, mid, [])|;
  }

  method GradingReads(day: int, ls: Lines) returns (r: Reads)
    ensures ReadsOf(day, ls, r)
  {
    var own := AnswerGrades(ls);
    var sealed := SealedDays(ls);
    var sampled := SampledOf(day, ls);
    var grades := GradesOf(day, ls);
    r := Reads(own, sealed, TornDays(ls), sampled, grades);
  }

  /** What the published record says of one unwound job. */
  function EntryOf(answered: set<string>, tornAny: bool, job: string, u: Unwound, g: Grading): Entry {
    var ans := if job in answered then Yes else if tornAny then Unknown else No;
    var why :=
      if !u.state.Clear? then u.state
      else if ans.Unknown? then AnswerUnreadable
      else if ans.No? then NotAnswered
      else if !PaidGrading(g) then Graded(g)
      else Clear;
    Entry(u.minerId, ans, g, why)
  }

  /** The published record of the day: every unwound job, paid or not. */
  function AllEntries(ls: Lines, unwound: map<string, Unwound>, day: int): map<string, Entry> {
    map j | j in unwound ::
      EntryOf(AnsweredIn(ls), TornDays(ls) != {}, j, unwound[j], GradingOf(ls, j, unwound[j].minerId, day))
  }

  function DecidedEntries(answered: set<string>, tornAny: bool, unwound: map<string, Unwound>, day: int, r: Reads)
    : map<string, Entry>
  {
    map j | j in unwound :: EntryOf(answered, tornAny, j, unwound[j], Decide(j, unwound[j].minerId, day, r))
  }

  function ClearJobs(entries: map<string, Entry>): set<string> {
    set j | j in entries && entries[j].why.Clear?
  }

  /** The published record says paid exactly when the rule pays. */
  lemma {:induction false} EntryPaysExactly(ls: Lines, unwound: map<string, Unwound>, day: int)
    ensures ClearJobs(AllEntries(ls, unwound, day)) == PayingJobs(ls, unwound, day)
  {
  }

  /** The jobs outside `rest` are recorded as `all` says, and counted. */
  ghost predicate PaidSoFar(unwound: map<string, Unwound>, all: map<string, Entry>, rest: set<string>,
                            paid: map<string, nat>, proof: map<string, Entry>) {
    && rest <= unwound.Keys == all.Keys && proof.Keys == unwound.Keys - rest
    && (forall k | k in proof :: proof[k] == all[k])
    && Tallied(ClearJobs(all), MinerOf(unwound), proof.Keys, paid)
  }

  lemma {:induction false} PaidStep(unwound: map<string, Unwound>, all: map<string, Entry>, rest: set<string>,
                 paid: map<string, nat>, proof: map<string, Entry>, j: string)
    requires PaidSoFar(unwound, all, rest, paid, proof) && j in rest
    ensures PaidSoFar(unwound, all, rest - {j}, if all[j].why.Clear? then Add(paid, unwound[j].minerId) else paid,
                      proof[j := all[j]])
  {
    TallyStep(ClearJobs(all), MinerOf(unwound), proof.Keys, j, paid);
    assert proof[j := all[j]].Keys == proof.Keys + {j};
  }

  lemma {:induction false} PaidAll(unwound: map<string, Unwound>, all: map<string, Entry>, paid: map<string, nat>,
                                   proof: map<string, Entry>)
    requires PaidSoFar(unwound, all, {}, paid, proof)
    ensures proof == all
    ensures forall mid: string :: Get(paid, mid, 0) == |Credited(ClearJobs(all), MinerOf(unwound), mid)|
  {
    TallyDone(ClearJobs(all), MinerOf(unwound), proof.Keys, paid);
  }

  /** The loop of `unwound_work`, on what was read; the order of the jobs does not show in what it returns. */
  method PayLoop(day: int, unwound: map<string, Unwound>, answered: set<string>, tornAny: bool, r: Reads)
      returns (paid: map<string, nat>, proof: map<string, Entry>)
    ensures proof == DecidedEntries(answered, tornAny, unwound, day, r)
    ensures forall mid: string :: Get(paid, mid, 0) == |Credited(ClearJobs(proof), MinerOf(unwound), mid)|
  {
    paid, proof := map[], map[];
    ghost var all := DecidedEntries(answered, tornAny, unwound, day, r);
    var rest := unwound.Keys;
    while rest != {}
      invariant PaidSoFar(unwound, all, rest, paid, proof)
      decreases |rest|
    {
      var j :| j in rest;
      PaidStep(unwound, all, rest, paid, proof, j);
      var mid := unwound[j].minerId;
      var entry := EntryOf(answered, tornAny, j, unwound[j], Decide(j, mid, day, r));
      paid := if entry.why.Clear? then Add(paid, mid) else paid;
      proof, rest := proof[j := entry], rest - {j};
    }
    PaidAll(unwound, all, paid, proof);
  }

  lemma {:induction false} DecidedIsPublished(ls: Lines, unwound: map<string, Unwound>, day: int, r: Reads)
    requires ReadsOf(day, ls, r)
    ensures DecidedEntries(AnsweredIn(ls), TornDays(ls) != {}, unwound, day, r) == AllEntries(ls, unwound, day)
  {
    forall j | j in unwound ensures Decide(j, unwound[j].minerId, day, r) == GradingOf(ls, j, unwound[j].minerId, day) {
      DecideIsGrading(j, unwound[j].minerId, day, ls, r);
    }
  }

  method UnwoundWork(day: int, ls: Lines, unwound: map<string, Unwound>, answered: set<string>)
      returns (paid: map<string, nat>, proof: map<string, Entry>)
    requires answered == AnsweredIn(ls)
    ensures forall mid: string :: Get(paid, mid, 0) == |PaidJobs(ls, unwound, day, mid)|
    ensures proof == AllEntries(ls, unwound, day)
  {
    var tornAny := TornDays(ls) != {};
    var r := GradingReads(day, ls);
    paid, proof := PayLoop(day, unwound, answered, tornAny, r);
    DecidedIsPublished(ls, unwound, day, r);
    EntryPaysExactly(ls, unwound, day);
  }
}
