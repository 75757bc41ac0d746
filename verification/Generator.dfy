/** The programme's request generator: the day's counters across statuses, failed saves, stops and restarts, and the
    file that carries them from one process to the next. */
module Generator {
  import opened Wrappers

  const ATTEMPTS_PER_REQUEST: nat := 3

  /** The state file: replaced whole or not at all. */
  datatype File = NoFile | Unreadable | Holds(start: int, day: int, sent: int, answered: int)

  datatype Count = Count(sent: int, answered: int)

  /** The counts of `day` as last written; none from another season or day; refused when they cannot be read. */
  function LoadSent(f: File, start: int, day: int): Result<Count> {
    match f
    case NoFile => Ok(Count(0, 0))
    case Unreadable => Refused
    case Holds(s, d, sent, answered) =>
      if s != start || d != day then Ok(Count(0, 0))
      else if 0 <= answered <= sent then Ok(Count(sent, answered))
      else Refused
  }

  /** One process: the day it works on, -1 before the first, what it counted, and the day's number. */
  datatype Process = Process(running: bool, day: int, count: Count, quota: int)

  const FRESH := Process(true, -1, Count(0, 0), 0)

  datatype Reply = Answered | NotConfirmed | NotAnswered

  /** What becomes of the count of a request: saved, not saved (the save failed), or the process stopped before it. */
  datatype Fate = Saved | NotSaved | Stopped

  /** A status that names a day and a set the generator knows, with whether the next request is due, what the request
      comes to if one is sent and what becomes of its count; or a restart of the process. */
  datatype Event = Status(day: nat, quota: nat, due: bool, reply: Reply, fate: Fate) | Restart

  /** An answer whose forward could not be confirmed counts as answered. */
  function Counted(r: Reply): int { if r.NotAnswered? then 0 else 1 }

  function Plus(a: Count, b: Count): Count { Count(a.sent + b.sent, a.answered + b.answered) }
  function Minus(a: Count, b: Count): Count { Count(a.sent - b.sent, a.answered - b.answered) }
  predicate AtMost(a: Count, b: Count) { a.sent <= b.sent && a.answered <= b.answered }

  function OneRequest(r: Reply): Count { Count(1, Counted(r)) }

  /** The process once it has read the status: on a new day, from the file; refused when the file cannot be read. */
  function OnDay(p: Process, f: File, start: int, day: int, quota: nat): Result<Process> {
    if day == p.day then Ok(p.(quota := quota))
    else
      var c := LoadSent(f, start, day);
      if c.Refused? then Refused else Ok(Process(true, day, c.value, quota))
  }

  /** Whether a request is sent: below the bound on attempts, below the day's number, and due. */
  predicate Sends(p: Process, due: bool) {
    p.count.sent < ATTEMPTS_PER_REQUEST * p.quota && p.count.answered < p.quota && due
  }

  // ---------------------------------------------------------------- the pace

  const DAY_BLOCKS: int := 17_280
  const BLOCK_S: real := 5.0

  /** The seconds over which the day's remaining requests are spread: the blocks left in the day, or the season's time
      left when that is shorter. */
  function Span(height: int, start: int, timeLeft: Option<real>): real {
    var since := if height < start then 0 else height - start;
    var blocks := (DAY_BLOCKS - since % DAY_BLOCKS) as real * BLOCK_S;
    if timeLeft.None? then blocks
    else
      var left := if timeLeft.value < 0.0 then 0.0 else timeLeft.value;
      if left < blocks then left else blocks
  }

  /** Seconds until the next request, or none when the day's number is reached. */
  function Spacing(quota: int, answered: int, height: int, start: int, timeLeft: Option<real>): Option<real> {
    var left := quota - answered;
    if left <= 0 then None
    else
      var even := Span(height, start, timeLeft) / left as real;
      Some(if even < 1.0 then 1.0 else even)
  }

  /** The requests left fill the span exactly, or come a second apart when it is too short for them. */
  lemma {:induction false} SpacingSpreads(quota: int, answered: int, height: int, start: int, timeLeft: Option<real>)
    ensures var x, span := Spacing(quota, answered, height, start, timeLeft), Span(height, start, timeLeft);
            && (x.None? <==> answered >= quota) && 0.0 <= span <= DAY_BLOCKS as real * BLOCK_S
            && (x.Some? ==>
                  var left := (quota - answered) as real;
                  x.value >= 1.0 && left * x.value == if span < left then left else span)
  {
    hide Span;
    var span := Span(height, start, timeLeft);
    SpanBounds(height, start, timeLeft);
    if answered < quota {
      var left := (quota - answered) as real;
      EvenParts(span, left);
    }
  }

  lemma {:induction false} SpanBounds(height: int, start: int, timeLeft: Option<real>)
    ensures 0.0 <= Span(height, start, timeLeft) <= DAY_BLOCKS as real * BLOCK_S
  {
  }

  lemma {:induction false} EvenParts(span: real, left: real)
    requires left > 0.0
    ensures left * (span / left) == span && (span / left < 1.0 <==> span < left)
  {
    var x := span / left;
    assert x * left == span;
    assert (x - 1.0) * left == span - left;
  }

  // ---------------------------------------------------------------- what really happened

  /** One day as it was: the requests really sent, those no file held when a process stopped, those sent and not saved
      at once, and the largest number in force. */
  datatype Ledger = Ledger(real_: Count, lost: Count, unsaved: Count, maxQuota: nat)

  const EMPTY := Ledger(Count(0, 0), Count(0, 0), Count(0, 0), 0)

  datatype World = World(p: Process, f: File, days: map<int, Ledger>)

  function DayOf(w: World, day: int): Ledger { if day in w.days then w.days[day] else EMPTY }

  function FileCount(f: File, start: int, day: int): Count {
    var c := LoadSent(f, start, day);
    if c.Ok? then c.value else Count(0, 0)
  }

  /** The process stops having counted `count` on `day`: what the file does not hold is lost. */
  function Lose(l: Ledger, f: File, start: int, day: int, count: Count): Ledger {
    l.(lost := Plus(l.lost, Minus(count, FileCount(f, start, day))))
  }

  function Restarted(w: World, start: int): World {
    if w.p.running && w.p.day >= 0
    then w.(p := FRESH, days := w.days[w.p.day := Lose(DayOf(w, w.p.day), w.f, start, w.p.day, w.p.count)])
    else w.(p := FRESH)
  }

  function Sent(w: World, start: int, p: Process, reply: Reply, fate: Fate): World {
    var one, l := OneRequest(reply), DayOf(w, p.day);
    var count := Plus(p.count, one);
    var sent := l.(real_ := Plus(l.real_, one), unsaved := if fate.Saved? then l.unsaved else Plus(l.unsaved, one));
    match fate
    case Saved => World(p.(count := count), Holds(start, p.day, count.sent, count.answered), w.days[p.day := sent])
    case NotSaved => World(p.(count := count), w.f, w.days[p.day := sent])
    case Stopped => World(p.(running := false, count := count), w.f,
      w.days[p.day := Lose(sent, w.f, start, p.day, count)])
  }

  function Max(a: nat, b: nat): nat { if a < b then b else a }

  /** The process `p` at work on its day, the number in force recorded. */
  function Seen(w: World, p: Process, quota: nat): World {
    var l := DayOf(w, p.day);
    World(p, w.f, w.days[p.day := l.(maxQuota := Max(l.maxQuota, quota))])
  }

  function Next(w: World, start: int, e: Event): World {
    if e.Restart? then Restarted(w, start)
    else if !w.p.running then w
    else
      var read := OnDay(w.p, w.f, start, e.day, e.quota);
      if read.Refused? then w.(p := w.p.(running := false))
      else
        var seen := Seen(w, read.value, e.quota);
        if Sends(read.value, e.due) then Sent(seen, start, read.value, e.reply, e.fate) else seen
  }

  // ---------------------------------------------------------------- what every step keeps

  ghost predicate Bounded(l: Ledger) {
    && AtMost(Count(0, 0), l.lost) && AtMost(l.lost, l.unsaved) && AtMost(l.lost, l.real_)
    && Minus(l.real_, l.lost).sent <= ATTEMPTS_PER_REQUEST * l.maxQuota
    && Minus(l.real_, l.lost).answered <= l.maxQuota
  }

  /** The process at work on `last` counts what was really sent less what was lost; the file holds no more than that,
      and what it does not hold was not saved. */
  ghost predicate InStep(w: World, start: int, last: int) {
    var l := DayOf(w, last);
    && w.p.count == Minus(l.real_, l.lost) && 0 <= w.p.count.answered <= w.p.count.sent
    && AtMost(FileCount(w.f, start, last), w.p.count)
    && AtMost(Minus(w.p.count, FileCount(w.f, start, last)), Minus(l.unsaved, l.lost))
  }

  /** With no process at work on `last`, the file holds what was really sent less what was lost. */
  ghost predicate OnFile(w: World, start: int, last: int) {
    var l := DayOf(w, last);
    && (w.p.running ==> w.p.day == -1) && FileCount(w.f, start, last) == Minus(l.real_, l.lost)
  }

  /** `seen` are the days statuses have named, and `last` the latest of them, -1 when there is none. */
  ghost predicate Inv(w: World, start: int, seen: set<int>, last: int) {
    && (last == -1 || last in seen) && last >= -1
    && (forall d | d in w.days :: d in seen && Bounded(w.days[d]))
    && (forall d | d !in seen :: FileCount(w.f, start, d) == Count(0, 0))
    && (if w.p.running && w.p.day == last && last >= 0 then InStep(w, start, last) else OnFile(w, start, last))
  }

  lemma {:induction false} FileCountValid(f: File, start: int, day: int)
    ensures 0 <= FileCount(f, start, day).answered <= FileCount(f, start, day).sent
  {
  }

  /** What is lost when the process stops leaves the day within its bounds, and counted by the file. */
  lemma {:induction false} LoseKeeps(l: Ledger, f: File, start: int, day: int, count: Count)
    requires Bounded(l) && count == Minus(l.real_, l.lost) && AtMost(FileCount(f, start, day), count)
    requires AtMost(Minus(count, FileCount(f, start, day)), Minus(l.unsaved, l.lost))
    ensures Bounded(Lose(l, f, start, day, count))
    ensures Minus(Lose(l, f, start, day, count).real_, Lose(l, f, start, day, count).lost) == FileCount(f, start, day)
  {
    FileCountValid(f, start, day);
    hide FileCount;
  }

  lemma {:induction false} RestartKeeps(w: World, start: int, seen: set<int>, last: int)
    requires Inv(w, start, seen, last)
    ensures Inv(Restarted(w, start), start, seen, last)
  {
    hide FileCount, Bounded, Lose;
    var v := Restarted(w, start);
    if w.p.running && w.p.day >= 0 {
      assert w.p.day == last && InStep(w, start, last);
      EmptyBounded();
      LoseKeeps(DayOf(w, last), w.f, start, last, w.p.count);
      var l := Lose(DayOf(w, last), w.f, start, last, w.p.count);
      assert v.days == w.days[last := l] && v.p == FRESH && v.f == w.f;
      assert DayOf(v, last) == l;
      assert OnFile(v, start, last);
    } else {
      assert v.days == w.days && v.p == FRESH && v.f == w.f;
      assert OnFile(v, start, last);
    }
  }

  lemma {:induction false} EmptyBounded()
    ensures Bounded(EMPTY)
  {
  }

  lemma {:induction false} SentBounded(l: Ledger, f: File, start: int, day: int, p: Process, reply: Reply, due: bool,
                                       saved: bool)
    requires Bounded(l) && p.count == Minus(l.real_, l.lost) && 0 <= p.count.answered <= p.count.sent
    requires AtMost(Minus(p.count, FileCount(f, start, day)), Minus(l.unsaved, l.lost))
    requires AtMost(FileCount(f, start, day), p.count) && Sends(p, due) && p.quota <= l.maxQuota
    ensures var one := OneRequest(reply);
            var unsaved := if saved then l.unsaved else Plus(l.unsaved, one);
            var count, m := Plus(p.count, one), l.(real_ := Plus(l.real_, one), unsaved := unsaved);
            && Bounded(m) && count == Minus(m.real_, m.lost) && 0 <= count.answered <= count.sent
            && AtMost(FileCount(f, start, day), count)
            && (!saved ==> AtMost(Minus(count, FileCount(f, start, day)), Minus(m.unsaved, m.lost)))
  {
    hide FileCount;
  }

  lemma {:induction false} SavedCount(start: int, day: int, count: Count)
    requires 0 <= count.answered <= count.sent
    ensures FileCount(Holds(start, day, count.sent, count.answered), start, day) == count
    ensures forall d | d != day :: FileCount(Holds(start, day, count.sent, count.answered), start, d) == Count(0, 0)
  {
  }

  lemma {:induction false} SentKeeps(w: World, start: int, seen: set<int>, last: int, reply: Reply, due: bool,
                                     fate: Fate)
    requires Inv(w, start, seen, last) && w.p.running && w.p.day == last >= 0 && last in w.days
    requires Sends(w.p, due) && w.p.quota <= w.days[last].maxQuota
    ensures Inv(Sent(w, start, w.p, reply, fate), start, seen, last)
  {
    hide FileCount, Bounded, Lose, Sends;
    var l, v, one := w.days[last], Sent(w, start, w.p, reply, fate), OneRequest(reply);
    SentBounded(l, w.f, start, last, w.p, reply, due, fate.Saved?);
    var count := Plus(w.p.count, one);
    assert v.p.count == count;
    match fate
    case Saved =>
      SavedCount(start, last, count);
      BoundedSaved(DayOf(v, last));
    case NotSaved =>
    case Stopped =>
      LoseKeeps(l.(real_ := Plus(l.real_, one), unsaved := Plus(l.unsaved, one)), w.f, start, last, count);
  }

  lemma {:induction false} BoundedSaved(l: Ledger)
    requires Bounded(l)
    ensures AtMost(Count(0, 0), Minus(l.unsaved, l.lost))
  {
  }

  /** Reading a status keeps the counts right, and fails closed on a file that cannot be read, when the day it names is
      the latest one or a new one. */
  lemma {:induction false} DayKeeps(w: World, start: int, seen: set<int>, last: int, day: nat, quota: nat)
    requires Inv(w, start, seen, last) && w.p.running && (day == last || day !in seen)
    ensures var read := OnDay(w.p, w.f, start, day, quota);
            && (read.Refused? ==> Inv(w.(p := w.p.(running := false)), start, seen + {day}, day))
            && (read.Ok? ==> Inv(Seen(w, read.value, quota), start, seen + {day}, day))
  {
    FileCountValid(w.f, start, day);
  }

  function Run(start: int, f: File, events: seq<Event>): World {
    if events == [] then World(FRESH, f, map[])
    else Next(Run(start, f, events[..|events| - 1]), start, events[|events| - 1])
  }

  /** The days the statuses name, in order. */
  function Named(events: seq<Event>): seq<nat> {
    if events == [] then []
    else
      var e := events[|events| - 1];
      Named(events[..|events| - 1]) + if e.Status? then [e.day] else []
  }

  /** No day is named again after another day was. */
  ghost predicate NoReturn(days: seq<nat>) {
    forall i, j, k | 0 <= i < j < k < |days| && days[i] == days[k] :: days[j] == days[k]
  }

  function Latest(days: seq<nat>): int { if days == [] then -1 else days[|days| - 1] }

  function SeenIn(days: seq<nat>): set<int> { set i | 0 <= i < |days| :: days[i] as int }

  lemma {:induction false} SeenNext(days: seq<nat>)
    requires days != []
    ensures SeenIn(days) == SeenIn(days[..|days| - 1]) + {days[|days| - 1] as int}
  {
    var pre := days[..|days| - 1];
    assert forall i | 0 <= i < |pre| :: pre[i] == days[i];
    forall d | d in SeenIn(days) ensures d in SeenIn(pre) || d == days[|days| - 1] {
      var i :| 0 <= i < |days| && days[i] as int == d;
      if i < |pre| { assert pre[i] as int == d; }
    }
    forall d | d in SeenIn(pre) ensures d in SeenIn(days) {
      var i :| 0 <= i < |pre| && pre[i] as int == d;
      assert days[i] as int == d;
    }
    assert days[|days| - 1] as int in SeenIn(days);
  }

  /** The season begins on a fresh volume, on another season's file or on one that cannot be read. */
  predicate NotThisSeason(f: File, start: int) { f.Holds? ==> f.start != start }

  /** Every event keeps the counters, the file and what was really sent in step. */
  lemma {:induction false} StepKeeps(w: World, start: int, seen: set<int>, last: int, e: Event)
    requires Inv(w, start, seen, last) && (e.Status? ==> e.day == last || e.day !in seen)
    ensures e.Restart? ==> Inv(Next(w, start, e), start, seen, last)
    ensures e.Status? ==> Inv(Next(w, start, e), start, seen + {e.day}, e.day)
  {
    if e.Status? && !w.p.running { StoppedStays(w, start, seen, last, e.day); }
    hide Inv;
    if e.Restart? {
      RestartKeeps(w, start, seen, last);
    } else if w.p.running {
      DayKeeps(w, start, seen, last, e.day, e.quota);
      var read := OnDay(w.p, w.f, start, e.day, e.quota);
      if read.Ok? && Sends(read.value, e.due) {
        SentKeeps(Seen(w, read.value, e.quota), start, seen + {e.day}, e.day, e.reply, e.due, e.fate);
      }
    }
  }

  lemma {:induction false} StoppedStays(w: World, start: int, seen: set<int>, last: int, day: nat)
    requires Inv(w, start, seen, last) && !w.p.running && (day == last || day !in seen)
    ensures Inv(w, start, seen + {day}, day)
  {
    hide FileCount, Bounded;
  }

  lemma {:induction false} NamedNext(events: seq<Event>)
    requires events != [] && NoReturn(Named(events))
    ensures var pre, e := events[..|events| - 1], events[|events| - 1];
            && NoReturn(Named(pre))
            && (e.Restart? ==> Named(events) == Named(pre))
            && (e.Status? ==>
                  && (e.day == Latest(Named(pre)) || e.day !in SeenIn(Named(pre)))
                  && Latest(Named(events)) == e.day && SeenIn(Named(events)) == SeenIn(Named(pre)) + {e.day})
  {
    var a, b, e := Named(events[..|events| - 1]), Named(events), events[|events| - 1];
    assert e.Status? ==> b == a + [e.day];
    forall i, j, k | 0 <= i < j < k < |a| && a[i] == a[k] ensures a[j] == a[k] {
      assert b[i] == a[i] && b[j] == a[j] && b[k] == a[k];
    }
    if e.Status? {
      SeenNext(b);
      assert b[..|b| - 1] == a;
    }
    if e.Status? && e.day in SeenIn(a) {
      var i :| 0 <= i < |a| && a[i] == e.day;
      assert b[i] == a[i] && b[|a|] == e.day && b[|a| - 1] == a[|a| - 1];
    }
  }

  lemma {:induction false} RunKeeps(start: int, f: File, events: seq<Event>)
    requires NoReturn(Named(events)) && NotThisSeason(f, start)
    ensures Inv(Run(start, f, events), start, SeenIn(Named(events)), Latest(Named(events)))
  {
    if events != [] {
      var pre, e := events[..|events| - 1], events[|events| - 1];
      NamedNext(events);
      RunKeeps(start, f, pre);
      hide Inv, Next, Named, SeenIn, Latest;
      StepKeeps(Run(start, f, pre), start, SeenIn(Named(pre)), Latest(Named(pre)), e);
    }
  }

  /** Main result: over every run of statuses, failed saves, stops and restarts in which no day is named again after
      another was, the requests answered on a day exceed the largest number in force on it by no more than those lost,
      and those really sent exceed three times it by no more than those lost; and a request is lost only when its count
      was not saved. */
  lemma {:induction false} DayNumberHolds(start: int, f: File, events: seq<Event>, day: int)
    requires NoReturn(Named(events)) && NotThisSeason(f, start)
    ensures var l := DayOf(Run(start, f, events), day);
            && l.real_.answered <= l.maxQuota + l.lost.answered
            && l.real_.sent <= ATTEMPTS_PER_REQUEST * l.maxQuota + l.lost.sent
            && AtMost(l.lost, l.unsaved)
  {
    RunKeeps(start, f, events);
  }

  lemma {:induction false} NothingUnsaved(start: int, f: File, events: seq<Event>, day: int)
    requires AllSaved(events)
    ensures DayOf(Run(start, f, events), day).unsaved == Count(0, 0)
  {
    if events != [] {
      var pre, e := events[..|events| - 1], events[|events| - 1];
      NothingUnsaved(start, f, pre, day);
      UnsavedStep(Run(start, f, pre), start, e, day);
    }
  }

  lemma {:induction false} UnsavedStep(w: World, start: int, e: Event, day: int)
    requires e.Status? ==> e.fate.Saved?
    ensures DayOf(Next(w, start, e), day).unsaved == DayOf(w, day).unsaved
  {
  }

  ghost predicate AllSaved(events: seq<Event>) { forall e | e in events && e.Status? :: e.fate.Saved? }

  /** The day's answers within its number, and its requests within three times it. */
  predicate Within(l: Ledger) {
    l.real_.answered <= l.maxQuota && l.real_.sent <= ATTEMPTS_PER_REQUEST * l.maxQuota
  }

  /** When every count is saved, restarts at any other moment add nothing. */
  lemma {:induction false} SavedDaysNeverExceed(start: int, f: File, events: seq<Event>, day: int)
    requires NoReturn(Named(events)) && NotThisSeason(f, start) && AllSaved(events)
    ensures Within(DayOf(Run(start, f, events), day))
  {
    DayNumberHolds(start, f, events, day);
    NothingUnsaved(start, f, events, day);
  }

  /** The largest number in force on a day is one a status named for it. */
  lemma {:induction false} QuotaWasNamed(start: int, f: File, events: seq<Event>, day: int)
    ensures var q := DayOf(Run(start, f, events), day).maxQuota;
            q > 0 ==> exists i :: 0 <= i < |events| && events[i].Status? && events[i].day == day && events[i].quota == q
  {
    if events != [] {
      var pre, e := events[..|events| - 1], events[|events| - 1];
      QuotaWasNamed(start, f, pre, day);
      var q, before := DayOf(Run(start, f, events), day).maxQuota, DayOf(Run(start, f, pre), day).maxQuota;
      QuotaStep(Run(start, f, pre), start, e, day);
      hide Next;
      if q > 0 && q == before {
        var i :| 0 <= i < |pre| && pre[i].Status? && pre[i].day == day && pre[i].quota == q;
        assert events[i] == pre[i];
      }
    }
  }

  lemma {:induction false} QuotaStep(w: World, start: int, e: Event, day: int)
    ensures var q, before := DayOf(Next(w, start, e), day).maxQuota, DayOf(w, day).maxQuota;
            q == before || (e.Status? && e.day == day && q == e.quota)
  {
  }

  // ---------------------------------------------------------------- the process and its file

  lemma {:induction false} SentShape(w: World, start: int, p: Process, reply: Reply, fate: Fate)
    requires p.running
    ensures var v, count := Sent(w, start, p, reply, fate), Count(p.count.sent + 1, p.count.answered + Counted(reply));
            && v.p == Process(!fate.Stopped?, p.day, count, p.quota)
            && v.f == if fate.Saved? then Holds(start, p.day, count.sent, count.answered) else w.f
  {
    hide Lose, DayOf, Counted;
  }

  class GeneratorProcess {
    const start: int
    var running: bool
    var daySeen: int
    var sent: int
    var served: int
    var quota: int
    var nextAt: real
    var file: File
    ghost var days: map<int, Ledger>

    ghost function Value(): World
      reads this
    {
      World(Process(running, daySeen, Count(sent, served), quota), file, days)
    }

    constructor (start: int, file: File)
      ensures this.start == start && Value() == World(FRESH, file, map[])
    {
      this.start, running, daySeen, sent, served, quota, nextAt := start, true, -1, 0, 0, 0, 0.0;
      this.file, days := file, map[];
    }

    /** A new process: everything but the file is forgotten, and the next request is due at once. */
    method Start(now: real)
      modifies this
      ensures Value() == Next(old(Value()), start, Restart)
    {
      days := Next(Value(), start, Restart).days;
      running, daySeen, sent, served, quota, nextAt := true, -1, 0, 0, 0, now;
    }

    /** The day and its number as the status names them; a new day's counts come from the file. */
    method ReadDay(day: nat, today: nat) returns (ok: bool)
      requires running
      modifies this
      ensures file == old(file) && days == old(days) && nextAt == old(nextAt) && (ok ==> running)
      ensures var read := OnDay(old(Value()).p, file, start, day, today);
              && ok == read.Ok?
              && Value().p == if ok then read.value else old(Value()).p.(running := false)
    {
      if day != daySeen {
        var c := LoadSent(file, start, day);
        if c.Refused? {
          running := false;
          return false;
        }
        sent, served, daySeen := c.value.sent, c.value.answered, day;
      }
      quota := today;
      return true;
    }

    /** One request sent, counted, and its count saved or not. */
    method Send(reply: Reply, fate: Fate)
      requires running
      modifies this
      ensures Value() == Sent(old(Value()), start, old(Value()).p, reply, fate) && nextAt == old(nextAt)
    {
      hide Sent, Counted, DayOf;
      ghost var next := Sent(Value(), start, Value().p, reply, fate);
      SentShape(Value(), start, Value().p, reply, fate);
      sent := sent + 1;
      served := served + Counted(reply);
      days := next.days;
      if fate.Saved? {
        file := Holds(start, daySeen, sent, served);
      } else if fate.Stopped? {
        running := false;
      }
      assert Value().p == next.p && file == next.f;
    }

    /** One turn of the loop at the time `now`, on a status that names the day and a known set: the request is due from
        the time the last one set, and from now on a new day. */
    method Turn(day: nat, today: nat, now: real, height: int, timeLeft: Option<real>, reply: Reply, fate: Fate)
      requires running
      modifies this
      ensures var due := day != old(daySeen) || now >= old(nextAt);
              Value() == Next(old(Value()), start, Status(day, today, due, reply, fate))
      ensures var read := OnDay(old(Value()).p, old(file), start, day, today);
              var due := day != old(daySeen) || now >= old(nextAt);
              read.Ok? && Sends(read.value, due) ==>
                Some(nextAt - now) == Spacing(today, read.value.count.answered, height, start, timeLeft)
    {
      hide Sent, Span;
      if day != daySeen { nextAt := now; }
      var ok := ReadDay(day, today);
      if ok {
        days := Seen(old(Value()), Value().p, today).days;
        var spacing := Spacing(quota, served, height, start, timeLeft);
        if sent < ATTEMPTS_PER_REQUEST * quota && spacing.Some? && now >= nextAt {
          nextAt := now + spacing.value;
          Send(reply, fate);
        }
      }
    }
  }

  // ---------------------------------------------------------------- exactly when the bound holds

  /** How often `d` is named after another day, or first. */
  function Visits(days: seq<nat>, d: int): nat {
    if days == [] then 0
    else
      var pre, last := days[..|days| - 1], days[|days| - 1];
      Visits(pre, d) + if last == d && Latest(pre) != d then 1 else 0
  }

  lemma {:induction false} VisitedIsNamed(days: seq<nat>, d: int)
    ensures Visits(days, d) > 0 <==> d in SeenIn(days)
  {
    if days != [] {
      VisitedIsNamed(days[..|days| - 1], d);
      SeenNext(days);
    }
  }

  lemma {:induction false} ReturnFound(days: seq<nat>, d: int) returns (i: nat)
    requires d in SeenIn(days) && Latest(days) != d
    ensures i < |days| - 1 && days[i] == d
  {
    i :| 0 <= i < |days| && days[i] == d;
  }

  /** No day is returned to exactly when each is visited at most once. */
  lemma {:induction false} NoReturnVisits(days: seq<nat>)
    ensures NoReturn(days) <==> forall d :: Visits(days, d) <= 1
  {
    if days != [] {
      var pre, last := days[..|days| - 1], days[|days| - 1];
      NoReturnVisits(pre);
      VisitedIsNamed(pre, last);
      assert forall i | 0 <= i < |pre| :: pre[i] == days[i];
      assert forall d | d != last :: Visits(days, d) == Visits(pre, d);
      if last in SeenIn(pre) && Latest(pre) != last {
        var i := ReturnFound(pre, last);
        assert days[i] == last && days[|days| - 2] != last && days[|days| - 1] == last;
        assert Visits(days, last) == Visits(pre, last) + 1;
      } else if NoReturn(pre) {
        NoReturnGrows(days);
        forall d ensures Visits(days, d) <= 1 { assert Visits(pre, d) <= 1; }
      } else {
        var d :| Visits(pre, d) > 1;
        assert Visits(days, d) > 1;
        NoReturnShrinks(days);
      }
    }
  }

  lemma {:induction false} NoReturnGrows(days: seq<nat>)
    requires days != [] && NoReturn(days[..|days| - 1])
    requires var pre, last := days[..|days| - 1], days[|days| - 1]; last !in SeenIn(pre) || Latest(pre) == last
    ensures NoReturn(days)
  {
    var pre, last := days[..|days| - 1], days[|days| - 1];
    forall i, j, k | 0 <= i < j < k < |days| && days[i] == days[k] ensures days[j] == days[k] {
      assert pre[i] == days[i] && pre[j] == days[j];
      if k < |pre| {
        assert pre[k] == days[k];
      } else {
        assert pre[i] as int in SeenIn(pre);
        assert pre[|pre| - 1] == last;
        assert j < |pre| - 1 ==> pre[j] == pre[|pre| - 1];
      }
    }
  }

  lemma {:induction false} NoReturnShrinks(days: seq<nat>)
    requires days != []
    ensures NoReturn(days) ==> NoReturn(days[..|days| - 1])
  {
    var pre := days[..|days| - 1];
    assert forall i | 0 <= i < |pre| :: pre[i] == days[i];
  }

  /** A status that asks for one request, which is due, answered and saved. */
  function Eager(day: nat): Event { Status(day, 1, true, Answered, Saved) }

  function AllEager(days: seq<nat>): seq<Event> {
    if days == [] then [] else AllEager(days[..|days| - 1]) + [Eager(days[|days| - 1])]
  }

  lemma {:induction false} EagerNamed(days: seq<nat>)
    ensures Named(AllEager(days)) == days && AllSaved(AllEager(days))
  {
    if days != [] {
      var pre, last := days[..|days| - 1], days[|days| - 1];
      EagerNamed(pre);
      assert AllEager(days)[..|AllEager(days)| - 1] == AllEager(pre);
      assert days == pre + [last];
    }
  }

  lemma {:induction false} EagerDays(w: World, start: int, p: Process, d: int)
    requires DayOf(w, p.day).maxQuota <= 1
    ensures var l := DayOf(w, d);
            DayOf(Sent(Seen(w, p, 1), start, p, Answered, Saved), d) ==
            if d == p.day then l.(real_ := Plus(l.real_, Count(1, 1)), maxQuota := 1) else l
  {
  }

  /** One request answered and saved on a day that the process does not work on and the file does not hold. */
  lemma {:induction false} FirstOfDay(w: World, start: int, day: nat)
    requires w.p.running && w.p.day != day && LoadSent(w.f, start, day) == Ok(Count(0, 0)) &&
             DayOf(w, day).maxQuota <= 1
    ensures var v, l := Next(w, start, Eager(day)), DayOf(w, day);
            && v.p == Process(true, day, Count(1, 1), 1) && v.f == Holds(start, day, 1, 1)
            && DayOf(v, day) == l.(real_ := Plus(l.real_, Count(1, 1)), maxQuota := 1)
            && forall d | d != day :: DayOf(v, d) == DayOf(w, d)
  {
    hide Seen, Sent;
    var p := Process(true, day, Count(0, 0), 1);
    var v := Sent(Seen(w, p, 1), start, p, Answered, Saved);
    assert Next(w, start, Eager(day)) == v;
    hide Next;
    SentShape(Seen(w, p, 1), start, p, Answered, Saved);
    forall d { EagerDays(w, start, p, d); }
  }

  /** The number reached, a further status of the same day sends nothing. */
  lemma {:induction false} AgainOnDay(w: World, start: int, day: nat)
    requires w.p == Process(true, day, Count(1, 1), 1) && DayOf(w, day).maxQuota == 1
    ensures var v := Next(w, start, Eager(day)); v.p == w.p && v.f == w.f && forall d :: DayOf(v, d) == DayOf(w, d)
  {
  }

  /** After eager statuses for `days`, everything is saved and each day was sent its number once per visit. */
  ghost predicate SentPerVisit(w: World, start: int, days: seq<nat>) {
    && (if days == [] then w.p == FRESH && w.f == NoFile
        else w.p == Process(true, Latest(days), Count(1, 1), 1) && w.f == Holds(start, Latest(days), 1, 1))
    && forall d :: DayOf(w, d).real_.answered == Visits(days, d) &&
         DayOf(w, d).maxQuota == if Visits(days, d) > 0 then 1 else 0
  }

  /** A day named again after another is sent its whole number again, everything saved and nothing restarted. */
  lemma {:induction false} EachVisitSends(start: int, days: seq<nat>)
    ensures SentPerVisit(Run(start, NoFile, AllEager(days)), start, days)
  {
    if days != [] {
      var pre, last := days[..|days| - 1], days[|days| - 1];
      EachVisitSends(start, pre);
      assert AllEager(days)[..|AllEager(days)| - 1] == AllEager(pre);
      EagerStep(Run(start, NoFile, AllEager(pre)), start, days);
    }
  }

  lemma {:induction false} VisitsNext(days: seq<nat>, d: int)
    requires days != []
    ensures var pre, last := days[..|days| - 1], days[|days| - 1];
            && Visits(days, d) == Visits(pre, d) + (if last == d && Latest(pre) != d then 1 else 0)
            && (pre != [] ==> Visits(pre, Latest(pre)) > 0)
  {
    var pre := days[..|days| - 1];
    if pre != [] {
      LatestSeen(pre);
      VisitedIsNamed(pre, Latest(pre));
    }
  }

  lemma {:induction false} EagerStep(w: World, start: int, days: seq<nat>)
    requires days != [] && SentPerVisit(w, start, days[..|days| - 1])
    ensures SentPerVisit(Next(w, start, Eager(days[|days| - 1])), start, days)
  {
    var pre, last := days[..|days| - 1], days[|days| - 1];
    forall d ensures Visits(days, d) == Visits(pre, d) + if last == d && Latest(pre) != d then 1 else 0 {
      VisitsNext(days, d);
    }
    VisitsNext(days, last);
    hide Visits, Next, DayOf;
    if Latest(pre) == last {
      assert Visits(pre, last) > 0;
      AgainOnDay(w, start, last);
    } else {
      FirstOfDay(w, start, last);
    }
  }

  lemma {:induction false} LatestSeen(days: seq<nat>)
    requires days != []
    ensures Latest(days) in SeenIn(days)
  {
    SeenNext(days);
  }

  /** Over every run that names these days, every count saved, no day exceeds its number. */
  ghost predicate KeepsNumbers(days: seq<nat>) {
    forall start: int, f: File, events: seq<Event>, day: int |
      NotThisSeason(f, start) && Named(events) == days && AllSaved(events) :: Within(DayOf(Run(start, f, events), day))
  }

  /** Main result: with every count saved, the day's number holds over every run that names the days `days` if and only
      if no day is named again after another was. */
  lemma {:induction false} NumbersHoldExactlyWhen(days: seq<nat>)
    ensures KeepsNumbers(days) <==> NoReturn(days)
  {
    if NoReturn(days) {
      forall start: int, f: File, events: seq<Event>, day: int |
        NotThisSeason(f, start) && Named(events) == days && AllSaved(events)
        ensures Within(DayOf(Run(start, f, events), day))
      {
        SavedDaysNeverExceed(start, f, events, day);
      }
    } else {
      NoReturnVisits(days);
      var d :| Visits(days, d) > 1;
      EachVisitSends(0, days);
      EagerNamed(days);
      hide Run, Visits, Named, AllSaved, AllEager;
      assert !Within(DayOf(Run(0, NoFile, AllEager(days)), d));
    }
  }

  // ---------------------------------------------------------------- what a day sends

  /** The event is a restart, or a status of this day and number whose request, if one is sent, is counted and saved. */
  predicate OfDay(e: Event, day: nat, quota: nat) {
    e.Status? ==> e.day == day && e.quota == quota && e.fate == Saved
  }

  /** What the due statuses would come to, in order. */
  function Replies(events: seq<Event>): seq<Reply> {
    if events == [] then []
    else
      var pre, e := Replies(events[..|events| - 1]), events[|events| - 1];
      if e.Status? && e.due then pre + [e.reply] else pre
  }

  /** How many of the replies are answers, confirmed or not. */
  function Answers(rs: seq<Reply>): nat {
    if rs == [] then 0 else Answers(rs[..|rs| - 1]) + if rs[|rs| - 1] == NotAnswered then 0 else 1
  }

  /** The day sends the first `m` of the due requests: as long as fewer than its number are answered and fewer than
      three times its number sent, and no longer. */
  ghost predicate SendsFirst(rs: seq<Reply>, quota: nat, m: nat) {
    && m <= |rs|
    && (forall n | 0 <= n < m :: MayStill(rs, quota, n))
    && (m < |rs| ==> !MayStill(rs, quota, m))
  }

  predicate MayStill(rs: seq<Reply>, quota: nat, n: nat)
    requires n <= |rs|
  {
    n < 3 * quota && Answers(rs[..n]) < quota
  }

  /** The process and the file both stand at `c` on the day, and so does what was really sent. */
  ghost predicate StandsAt(w: World, start: int, day: nat, c: Count) {
    && w.p.running && (w.p.day == -1 || w.p.day == day) && (w.p.day == day ==> w.p.count == c)
    && LoadSent(w.f, start, day) == Ok(c) && DayOf(w, day).real_ == c
  }

  lemma {:induction false} RestartStands(w: World, start: int, day: nat, c: Count)
    requires StandsAt(w, start, day, c)
    ensures StandsAt(Restarted(w, start), start, day, c)
  {
  }

  lemma {:induction false} StatusStands(w: World, start: int, e: Event, day: nat, quota: nat, c: Count)
    requires StandsAt(w, start, day, c) && OfDay(e, day, quota) && e.Status? && 0 <= c.answered <= c.sent
    ensures var sends := e.due && c.sent < 3 * quota && c.answered < quota;
            StandsAt(Next(w, start, e), start, day,
                     if sends then Count(c.sent + 1, c.answered + if e.reply == NotAnswered then 0 else 1) else c)
  {
    var p := Process(true, day, c, quota);
    assert OnDay(w.p, w.f, start, day, quota) == Ok(p);
    var seen := Seen(w, p, quota);
    assert DayOf(seen, day).real_ == c;
    SentShape(seen, start, p, e.reply, Saved);
    hide Sent, LoadSent;
    if Sends(p, e.due) { SentReal(seen, start, p, e.reply); }
  }

  lemma {:induction false} SentReal(w: World, start: int, p: Process, reply: Reply)
    requires p.running && 0 <= p.count.answered <= p.count.sent
    ensures var v, c := Sent(w, start, p, reply, Saved), Plus(p.count, OneRequest(reply));
            && v.p == p.(count := c) && LoadSent(v.f, start, p.day) == Ok(c)
            && DayOf(v, p.day).real_ == Plus(DayOf(w, p.day).real_, OneRequest(reply))
  {
    SentShape(w, start, p, reply, Saved);
    SentLedger(w, start, p, reply);
    hide Sent, DayOf;
  }

  lemma {:induction false} SentLedger(w: World, start: int, p: Process, reply: Reply)
    ensures DayOf(Sent(w, start, p, reply, Saved), p.day).real_ == Plus(DayOf(w, p.day).real_, OneRequest(reply))
  {
    hide Lose, Counted, Plus, OneRequest;
  }

  lemma {:induction false} SendsMore(rs: seq<Reply>, r: Reply, quota: nat, m: nat)
    requires SendsFirst(rs, quota, m)
    ensures var more := m == |rs| && m < 3 * quota && Answers(rs[..m]) < quota;
            SendsFirst(rs + [r], quota, if more then m + 1 else m) && (rs + [r])[..m] == rs[..m]
            && (more ==> Answers((rs + [r])[..m + 1]) == Answers(rs[..m]) + if r == NotAnswered then 0 else 1)
  {
    var all := rs + [r];
    forall n | 0 <= n <= |rs| ensures MayStill(all, quota, n) <==> MayStill(rs, quota, n) {
      assert all[..n] == rs[..n];
    }
    assert all[..m] == rs[..m];
    assert all[..|rs| + 1] == all && all[..|rs|] == rs && rs[..|rs|] == rs;
  }

  lemma {:induction false} SentAtLeast(rs: seq<Reply>, m: nat)
    requires m <= |rs|
    ensures 0 <= Answers(rs[..m]) <= m
  {
    if m > 0 {
      SentAtLeast(rs, m - 1);
      assert rs[..m][..m - 1] == rs[..m - 1];
    }
  }

  /** Main result: on a day whose number does not change, over any replies and any restarts, every count saved, the
      requests really sent are the due ones up to the first moment at which the number is answered or three times it
      sent, and all of them when that moment does not come. */
  lemma {:induction false} SendsUntilTheNumber(start: int, f: File, day: nat, quota: nat, events: seq<Event>)
      returns (m: nat)
    requires LoadSent(f, start, day) == Ok(Count(0, 0)) && forall e | e in events :: OfDay(e, day, quota)
    ensures var w, rs := Run(start, f, events), Replies(events);
            && SendsFirst(rs, quota, m) && DayOf(w, day).real_ == Count(m, Answers(rs[..m]))
            && StandsAt(w, start, day, Count(m, Answers(rs[..m])))
  {
    if events == [] {
      m := 0;
    } else {
      var pre, e := events[..|events| - 1], events[|events| - 1];
      assert e in events && forall x | x in pre :: x in events;
      m := SendsUntilTheNumber(start, f, day, quota, pre);
      hide StandsAt, Next, OfDay, LoadSent, SendsFirst, Answers;
      var w, rs := Run(start, f, pre), Replies(pre);
      assert m <= |rs| by { FirstAtMost(rs, quota, m); }
      var c := Count(m, Answers(rs[..m]));
      if e.Restart? {
        RestartStands(w, start, day, c);
        RestartNext(w, start);
      } else {
        SentAtLeast(rs, m);
        StatusStands(w, start, e, day, quota, c);
        if e.due {
          SendsMore(rs, e.reply, quota, m);
          SendsStopped(rs, quota, m);
          if m == |rs| && m < 3 * quota && Answers(rs[..m]) < quota { m := m + 1; }
        }
      }
      StandsReal(Run(start, f, events), start, day, Count(m, Answers(Replies(events)[..m])));
    }
  }

  lemma {:induction false} RestartNext(w: World, start: int)
    ensures Next(w, start, Restart) == Restarted(w, start)
  {
  }

  lemma {:induction false} FirstAtMost(rs: seq<Reply>, quota: nat, m: nat)
    requires SendsFirst(rs, quota, m)
    ensures m <= |rs|
  {
  }

  lemma {:induction false} SendsStopped(rs: seq<Reply>, quota: nat, m: nat)
    requires SendsFirst(rs, quota, m)
    ensures m < |rs| ==> !(m < 3 * quota && Answers(rs[..m]) < quota)
  {
  }

  lemma {:induction false} StandsReal(w: World, start: int, day: nat, c: Count)
    requires StandsAt(w, start, day, c)
    ensures DayOf(w, day).real_ == c
  {
  }

  /** What a status of a day finds: the process's own counts on the day it works on; on another, those of a file of this
      season and day, none with no file or another's; and it stops on a file that cannot be read, or whose counts of the
      day are not counts. */
  lemma {:induction false} FindsExactly(p: Process, f: File, start: int, day: int, quota: nat)
    ensures var r := OnDay(p, f, start, day, quota);
            && (r.Refused? <==>
                  && day != p.day
                  && (f == Unreadable || exists s, a :: f == Holds(start, day, s, a) && !(0 <= a && a <= s)))
            && (r.Ok? ==>
                  && r.value.day == day && r.value.quota == quota
                  && (day == p.day ==> r.value.count == p.count)
                  && (forall s, a | day != p.day && f == Holds(start, day, s, a) :: r.value.count == Count(s, a))
                  && (day != p.day && (forall s, a :: f != Holds(start, day, s, a)) ==> r.value.count == Count(0, 0)))
  {
    if f.Holds? && f.start == start && f.day == day { assert f == Holds(start, day, f.sent, f.answered); }
  }

  /** The span is five seconds for each block left until the day's first block after this one, or the time left when
      that is shorter. */
  lemma {:induction false} SpanExactly(height: int, start: int, timeLeft: Option<real>) returns (n: nat)
    ensures 1 <= n <= 17_280 && ((if height < start then start else height) - start + n) % 17_280 == 0
    ensures var blocks := 5.0 * n as real;
            && (timeLeft.None? ==> Span(height, start, timeLeft) == blocks)
            && (timeLeft.Some? && timeLeft.value <= 0.0 ==> Span(height, start, timeLeft) == 0.0)
            && (timeLeft.Some? && 0.0 <= timeLeft.value <= blocks ==> Span(height, start, timeLeft) == timeLeft.value)
            && (timeLeft.Some? && timeLeft.value >= blocks ==> Span(height, start, timeLeft) == blocks)
  {
    var since := if height < start then 0 else height - start;
    n := 17_280 - since % 17_280;
    assert since + n == (since / 17_280 + 1) * 17_280;
  }
}
