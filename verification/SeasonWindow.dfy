/** The season's blocks: the last block before the end, found by a binary search over header times; the blocks of a
    day, cut there; and the first full day after a registration. */
module SeasonWindow {
  import opened Wrappers
  import opened SeasonRules

  const NANOS: int := 1_000_000_000

  /** The header time of each height, in nanoseconds. */
  type Times = int -> int

  /** Header times are read in whole seconds, the fraction dropped. */
  function BlockTime(t: Times, h: int): int { t(h) / NANOS }

  /** The block's own time is before the end, which is a whole second. */
  predicate BeforeEnd(t: Times, end: int, h: int) { t(h) < end * NANOS }

  ghost predicate NeverDecreases(t: Times, lo: int, hi: int) {
    forall a, b | lo <= a <= b <= hi :: t(a) <= t(b)
  }

  /** Dropping the fraction loses nothing against a whole second. */
  lemma {:induction false} WholeSeconds(t: Times, end: int, h: int)
    ensures BlockTime(t, h) < end <==> BeforeEnd(t, end, h)
  {
  }

  /** The greatest height of `[lo, hi]` before the end, `lo - 1` when there is none; refused while the end is not
      passed. */
  method SeasonEndHeight(t: Times, end: int, lo: int, hi: int) returns (r: Result<int>)
    requires NeverDecreases(t, lo, hi)
    ensures r.Refused? <==> BeforeEnd(t, end, hi)
    ensures r.Ok? ==> lo - 1 <= r.value && (r.value < hi || hi < lo)
    ensures r.Ok? ==> forall h | lo <= h <= hi :: h <= r.value <==> BeforeEnd(t, end, h)
  {
    WholeSeconds(t, end, hi);
    if BlockTime(t, hi) < end {
      return Refused;
    }
    var a, b := lo - 1, hi;
    while b - a > 1
      invariant lo - 1 <= a && b <= hi && (a < b || hi < lo)
      invariant a >= lo ==> a <= hi && BeforeEnd(t, end, a)
      invariant !BeforeEnd(t, end, b)
      decreases b - a
    {
      var m := (a + b) / 2;
      WholeSeconds(t, end, m);
      if BlockTime(t, m) < end { a := m; } else { b := m; }
    }
    return Ok(a);
  }

  // ---------------------------------------------------------------- the blocks of a day

  datatype Window = Window(first: int, last: int)

  predicate Within(w: Window, h: int) { w.first <= h <= w.last }

  function DayOfHeight(h: int, start: int, dayBlocks: int): int
    requires dayBlocks > 0
  {
    if h < start then -1 else (h - start) / dayBlocks
  }

  /** The first and last block of a day; a day that starts after the season's last block is refused. */
  function DayBounds(day: int, start: int, dayBlocks: int, end: Option<int>): Result<Window> {
    var first := start + day * dayBlocks;
    var last := first + dayBlocks - 1;
    if end.None? then Ok(Window(first, last))
    else if first > end.value then Refused
    else Ok(Window(first, if end.value < last then end.value else last))
  }

  /** Block `h` lies in the window of `day`. */
  predicate InDay(day: int, start: int, dayBlocks: int, end: Option<int>, h: int) {
    DayBounds(day, start, dayBlocks, end).Ok? && Within(DayBounds(day, start, dayBlocks, end).value, h)
  }

  lemma {:induction false} WholeMultiple(k: int, d: int)
    requires d > 0
    ensures k >= 1 ==> k * d >= d
    ensures k <= -1 ==> k * d <= -d
  {
  }

  lemma {:induction false} QuotientUnique(x: int, d: int, q: int)
    requires d > 0 && q * d <= x < q * d + d
    ensures x / d == q
  {
    assert x == (x / d) * d + x % d;
    var gap := x / d - q;
    assert gap * d == (x / d) * d - q * d;
    assert -d < gap * d < d;
    WholeMultiple(gap, d);
  }

  /** A block lies in the window of a day exactly when that day is its day and it is not past the cut. */
  lemma {:induction false} InDayExactly(day: int, start: int, dayBlocks: int, end: Option<int>, h: int)
    requires dayBlocks > 0 && start <= h
    ensures InDay(day, start, dayBlocks, end, h) <==>
            day == DayOfHeight(h, start, dayBlocks) && (end.Some? ==> h <= end.value)
  {
    var x := h - start;
    assert x == (x / dayBlocks) * dayBlocks + x % dayBlocks;
    if day * dayBlocks <= x < day * dayBlocks + dayBlocks { QuotientUnique(x, dayBlocks, day); }
  }

  /** Windows of different days share no block. */
  lemma {:induction false} WindowsApart(d: int, e: int, start: int, dayBlocks: int, h: int)
    requires dayBlocks > 0
    requires InDay(d, start, dayBlocks, None, h) && InDay(e, start, dayBlocks, None, h)
    ensures d == e
  {
    QuotientUnique(h - start, dayBlocks, d);
    QuotientUnique(h - start, dayBlocks, e);
  }

  /** Main result: with the days cut at the searched height, every block from the start on lies in exactly one day
      when its time is before the end, and in none otherwise. */
  lemma {:induction false} OneDayIffBeforeEnd(t: Times, end: int, start: int, hi: int, cut: int, dayBlocks: int, h: int,
                                              day: int)
    requires dayBlocks > 0 && start <= h <= hi && start - 1 <= cut
    requires forall k | start <= k <= hi :: k <= cut <==> BeforeEnd(t, end, k)
    ensures InDay(day, start, dayBlocks, Some(cut), h) <==>
            BeforeEnd(t, end, h) && day == DayOfHeight(h, start, dayBlocks)
  {
    InDayExactly(day, start, dayBlocks, Some(cut), h);
  }

  /** The search and the days together. */
  method SeasonDays(t: Times, end: int, start: int, hi: int, dayBlocks: int) returns (r: Result<int>)
    requires NeverDecreases(t, start, hi) && dayBlocks > 0
    ensures r.Refused? <==> BeforeEnd(t, end, hi)
    ensures r.Ok? ==> forall h, day | start <= h <= hi ::
              InDay(day, start, dayBlocks, Some(r.value), h) <==>
                BeforeEnd(t, end, h) && day == DayOfHeight(h, start, dayBlocks)
  {
    r := SeasonEndHeight(t, end, start, hi);
    if r.Ok? {
      forall h, day | start <= h <= hi
        ensures InDay(day, start, dayBlocks, Some(r.value), h) <==>
                BeforeEnd(t, end, h) && day == DayOfHeight(h, start, dayBlocks)
      {
        OneDayIffBeforeEnd(t, end, start, hi, r.value, dayBlocks, h, day);
      }
    }
  }

  // ---------------------------------------------------------------- the first full day

  datatype Registration = NotIndexed | NotDated | At(height: int)

  function FirstFullDay(reg: Registration, start: int, dayBlocks: int): Result<Option<int>>
    requires dayBlocks > 0
  {
    match reg
    case NotIndexed => Ok(Some(0))
    case NotDated => Ok(None)
    case At(h) =>
      if h < 0 then Refused
      else
        var d := DayOfHeight(h, start, dayBlocks) + 1;
        Ok(Some(if d < 0 then 0 else d))
  }

  lemma {:induction false} MulAtLeast(a: int, b: int, d: int)
    requires a <= b && d > 0
    ensures a * d <= b * d
  {
    assert (b - a) * d >= 0;
  }

  /** Main result: the first full day is the season's first day whose first block comes after the registration's. */
  lemma {:induction false} FirstFullDayIsFirst(h: int, start: int, dayBlocks: int, day: int)
    requires dayBlocks > 0 && h >= 0 && day >= 0
    ensures FirstFullDay(At(h), start, dayBlocks).Ok?
    ensures FirstFullDay(At(h), start, dayBlocks).value.Some?
    ensures start + day * dayBlocks > h <==> day >= FirstFullDay(At(h), start, dayBlocks).value.value
  {
    if h < start {
      MulAtLeast(0, day, dayBlocks);
    } else {
      var x := h - start;
      var q := x / dayBlocks;
      assert x == q * dayBlocks + x % dayBlocks;
      if day <= q { MulAtLeast(day, q, dayBlocks); } else {
        MulAtLeast(q + 1, day, dayBlocks);
        assert (q + 1) * dayBlocks == q * dayBlocks + dayBlocks;
      }
    }
  }
}
