/** Where each unwound job came from, read from the block events through a cache that survives refreshes: a scan
    that resumes where it stopped, bounded in pages, that may fail at any call, and whose answers must not depend
    on what the cache already held. */
module UnwindOrigin {
  import opened Wrappers
  import opened Ordering
  import opened StateMarkers

  /** The events of one block the reader uses: the `unwound` counts of the no-seed loop, the jobs unwound, and the
      jobs a lottery deferral names. */
  datatype Block = Block(counts: seq<nat>, unwoundIds: seq<string>, deferredIds: set<string>)

  /** Block h of a chain is `log[h - 1]`; the events of a block never change. */
  type Log = seq<Block>

  type ChainId = (string, string)

  datatype Job = Job(id: string, state: string)

  /** The markers of a job's state. */
  function Markers(state: string): set<string> { set m | m in Split(state) && m != "" }

  /** The chain unwound the job's audit. */
  predicate UnwoundJob(j: Job) { {"resolved", "unwound"} <= Markers(j.state) }

  datatype Origin = Origin(noseed: set<string>, drawn: set<string>, unknown: set<string>)

  const ORIGIN_CACHE_MAX_IDS: nat := 200000
  const PER_PAGE: nat := 100

  // ---------------------------------------------------------------- what a full scan says

  function NoSeedOf(b: Block): set<string> {
    if Sum(b.counts) > 0 then set id | id in b.unwoundIds else {}
  }

  /** The jobs unwound by the no-seed loop at or below height `h`. */
  function NoSeedIds(log: Log, h: nat): set<string>
    requires h <= |log|
  {
    if h == 0 then {} else NoSeedIds(log, h - 1) + NoSeedOf(log[h - 1])
  }

  predicate DeferredBy(log: Log, id: string, h: nat)
    requires h <= |log|
  {
    exists g | 0 <= g < h :: id in log[g].deferredIds
  }

  predicate Unquotable(id: string) {
    exists c | c in id :: c == '\'' || c == '\"' || c == '\\' || c < ' ' || c as int == 127
  }

  function Undisputed(jobs: seq<Job>): set<string> {
    set j | j in jobs && UnwoundJob(j) && "disputed" !in Markers(j.state) :: j.id
  }

  function UnwoundCount(jobs: seq<Job>): nat {
    if jobs == [] then 0
    else UnwoundCount(jobs[..|jobs| - 1]) + (if UnwoundJob(jobs[|jobs| - 1]) then 1 else 0)
  }

  /** The answer of a one-shot scan of the chain up to `h`, from nothing, about the jobs the listing shows. */
  function OriginAt(log: Log, undisputed: set<string>, h: nat): Origin
    requires h <= |log|
  {
    var noseed := NoSeedIds(log, h);
    Origin(noseed, DrawnAmong(log, noseed * undisputed, h), UnknownAmong(noseed * undisputed))
  }

  function DrawnAmong(log: Log, ids: set<string>, h: nat): set<string>
    requires h <= |log|
  {
    set j | j in ids && !Unquotable(j) && DeferredBy(log, j, h)
  }

  function UnknownAmong(ids: set<string>): set<string> { set j | j in ids && Unquotable(j) }

  /** No deferral names a job after it was unwound. */
  ghost predicate DeferralsPrecede(log: Log) {
    forall g, h, id | 0 <= g < h < |log| && id in log[g].unwoundIds :: id !in log[h].deferredIds
  }

  lemma {:induction false} NoSeedFound(log: Log, h: nat, id: string)
    requires h <= |log| && id in NoSeedIds(log, h)
    ensures exists g | 0 <= g < h :: id in log[g].unwoundIds
  {
    if id !in NoSeedOf(log[h - 1]) { NoSeedFound(log, h - 1, id); }
  }

  lemma {:induction false} NoSeedGrows(log: Log, lo: nat, hi: nat)
    requires lo <= hi <= |log|
    ensures NoSeedIds(log, lo) <= NoSeedIds(log, hi)
  {
    if lo < hi { NoSeedGrows(log, lo, hi - 1); }
  }

  /** A job already unwound is drawn at every later height or at none: what the cache learned of it stays. */
  lemma {:induction false} DrawnIsFinal(log: Log, id: string, h: nat, later: nat)
    requires h <= |log| && later <= |log| && DeferralsPrecede(log)
    requires id in NoSeedIds(log, h) && h <= later
    ensures DeferredBy(log, id, h) <==> DeferredBy(log, id, later)
  {
    NoSeedFound(log, h, id);
    var u :| 0 <= u < h && id in log[u].unwoundIds;
    if DeferredBy(log, id, later) {
      var g :| 0 <= g < later && id in log[g].deferredIds;
      assert g <= u;
    }
  }

  // ---------------------------------------------------------------- the search

  /** Whether the search condition holds of a block: some count above zero when the index compares numbers,
      otherwise any count at all. */
  predicate Matches(b: Block, numeric: bool) {
    if numeric then exists i | 0 <= i < |b.counts| :: b.counts[i] > 0 else b.counts != []
  }

  predicate MatchesAt(log: Log, numeric: bool, h: nat)
    requires 1 <= h <= |log|
  {
    Matches(log[h - 1], numeric)
  }

  /** The heights in (lo, hi] the search returns, ascending. */
  function Matching(log: Log, numeric: bool, lo: nat, hi: nat): seq<nat>
    requires hi <= |log|
  {
    if hi <= lo then []
    else Matching(log, numeric, lo, hi - 1) + (if MatchesAt(log, numeric, hi) then [hi] else [])
  }

  predicate Ascending(s: seq<nat>) { forall i, j | 0 <= i < j < |s| :: s[i] < s[j] }

  /** Ascending heights of (lo, hi] at which the condition holds. */
  ghost predicate Found(log: Log, numeric: bool, lo: nat, hi: nat, m: seq<nat>)
    requires hi <= |log|
  {
    Ascending(m) && forall i | 0 <= i < |m| :: lo < m[i] <= hi && MatchesAt(log, numeric, m[i])
  }

  lemma {:induction false} FoundNext(log: Log, numeric: bool, lo: nat, hi: nat, pre: seq<nat>)
    requires lo < hi <= |log| && Found(log, numeric, lo, hi - 1, pre)
    ensures Found(log, numeric, lo, hi, pre)
    ensures MatchesAt(log, numeric, hi) ==> Found(log, numeric, lo, hi, pre + [hi])
  {
    hide MatchesAt;
    var m := pre + [hi];
    assert m[|pre|] == hi && forall i | 0 <= i < |pre| :: m[i] == pre[i];
  }

  lemma {:induction false} MatchingAscends(log: Log, numeric: bool, lo: nat, hi: nat)
    requires hi <= |log|
    ensures Found(log, numeric, lo, hi, Matching(log, numeric, lo, hi))
  {
    hide MatchesAt;
    if hi > lo {
      MatchingAscends(log, numeric, lo, hi - 1);
      FoundNext(log, numeric, lo, hi, Matching(log, numeric, lo, hi - 1));
      hide Found;
    }
  }

  lemma {:induction false} SumPositive(counts: seq<nat>)
    ensures Sum(counts) > 0 <==> exists i | 0 <= i < |counts| :: counts[i] > 0
  {
    if counts != [] { SumPositive(counts[..|counts| - 1]); }
  }

  /** Both conditions leave out only blocks where the no-seed loop unwound nothing. */
  lemma {:induction false} UnmatchedAddsNothing(b: Block, numeric: bool)
    requires !Matches(b, numeric)
    ensures NoSeedOf(b) == {}
  {
    SumPositive(b.counts);
  }

  lemma {:induction false} MatchingComplete(log: Log, numeric: bool, lo: nat, hi: nat, h: nat)
    requires hi <= |log| && lo < h <= hi && MatchesAt(log, numeric, h)
    ensures h in Matching(log, numeric, lo, hi)
  {
    if h < hi { MatchingComplete(log, numeric, lo, hi - 1, h); }
  }

  /** Between two heights with no match in between, the scan learns nothing. */
  lemma {:induction false} GapAddsNothing(log: Log, numeric: bool, a: nat, b: nat)
    requires a <= b <= |log|
    requires forall h | a < h <= b :: !MatchesAt(log, numeric, h)
    ensures NoSeedIds(log, a) == NoSeedIds(log, b)
  {
    if a < b {
      assert !MatchesAt(log, numeric, b);
      UnmatchedAddsNothing(log[b - 1], numeric);
      GapAddsNothing(log, numeric, a, b - 1);
    }
  }

  /** Every block up to `h` names at least as many unwound jobs as its no-seed counts say. */
  ghost predicate SoundBlocks(log: Log, h: nat)
    requires h <= |log|
  {
    forall g | 0 <= g < h :: |log[g].unwoundIds| >= Sum(log[g].counts)
  }

  lemma {:induction false} GapIsSound(log: Log, numeric: bool, a: nat, b: nat)
    requires a <= b <= |log| && SoundBlocks(log, a)
    requires forall h | a < h <= b :: !MatchesAt(log, numeric, h)
    ensures SoundBlocks(log, b)
  {
    forall g | a <= g < b ensures |log[g].unwoundIds| >= Sum(log[g].counts) {
      assert !MatchesAt(log, numeric, g + 1);
      SumPositive(log[g].counts);
    }
  }

  /** The height the scan has reached once the first `n` heights of the search are read. */
  function ReachedAt(lo: nat, m: seq<nat>, n: nat): nat
    requires n <= |m|
  {
    if n == 0 then lo else m[n - 1]
  }

  lemma {:induction false} MatchIsLater(log: Log, numeric: bool, lo: nat, hi: nat, n: nat, h: nat)
    requires hi <= |log| && n <= |Matching(log, numeric, lo, hi)|
    requires ReachedAt(lo, Matching(log, numeric, lo, hi), n) < h <= hi && lo < h && MatchesAt(log, numeric, h)
    ensures n < |Matching(log, numeric, lo, hi)| && Matching(log, numeric, lo, hi)[n] <= h
  {
    var m := Matching(log, numeric, lo, hi);
    MatchingAscends(log, numeric, lo, hi);
    MatchingComplete(log, numeric, lo, hi, h);
    var i :| 0 <= i < |m| && m[i] == h;
    assert i >= n;
  }

  /** Reading one more height of the search is reading every block up to it. */
  lemma {:induction false} ScanStep(log: Log, numeric: bool, lo: nat, hi: nat, m: seq<nat>, n: nat)
    requires lo <= hi <= |log| && m == Matching(log, numeric, lo, hi) && n < |m|
    ensures lo <= ReachedAt(lo, m, n) < m[n] <= hi
    ensures NoSeedIds(log, m[n]) == NoSeedIds(log, ReachedAt(lo, m, n)) + NoSeedOf(log[m[n] - 1])
    ensures SoundBlocks(log, ReachedAt(lo, m, n)) ==> SoundBlocks(log, m[n] - 1)
  {
    MatchingAscends(log, numeric, lo, hi);
    var a, b := ReachedAt(lo, m, n), m[n] - 1;
    forall h | a < h <= b ensures !MatchesAt(log, numeric, h) {
      if MatchesAt(log, numeric, h) { MatchIsLater(log, numeric, lo, hi, n, h); }
    }
    GapAddsNothing(log, numeric, a, b);
    if SoundBlocks(log, a) { GapIsSound(log, numeric, a, b); }
  }

  lemma {:induction false} ScanEnd(log: Log, numeric: bool, lo: nat, hi: nat, m: seq<nat>)
    requires lo <= hi <= |log| && m == Matching(log, numeric, lo, hi)
    ensures lo <= ReachedAt(lo, m, |m|) <= hi
    ensures NoSeedIds(log, hi) == NoSeedIds(log, ReachedAt(lo, m, |m|))
    ensures SoundBlocks(log, ReachedAt(lo, m, |m|)) ==> SoundBlocks(log, hi)
  {
    MatchingAscends(log, numeric, lo, hi);
    var a := ReachedAt(lo, m, |m|);
    forall h | a < h <= hi ensures !MatchesAt(log, numeric, h) {
      if MatchesAt(log, numeric, h) { MatchIsLater(log, numeric, lo, hi, |m|, h); }
    }
    GapAddsNothing(log, numeric, a, hi);
    if SoundBlocks(log, a) { GapIsSound(log, numeric, a, hi); }
  }

  // ---------------------------------------------------------------- what the answer says

  /** Some no-seed loop of block `g` unwound a job, and `id` is among the jobs the block unwound. */
  ghost predicate UnwoundWithoutSeed(b: Block, id: string) {
    id in b.unwoundIds && exists i | 0 <= i < |b.counts| :: b.counts[i] > 0
  }

  /** The listing shows the job unwound and not disputed, by the markers of its state. */
  ghost predicate ListedUndisputed(jobs: seq<Job>, id: string) {
    exists n | 0 <= n < |jobs| ::
      && jobs[n].id == id && IsMarker(jobs[n].state, "resolved") && IsMarker(jobs[n].state, "unwound")
      && !IsMarker(jobs[n].state, "disputed")
  }

  /** A quote, a backslash or a control character. */
  predicate BreaksQuery(c: char) { c as int in {39, 34, 92, 127} || (c as int) < 32 }

  lemma {:induction false} NoSeedMeans(log: Log, h: nat, id: string)
    requires h <= |log|
    ensures id in NoSeedIds(log, h) <==> exists g | 0 <= g < h :: UnwoundWithoutSeed(log[g], id)
  {
    if h > 0 {
      NoSeedMeans(log, h - 1, id);
      SumPositive(log[h - 1].counts);
      assert id in NoSeedOf(log[h - 1]) <==> UnwoundWithoutSeed(log[h - 1], id);
    }
  }

  lemma {:induction false} MarkerHeld(state: string, m: string)
    requires m != ""
    ensures m in Markers(state) <==> IsMarker(state, m)
  {
    SplitFindsMarkers(state, m);
  }

  lemma {:induction false} UnwoundMeans(j: Job)
    ensures UnwoundJob(j) <==> IsMarker(j.state, "resolved") && IsMarker(j.state, "unwound")
    ensures "disputed" in Markers(j.state) <==> IsMarker(j.state, "disputed")
  {
    MarkerHeld(j.state, "resolved");
    MarkerHeld(j.state, "unwound");
    MarkerHeld(j.state, "disputed");
    hide IsMarker, Markers;
  }

  lemma {:induction false} UndisputedMeans(jobs: seq<Job>, id: string)
    ensures id in Undisputed(jobs) <==> ListedUndisputed(jobs, id)
  {
    forall n | 0 <= n < |jobs|
      ensures UnwoundJob(jobs[n]) <==> IsMarker(jobs[n].state, "resolved") && IsMarker(jobs[n].state, "unwound")
      ensures "disputed" in Markers(jobs[n].state) <==> IsMarker(jobs[n].state, "disputed")
    {
      UnwoundMeans(jobs[n]);
    }
    hide IsMarker, Markers, UnwoundJob;
    if id in Undisputed(jobs) {
      var j :| j in jobs && UnwoundJob(j) && "disputed" !in Markers(j.state) && j.id == id;
      var n :| 0 <= n < |jobs| && jobs[n] == j;
    }
    if ListedUndisputed(jobs, id) {
      var n :| 0 <= n < |jobs| && jobs[n].id == id && UnwoundJob(jobs[n]) && "disputed" !in Markers(jobs[n].state);
      assert jobs[n] in jobs;
    }
  }

  lemma {:induction false} UnquotableMeans(id: string)
    ensures Unquotable(id) <==> exists i | 0 <= i < |id| :: BreaksQuery(id[i])
  {
    forall c ensures BreaksQuery(c) <==> c == '\'' || c == '\"' || c == '\\' || c < ' ' || c as int == 127 {
      assert '\'' as int == 39 && '\"' as int == 34 && '\\' as int == 92 && ' ' as int == 32;
    }
    if i :| 0 <= i < |id| && BreaksQuery(id[i]) { assert id[i] in id; }
  }

  /** Main result: what each part of the answer says, on the events of the blocks and the states of the listing: which
      jobs a no-seed loop unwound, which of those the listing shows undisputed were drawn at all, and which of them no
      query can name. */
  lemma {:induction false} OriginMeans(log: Log, jobs: seq<Job>, h: nat, id: string)
    requires h <= |log|
    ensures var o := OriginAt(log, Undisputed(jobs), h);
            var breaks := exists i | 0 <= i < |id| :: BreaksQuery(id[i]);
            && (id in o.noseed <==> exists g | 0 <= g < h :: UnwoundWithoutSeed(log[g], id))
            && (id in o.drawn <==> && id in o.noseed && ListedUndisputed(jobs, id) && !breaks
                                   && exists g | 0 <= g < h :: id in log[g].deferredIds)
            && (id in o.unknown <==> id in o.noseed && ListedUndisputed(jobs, id) && breaks)
  {
    NoSeedMeans(log, h, id);
    UndisputedMeans(jobs, id);
    UnquotableMeans(id);
    hide NoSeedIds, Undisputed, ListedUndisputed, UnwoundWithoutSeed, Unquotable, BreaksQuery;
  }

  /** The number the positive control compares: the jobs of the listing whose audit was unwound. */
  lemma {:induction false} UnwoundCountMeans(jobs: seq<Job>)
    ensures UnwoundCount(jobs) == |set n | 0 <= n < |jobs| && UnwoundJob(jobs[n])|
  {
    hide UnwoundJob;
    if jobs != [] {
      var m := |jobs| - 1;
      var pre := jobs[..m];
      UnwoundCountMeans(pre);
      var a, b := set n | 0 <= n < |pre| && UnwoundJob(pre[n]), set n | 0 <= n < |jobs| && UnwoundJob(jobs[n]);
      assert b == a + if UnwoundJob(jobs[m]) then {m} else {};
    }
  }

  // ---------------------------------------------------------------- the node

  /** The number of blocks at or below `h` that unwound a job: what the index counts on the positive control. */
  function UnwindBlocks(log: Log, h: nat): nat
    requires h <= |log|
  {
    if h == 0 then 0 else UnwindBlocks(log, h - 1) + (if log[h - 1].unwoundIds != [] then 1 else 0)
  }

  /** The places of those blocks. */
  function Unwinding(log: Log, h: nat): set<nat>
    requires h <= |log|
  {
    set g: nat | g < h && log[g].unwoundIds != []
  }

  lemma {:induction false} UnwindBlocksMean(log: Log, h: nat)
    requires h <= |log|
    ensures UnwindBlocks(log, h) == |Unwinding(log, h)|
  {
    if h > 0 {
      UnwindBlocksMean(log, h - 1);
      UnwindingNext(log, h - 1);
      hide Unwinding;
    }
  }

  lemma {:induction false} UnwindingNext(log: Log, h: nat)
    requires h < |log|
    ensures Unwinding(log, h + 1) == Unwinding(log, h) + if log[h].unwoundIds != [] then {h} else {}
    ensures h !in Unwinding(log, h)
  {
  }

  datatype Page = Page(total: nat, heights: seq<nat>)

  function Slice(m: seq<nat>, page: nat): seq<nat>
    requires page >= 1
  {
    var a, b := (page - 1) * PER_PAGE, page * PER_PAGE;
    if a >= |m| then [] else if b >= |m| then m[a..] else m[a..b]
  }

  /** A node as the reader meets it: any call may fail, and the index may lag behind the blocks. A `steady` node
      answers every call and indexes every block. */
  class Node {
    const id: ChainId
    /** The whole life of the chain, of which the node holds the blocks up to `latest`. */
    const log: Log
    const latest: nat
    const wholeHistory: bool
    const numeric: bool
    const steady: bool
    var indexed: nat

    ghost predicate Valid()
      reads this
    {
      indexed <= latest <= |log| && (steady ==> indexed == latest)
    }

    constructor (id: ChainId, log: Log, latest: nat, wholeHistory: bool, numeric: bool, steady: bool, indexed: nat)
      requires indexed <= latest <= |log| && (steady ==> indexed == latest)
      ensures Valid() && this.id == id && this.log == log && this.latest == latest && this.wholeHistory == wholeHistory
      ensures this.numeric == numeric && this.steady == steady && this.indexed == indexed
    {
      this.id, this.log, this.latest, this.wholeHistory := id, log, latest, wholeHistory;
      this.numeric, this.steady, this.indexed := numeric, steady, indexed;
    }

    /** One call reaches the node or not; meanwhile the index may catch up. */
    method Reach() returns (ok: bool)
      requires Valid()
      modifies this
      ensures Valid() && old(indexed) <= indexed && (steady ==> ok)
    {
      var n: nat :| indexed <= n <= latest;
      indexed := n;
      ok := steady;
      if * {
        ok := true;
      }
    }

    /** `block_search` for one block: the index holds it or not. */
    method CountBlock(h: nat) returns (r: Option<nat>)
      requires Valid()
      modifies this
      ensures Valid() && old(indexed) <= indexed && (steady ==> r.Some?)
      ensures r.Some? ==> r.value == (if 1 <= h <= indexed then 1 else 0)
    {
      var ok := Reach();
      if !ok {
        return None;
      }
      return Some(if 1 <= h <= indexed then 1 else 0);
    }

    /** Blocks that unwound a job, counted with or without a numeric condition every unwind meets; an index that
        does not compare numbers finds none. */
    method CountUnwinds(h: nat, byNumber: bool) returns (r: Option<nat>)
      requires Valid() && h <= indexed
      modifies this
      ensures Valid() && old(indexed) <= indexed && (steady ==> r.Some?)
      ensures r.Some? ==> r.value == if byNumber && !numeric then 0 else UnwindBlocks(log, h)
    {
      var ok := Reach();
      if !ok {
        return None;
      }
      return Some(if byNumber && !numeric then 0 else UnwindBlocks(log, h));
    }

    method SearchPage(useNumeric: bool, lo: nat, hi: nat, page: nat) returns (r: Option<Page>)
      requires Valid() && hi <= indexed && page >= 1 && (useNumeric ==> numeric)
      modifies this
      ensures Valid() && old(indexed) <= indexed && (steady ==> r.Some?)
      ensures r.Some? ==>
                var m := Matching(log, useNumeric, lo, hi); r.value == Page(|m|, Slice(m, page))
    {
      var ok := Reach();
      if !ok {
        return None;
      }
      var m := Matching(log, useNumeric, lo, hi);
      return Some(Page(|m|, Slice(m, page)));
    }

    method BlockResults(h: nat) returns (r: Option<Block>)
      requires Valid() && 1 <= h <= latest
      modifies this
      ensures Valid() && old(indexed) <= indexed && (steady ==> r.Some?)
      ensures r.Some? ==> r.value == log[h - 1]
    {
      var ok := Reach();
      if !ok {
        return None;
      }
      return Some(log[h - 1]);
    }

    method CountDeferrals(id: string, h: nat) returns (r: Option<bool>)
      requires Valid() && h <= indexed
      modifies this
      ensures Valid() && old(indexed) <= indexed && (steady ==> r.Some?)
      ensures r.Some? ==> r.value == DeferredBy(log, id, h)
    {
      var ok := Reach();
      if !ok {
        return None;
      }
      return Some(DeferredBy(log, id, h));
    }
  }

  // ---------------------------------------------------------------- the walk over the pages

  datatype Walk = Walk(heights: seq<nat>, complete: bool)

  /** How many heights a walk of at most `maxPages` pages reads: at least one page is always asked for. */
  function WalkLimit(maxPages: int): nat { PER_PAGE * (if maxPages < 1 then 1 else maxPages) }

  /** The first pages of the search, `page` of them. */
  function FirstPages(m: seq<nat>, page: nat): seq<nat> {
    if page * PER_PAGE >= |m| then m else m[..page * PER_PAGE]
  }

  /** The check a page must pass: in height order, and after the heights already read. */
  predicate Follows(had: seq<nat>, next: seq<nat>) {
    Ascending(next) && (had != [] && next != [] ==> had[|had| - 1] < next[0])
  }

  lemma {:induction false} PageContinues(m: seq<nat>, page: nat)
    requires page >= 1 && (page - 1) * PER_PAGE <= |m| && Ascending(m)
    ensures Follows(FirstPages(m, page - 1), Slice(m, page))
    ensures FirstPages(m, page - 1) + Slice(m, page) == FirstPages(m, page)
    ensures Slice(m, page) == [] ==> FirstPages(m, page) == m
  {
    var a := (page - 1) * PER_PAGE;
    var b := if a + PER_PAGE >= |m| then |m| else a + PER_PAGE;
    assert page * PER_PAGE == a + PER_PAGE;
    assert Slice(m, page) == m[a..b] && FirstPages(m, page - 1) == m[..a] && FirstPages(m, page) == m[..b];
    assert m[..a] + m[a..b] == m[..b];
    assert forall i | 0 <= i < b - a :: m[a..b][i] == m[a + i];
  }

  /** The next page continues the pages read, in ascending order. */
  lemma {:induction false} NextPage(log: Log, numeric: bool, lo: nat, hi: nat, m: seq<nat>, page: nat)
    requires hi <= |log| && m == Matching(log, numeric, lo, hi)
    requires page >= 1 && (page - 1) * PER_PAGE <= |m|
    ensures Follows(FirstPages(m, page - 1), Slice(m, page))
    ensures FirstPages(m, page - 1) + Slice(m, page) == FirstPages(m, page)
    ensures Slice(m, page) == [] ==> FirstPages(m, page) == m
  {
    MatchingAscends(log, numeric, lo, hi);
    PageContinues(m, page);
  }

  /** The heights of the search, page by page, up to the page bound. */
  method SearchHeights(node: Node, useNumeric: bool, lo: nat, hi: nat, maxPages: int, ghost m: seq<nat>)
      returns (r: Option<Walk>)
    requires node.Valid() && hi <= node.indexed && (useNumeric ==> node.numeric)
    requires m == Matching(node.log, useNumeric, lo, hi)
    modifies node
    ensures node.Valid() && old(node.indexed) <= node.indexed && (node.steady ==> r.Some?)
    ensures r.Some? ==> WalkOf(m, maxPages, r.value)
  {
    var heights: seq<nat> := [];
    var page, total := 1, 0;
    while true
      invariant node.Valid() && old(node.indexed) <= node.indexed
      invariant 1 <= page && (page == 1 || page <= maxPages) && (page - 1) * PER_PAGE <= |m|
      invariant heights == FirstPages(m, page - 1)
      decreases |m| - (page - 1) * PER_PAGE
    {
      var got := node.SearchPage(useNumeric, lo, hi, page);
      if got.None? {
        return None;
      }
      NextPage(node.log, useNumeric, lo, hi, m, page);
      var next := got.value.heights;
      if !Follows(heights, next) {
        return None;
      }
      heights, total := heights + next, got.value.total;
      if |heights| >= total || next == [] {
        break;
      }
      if page >= maxPages {
        return Some(Walk(heights, false));
      }
      page := page + 1;
    }
    if |heights| != total {
      return None;
    }
    r := Some(Walk(heights, true));
  }

  /** The whole search when the bound allows it, else its first pages, said incomplete. */
  ghost predicate WalkOf(m: seq<nat>, maxPages: int, w: Walk) {
    if |m| <= WalkLimit(maxPages) then w == Walk(m, true) else w == Walk(m[..WalkLimit(maxPages)], false)
  }

  // ---------------------------------------------------------------- the cache and the reader

  /** What was learned and stays learned: the no-seed unwinds up to `scannedTo`, and which of them were drawn. */
  class OriginCache {
    var chain: Option<ChainId>
    var scannedTo: nat
    var noseed: set<string>
    var drawn: map<string, bool>

    constructor ()
      ensures chain.None? && scannedTo == 0 && noseed == {} && drawn == map[]
    {
      chain, scannedTo, noseed, drawn := None, 0, {}, map[];
    }

    /** The cache holds what a scan of its chain up to `scannedTo` gives, over blocks that name their unwound jobs, and
        final answers about draws. */
    ghost predicate Valid(history: map<ChainId, Log>)
      reads this
    {
      if chain.None? then scannedTo == 0 && noseed == {} && drawn == map[]
      else
        && chain.value in history && scannedTo <= |history[chain.value]|
        && noseed == NoSeedIds(history[chain.value], scannedTo) && SoundBlocks(history[chain.value], scannedTo)
        && (forall j | j in drawn :: j in noseed &&
             drawn[j] == DeferredBy(history[chain.value], j, |history[chain.value]|))
    }

    method Reset(id: ChainId)
      modifies this
      ensures chain == Some(id) && scannedTo == 0 && noseed == {} && drawn == map[]
    {
      chain, scannedTo, noseed, drawn := Some(id), 0, {}, map[];
    }
  }

  /** The heights read around the listing, or the node's latest for both. */
  datatype Heights = Latest | Given(listed: Option<nat>, top: Option<nat>)

  function ListedHeight(hs: Heights, latest: nat): Option<nat> { if hs.Latest? then Some(latest) else hs.listed }

  function TopHeight(hs: Heights, latest: nat): Option<nat> { if hs.Latest? then Some(latest) else hs.top }

  predicate HeightsOk(hs: Heights, latest: nat) {
    var a, b := ListedHeight(hs, latest), TopHeight(hs, latest);
    a.Some? && b.Some? && 0 < a.value <= b.value <= latest
  }

  ghost predicate KnownChain(node: Node, history: map<ChainId, Log>) {
    node.id in history && history[node.id] == node.log && DeferralsPrecede(node.log)
  }

  /** One block the search found: its no-seed unwinds are learned and the scan stands at its height. */
  method ReadBlock(node: Node, cache: OriginCache, h: nat, ghost history: map<ChainId, Log>) returns (ok: bool)
    requires node.Valid() && 1 <= h <= node.latest && KnownChain(node, history)
    requires cache.Valid(history) && cache.chain == Some(node.id) && cache.scannedTo <= h
    requires NoSeedIds(node.log, h) == cache.noseed + NoSeedOf(node.log[h - 1]) && SoundBlocks(node.log, h - 1)
    modifies node, cache`noseed, cache`scannedTo
    ensures node.Valid() && old(node.indexed) <= node.indexed && cache.Valid(history)
    ensures cache.scannedTo == if ok then h else old(cache.scannedTo)
    ensures |node.log[h - 1].unwoundIds| < Sum(node.log[h - 1].counts) ==> !ok
    ensures node.steady && |node.log[h - 1].unwoundIds| >= Sum(node.log[h - 1].counts) ==> ok
  {
    var b := node.BlockResults(h);
    if b.None? {
      return false;
    }
    var total := Sum(b.value.counts);
    if total > 0 && |b.value.unwoundIds| < total {
      return false;
    }
    if total > 0 {
      cache.noseed := cache.noseed + set id | id in b.value.unwoundIds;
    }
    cache.scannedTo := h;
    return true;
  }

  /** The blocks the search found, one by one; the scan stands at the last one read. */
  method ReadBlocks(node: Node, cache: OriginCache, useNumeric: bool, ghost lo: nat, hi: nat, heights: seq<nat>,
                    ghost m: seq<nat>, ghost history: map<ChainId, Log>) returns (ok: bool)
    requires node.Valid() && hi <= node.latest && KnownChain(node, history)
    requires cache.Valid(history) && cache.chain == Some(node.id) && cache.scannedTo == lo <= hi
    requires m == Matching(node.log, useNumeric, lo, hi) && heights <= m
    modifies node, cache`noseed, cache`scannedTo
    ensures node.Valid() && old(node.indexed) <= node.indexed && cache.Valid(history) && cache.scannedTo <= hi
    ensures ok ==> cache.scannedTo == ReachedAt(lo, m, |heights|)
    ensures node.steady && SoundBlocks(node.log, hi) ==> ok
  {
    for n := 0 to |heights|
      invariant node.Valid() && old(node.indexed) <= node.indexed && cache.Valid(history)
      invariant cache.scannedTo == ReachedAt(lo, m, n) <= hi
    {
      assert heights[n] == m[n];
      ScanStep(node.log, useNumeric, lo, hi, m, n);
      var read := ReadBlock(node, cache, heights[n], history);
      if !read {
        return false;
      }
    }
    return true;
  }

  /** Whether an unwound job was ever drawn: asked once, then remembered. */
  method ReadDraw(node: Node, cache: OriginCache, j: string, hTop: nat, ghost history: map<ChainId, Log>)
      returns (r: Option<bool>)
    requires node.Valid() && hTop <= node.indexed && KnownChain(node, history)
    requires cache.Valid(history) && cache.chain == Some(node.id) && cache.scannedTo == hTop && j in cache.noseed
    modifies node, cache`drawn
    ensures node.Valid() && old(node.indexed) <= node.indexed && cache.Valid(history) && (node.steady ==> r.Some?)
    ensures r.Some? ==> r.value == DeferredBy(node.log, j, hTop)
  {
    DrawnIsFinal(node.log, j, hTop, |node.log|);
    if j !in cache.drawn {
      var d := node.CountDeferrals(j, hTop);
      if d.None? {
        return None;
      }
      cache.drawn := cache.drawn[j := d.value];
    }
    return Some(cache.drawn[j]);
  }

  lemma {:induction false} AmongGrows(log: Log, ids: set<string>, j: string, h: nat)
    requires h <= |log|
    ensures DrawnAmong(log, ids + {j}, h) ==
            if !Unquotable(j) && DeferredBy(log, j, h) then DrawnAmong(log, ids, h) + {j} else DrawnAmong(log, ids, h)
    ensures UnknownAmong(ids + {j}) == if Unquotable(j) then UnknownAmong(ids) + {j} else UnknownAmong(ids)
  {
  }

  /** The draws of the no-seed unwinds the listing shows; an id no event query can carry stays unknown. */
  method ReadDraws(node: Node, cache: OriginCache, mine: set<string>, hTop: nat, ghost history: map<ChainId, Log>)
      returns (r: Option<(set<string>, set<string>)>)
    requires node.Valid() && hTop <= node.indexed && KnownChain(node, history)
    requires cache.Valid(history) && cache.chain == Some(node.id) && cache.scannedTo == hTop && mine <= cache.noseed
    modifies node, cache`drawn
    ensures node.Valid() && old(node.indexed) <= node.indexed && cache.Valid(history) && (node.steady ==> r.Some?)
    ensures r.Some? ==> r.value == (DrawnAmong(node.log, mine, hTop), UnknownAmong(mine))
  {
    var drawn: set<string>, unknown: set<string> := {}, {};
    var rest := mine;
    while rest != {}
      invariant node.Valid() && old(node.indexed) <= node.indexed && cache.Valid(history) && rest <= mine
      invariant drawn == DrawnAmong(node.log, mine - rest, hTop) && unknown == UnknownAmong(mine - rest)
      decreases |rest|
    {
      var j :| j in rest;
      AmongGrows(node.log, mine - rest, j, hTop);
      if Unquotable(j) {
        unknown := unknown + {j};
      } else {
        var d := ReadDraw(node, cache, j, hTop, history);
        if d.None? {
          return None;
        }
        drawn := if d.value then drawn + {j} else drawn;
      }
      assert mine - (rest - {j}) == (mine - rest) + {j};
      rest := rest - {j};
    }
    assert mine - {} == mine;
    return Some((drawn, unknown));
  }

  /** The height a call that meets no failure leaves the scan at. */
  function NextScan(log: Log, numeric: bool, hTop: nat, from: nat, maxPages: int): nat
    requires hTop <= |log|
  {
    var m := Matching(log, numeric, from, hTop);
    if |m| <= WalkLimit(maxPages) then hTop else m[WalkLimit(maxPages) - 1]
  }

  /** What a refresh at these heights needs of the chain and of the listing, failures apart. */
  ghost predicate Readable(node: Node, jobs: seq<Job>, hs: Heights)
    requires node.latest <= |node.log|
  {
    && node.wholeHistory && Undisputed(jobs) != {} && HeightsOk(hs, node.latest)
    && 1 <= UnwindBlocks(node.log, ListedHeight(hs, node.latest).value) <= UnwoundCount(jobs)
    && SoundBlocks(node.log, TopHeight(hs, node.latest).value)
  }

  /** The index must hold the top block and see the unwinds the listing shows; then, whether it compares numbers. */
  method PositiveControl(node: Node, unwound: nat, hListed: nat, hTop: nat) returns (r: Option<bool>)
    requires node.Valid() && 0 < hListed <= hTop <= node.latest
    modifies node
    ensures node.Valid() && old(node.indexed) <= node.indexed
    ensures r.Some? ==> hTop <= node.indexed && r.value == node.numeric
    ensures r.Some? ==> 1 <= UnwindBlocks(node.log, hListed) <= unwound
    ensures node.steady && 1 <= UnwindBlocks(node.log, hListed) <= unwound ==> r.Some?
  {
    var here := node.CountBlock(hTop);
    if here != Some(1) {
      return None;
    }
    var seen := node.CountUnwinds(hListed, false);
    if seen.None? || !(1 <= seen.value <= unwound) {
      return None;
    }
    var byNumber := node.CountUnwinds(hListed, true);
    if byNumber.None? {
      return None;
    }
    return Some(byNumber.value == seen.value);
  }

  /** The scan from where the cache stands, then the draws of the jobs the listing shows. */
  method Resume(node: Node, cache: OriginCache, undisputed: set<string>, useNumeric: bool, hTop: nat, maxPages: int,
                ghost history: map<ChainId, Log>) returns (r: Option<Origin>)
    requires node.Valid() && hTop <= node.indexed && KnownChain(node, history) && useNumeric == node.numeric
    requires cache.Valid(history) && cache.chain == Some(node.id) && cache.scannedTo <= hTop
    modifies node, cache`noseed, cache`scannedTo, cache`drawn
    ensures node.Valid() && cache.Valid(history)
    ensures r.Some? ==> r.value == OriginAt(node.log, undisputed, hTop) && SoundBlocks(node.log, hTop)
    ensures node.steady && SoundBlocks(node.log, hTop) ==>
              && cache.scannedTo == NextScan(node.log, node.numeric, hTop, old(cache.scannedTo), maxPages)
              && (r.Some? <==> cache.scannedTo == hTop)
              && (r.None? ==> cache.drawn == old(cache.drawn))
  {
    ghost var lo, m := cache.scannedTo, Matching(node.log, useNumeric, cache.scannedTo, hTop);
    ScanEnd(node.log, useNumeric, lo, hTop, m);
    MatchingAscends(node.log, useNumeric, lo, hTop);
    var walk := SearchHeights(node, useNumeric, cache.scannedTo, hTop, maxPages, m);
    if walk.None? {
      return None;
    }
    var ok := ReadBlocks(node, cache, useNumeric, lo, hTop, walk.value.heights, m, history);
    if !ok || !walk.value.complete {
      return None;
    }
    r := Conclude(node, cache, undisputed, hTop, history);
  }

  /** The scan stands at the top: the draws of the jobs the listing shows, and the answer. */
  method Conclude(node: Node, cache: OriginCache, undisputed: set<string>, hTop: nat, ghost history: map<ChainId, Log>)
      returns (r: Option<Origin>)
    requires node.Valid() && hTop <= node.indexed && KnownChain(node, history)
    requires cache.Valid(history) && cache.chain == Some(node.id) && cache.scannedTo <= hTop
    requires cache.noseed == NoSeedIds(node.log, hTop) && SoundBlocks(node.log, hTop)
    modifies node, cache`scannedTo, cache`drawn
    ensures node.Valid() && cache.Valid(history) && cache.scannedTo == hTop && (node.steady ==> r.Some?)
    ensures r.Some? ==> r.value == OriginAt(node.log, undisputed, hTop)
  {
    cache.scannedTo := hTop;
    var draws := ReadDraws(node, cache, cache.noseed * undisputed, hTop, history);
    if draws.None? {
      return None;
    }
    return Some(Origin(cache.noseed, draws.value.0, draws.value.1));
  }

  ghost predicate MustReset(chain: Option<ChainId>, scannedTo: nat, ids: nat, id: ChainId, hTop: nat) {
    chain != Some(id) || scannedTo > hTop || ids > ORIGIN_CACHE_MAX_IDS
  }

  /** Main result: whatever the cache held and whatever failed, an answer that is given is the answer of a one-shot
      scan, and the cache stays one that a scan could have left. Without failures, the call moves the scan on. */
  method ReadUnwindOrigin(jobs: seq<Job>, node: Node, hs: Heights, cache: OriginCache, maxPages: int,
                          ghost history: map<ChainId, Log>) returns (r: Option<Origin>)
    requires node.Valid() && cache.Valid(history) && KnownChain(node, history)
    modifies node, cache
    ensures node.Valid() && cache.Valid(history)
    ensures r.Some? ==> AnswerOk(node, jobs, hs, r.value)
    ensures node.steady && Readable(node, jobs, hs) ==>
              var hTop := TopHeight(hs, node.latest).value;
              var reset := old(MustReset(cache.chain, cache.scannedTo, |cache.noseed| + |cache.drawn|, node.id, hTop));
              var from := if reset then 0 else old(cache.scannedTo);
              && cache.chain == Some(node.id)
              && cache.scannedTo == NextScan(node.log, node.numeric, hTop, from, maxPages)
              && (r.Some? <==> cache.scannedTo == hTop)
              && (r.None? ==> cache.drawn == if reset then map[] else old(cache.drawn))
  {
    var undisputed := Undisputed(jobs);
    if undisputed == {} {
      return Some(Origin({}, {}, {}));
    }
    var up := node.Reach();
    if !up || !node.wholeHistory || !HeightsOk(hs, node.latest) {
      return None;
    }
    var hListed, hTop := ListedHeight(hs, node.latest).value, TopHeight(hs, node.latest).value;
    if cache.chain != Some(node.id) || cache.scannedTo > hTop || |cache.noseed| + |cache.drawn| > ORIGIN_CACHE_MAX_IDS {
      cache.Reset(node.id);
    }
    var numeric := PositiveControl(node, UnwoundCount(jobs), hListed, hTop);
    if numeric.None? {
      return None;
    }
    r := Resume(node, cache, undisputed, numeric.value, hTop, maxPages, history);
  }

  /** An answer with undisputed jobs is given only when the node and the listing pass every check, and is then the one a
      scan of the chain from its first block gives. */
  ghost predicate AnswerOk(node: Node, jobs: seq<Job>, hs: Heights, o: Origin)
    requires node.latest <= |node.log|
  {
    if Undisputed(jobs) == {} then o == Origin({}, {}, {})
    else Readable(node, jobs, hs) && o == OriginAt(node.log, Undisputed(jobs), TopHeight(hs, node.latest).value)
  }

  /** One refresh: a node, the listing it served, the heights read around it and the page bound. */
  datatype Refresh = Refresh(node: Node, jobs: seq<Job>, hs: Heights, maxPages: int)

  /** Any sequence of refreshes through one cache, over any chains and nodes and whatever fails: every answer given
      is the one-shot answer of its own refresh. */
  method Refreshes(calls: seq<Refresh>, cache: OriginCache, ghost history: map<ChainId, Log>)
      returns (answers: seq<Option<Origin>>)
    requires cache.Valid(history)
    requires forall c | c in calls :: c.node.Valid() && KnownChain(c.node, history)
    modifies cache, set c | c in calls :: c.node
    ensures cache.Valid(history) && |answers| == |calls|
    ensures forall i | 0 <= i < |calls| && answers[i].Some? ::
              calls[i].node.latest <= |calls[i].node.log| &&
              AnswerOk(calls[i].node, calls[i].jobs, calls[i].hs, answers[i].value)
  {
    answers := [];
    for i := 0 to |calls|
      invariant cache.Valid(history) && |answers| == i
      invariant forall c | c in calls :: c.node.Valid()
      invariant forall n | 0 <= n < i && answers[n].Some? ::
                  AnswerOk(calls[n].node, calls[n].jobs, calls[n].hs, answers[n].value)
    {
      var c := calls[i];
      assert c in calls;
      var a := ReadUnwindOrigin(c.jobs, c.node, c.hs, cache, c.maxPages, history);
      answers := answers + [a];
    }
  }

  // ---------------------------------------------------------------- does it finish?

  /** Where a cache stands: the height its scan reached and how many draws it holds. */
  datatype Stand = Stand(at: nat, drawn: nat)

  const FROM_NOTHING := Stand(0, 0)

  /** One call without failure: `next` says where a scan goes on to, `ids` how many ids are known at a height. A cache
      past its bound starts over. */
  datatype Caller = Caller(next: nat -> nat, ids: nat -> nat)

  predicate Over(c: Caller, s: Stand) { c.ids(s.at) + s.drawn > ORIGIN_CACHE_MAX_IDS }

  function Call(c: Caller, s: Stand): Stand {
    if Over(c, s) then Stand(c.next(0), 0) else Stand(c.next(s.at), s.drawn)
  }

  /** `k` calls in a row. */
  function Calls(c: Caller, s: Stand, k: nat): Stand {
    if k == 0 then s else Call(c, Calls(c, s, k - 1))
  }

  /** `k` steps of the scan from `h`, none of them starting over. */
  function Climb(c: Caller, h: nat, k: nat): nat {
    if k == 0 then h else c.next(Climb(c, h, k - 1))
  }

  ghost predicate Climbs(c: Caller, top: nat) {
    forall h: nat | h <= top :: h <= c.next(h) <= top && (h < top ==> h < c.next(h))
  }

  /** The scan from `s` never pauses below the top with the cache past its bound. */
  ghost predicate PausesFit(c: Caller, top: nat, s: Stand) {
    !Over(c, s) && forall k: nat :: Climb(c, s.at, k) < top ==> !Over(c, Stand(Climb(c, s.at, k), s.drawn))
  }

  ghost predicate Finishes(c: Caller, top: nat, s: Stand, k: nat) { k >= 1 && Calls(c, s, k).at == top }

  lemma {:induction false} ClimbRises(c: Caller, top: nat, h: nat, i: nat, k: nat)
    requires Climbs(c, top) && h <= top && i <= k
    ensures Climb(c, h, i) <= Climb(c, h, k) <= top
    ensures Climb(c, h, k) >= if h + k < top then h + k else top
  {
    if k > 0 { ClimbRises(c, top, h, if i < k then i else k - 1, k - 1); }
  }

  /** While no pause is past the bound, the calls climb. */
  lemma {:induction false} CallsFollow(c: Caller, s: Stand, k: nat)
    requires forall j: nat | j < k :: !Over(c, Stand(Climb(c, s.at, j), s.drawn))
    ensures Calls(c, s, k) == Stand(Climb(c, s.at, k), s.drawn)
  {
    if k > 0 {
      CallsFollow(c, s, k - 1);
      assert !Over(c, Stand(Climb(c, s.at, k - 1), s.drawn));
    }
  }

  lemma {:induction false} FirstAtTop(c: Caller, top: nat, h: nat, n: nat) returns (k: nat)
    requires n >= 1 && Climb(c, h, n) == top
    ensures 1 <= k <= n && Climb(c, h, k) == top && forall j: nat | 1 <= j < k :: Climb(c, h, j) != top
  {
    if j: nat :| 1 <= j < n && Climb(c, h, j) == top { k := FirstAtTop(c, top, h, j); } else { k := n; }
  }

  /** A scan whose pauses fit reaches the top, in no more calls than there are heights. */
  lemma {:induction false} FittingFinishes(c: Caller, top: nat, s: Stand) returns (k: nat)
    requires Climbs(c, top) && s.at <= top && top > 0 && PausesFit(c, top, s)
    ensures k <= top && Finishes(c, top, s, k)
  {
    var n := if s.at == top then 1 else top - s.at;
    ClimbRises(c, top, s.at, 0, n);
    k := FirstAtTop(c, top, s.at, n);
    forall j: nat | j < k ensures !Over(c, Stand(Climb(c, s.at, j), s.drawn)) {
      ClimbRises(c, top, s.at, j, k);
      if j == 0 { assert Stand(Climb(c, s.at, 0), s.drawn) == s; }
    }
    CallsFollow(c, s, k);
  }

  /** The pause of the scan from `s` after `k` steps is past the bound. */
  ghost predicate BadPause(c: Caller, top: nat, s: Stand, k: nat) {
    Over(c, Stand(Climb(c, s.at, k), s.drawn)) && (k == 0 || Climb(c, s.at, k) < top)
  }

  lemma {:induction false} FirstBadPause(c: Caller, top: nat, s: Stand, n: nat) returns (k: nat)
    requires BadPause(c, top, s, n)
    ensures k <= n && BadPause(c, top, s, k) && forall j: nat | j < k :: !BadPause(c, top, s, j)
  {
    if j: nat :| j < n && BadPause(c, top, s, j) { k := FirstBadPause(c, top, s, j); } else { k := n; }
  }

  lemma {:induction false} UnfitPauses(c: Caller, top: nat, s: Stand) returns (k: nat)
    requires !PausesFit(c, top, s)
    ensures BadPause(c, top, s, k) && forall j: nat | j < k :: !BadPause(c, top, s, j)
  {
    assert Stand(Climb(c, s.at, 0), s.drawn) == s;
    var n: nat;
    if Over(c, s) {
      n := 0;
    } else {
      n :| Climb(c, s.at, n) < top && Over(c, Stand(Climb(c, s.at, n), s.drawn));
    }
    k := FirstBadPause(c, top, s, n);
  }

  /** Until its first bad pause a scan does not reach the top; from there on it is the scan from nothing. */
  lemma {:induction false} StartsOver(c: Caller, top: nat, s: Stand, stop: nat)
    requires Climbs(c, top) && s.at <= top && top > 0 && !Over(c, FROM_NOTHING)
    requires BadPause(c, top, s, stop) && forall j: nat | j < stop :: !BadPause(c, top, s, j)
    ensures stop <= top && (stop > 0 ==> stop < top)
    ensures forall k: nat | 1 <= k <= stop :: Calls(c, s, k).at < top
    ensures Calls(c, s, stop + 1) == Calls(c, FROM_NOTHING, 1)
  {
    ClimbRises(c, top, s.at, 0, stop);
    forall j: nat | j < stop ensures !Over(c, Stand(Climb(c, s.at, j), s.drawn)) {
      ClimbRises(c, top, s.at, j, stop);
      assert !BadPause(c, top, s, j);
    }
    forall k: nat | k <= stop ensures Calls(c, s, k) == Stand(Climb(c, s.at, k), s.drawn) { CallsFollow(c, s, k); }
    forall k: nat | 1 <= k <= stop ensures Calls(c, s, k).at < top { ClimbRises(c, top, s.at, k, stop); }
    assert Calls(c, FROM_NOTHING, 0) == FROM_NOTHING;
  }

  lemma {:induction false} CallsAfter(c: Caller, s: Stand, t: Stand, stop: nat, n: nat)
    requires n >= 1 && Calls(c, s, stop + 1) == Calls(c, t, 1)
    ensures Calls(c, s, stop + n) == Calls(c, t, n)
  {
    if n > 1 { CallsAfter(c, s, t, stop, n - 1); }
  }

  /** A scan from nothing with an unfit pause goes round below the top for ever. */
  lemma {:induction false} GoesRound(c: Caller, top: nat, stop: nat, k: nat)
    requires Climbs(c, top) && top > 0 && !Over(c, FROM_NOTHING) && k >= 1
    requires BadPause(c, top, FROM_NOTHING, stop) && forall j: nat | j < stop :: !BadPause(c, top, FROM_NOTHING, j)
    ensures Calls(c, FROM_NOTHING, k).at < top
    decreases k
  {
    assert Stand(Climb(c, 0, 0), 0) == FROM_NOTHING;
    StartsOver(c, top, FROM_NOTHING, stop);
    if k > stop {
      CallsAfter(c, FROM_NOTHING, FROM_NOTHING, stop, k - stop);
      GoesRound(c, top, stop, k - stop);
    }
  }

  /** The scan from `s` ends exactly when its own pauses fit, or those of a scan from nothing; and then it ends within
      twice as many calls as there are heights. */
  lemma {:induction false} EndsExactlyWhen(c: Caller, top: nat, s: Stand)
    requires Climbs(c, top) && s.at <= top && top > 0 && !Over(c, FROM_NOTHING)
    ensures (exists k: nat :: Finishes(c, top, s, k)) <==> PausesFit(c, top, s) || PausesFit(c, top, FROM_NOTHING)
    ensures (exists k: nat :: Finishes(c, top, s, k)) ==> exists k: nat :: k <= 2 * top && Finishes(c, top, s, k)
  {
    if PausesFit(c, top, s) {
      var k := FittingFinishes(c, top, s);
    } else {
      var stop := UnfitPauses(c, top, s);
      StartsOver(c, top, s, stop);
      if PausesFit(c, top, FROM_NOTHING) {
        var n := FittingFinishes(c, top, FROM_NOTHING);
        CallsAfter(c, s, FROM_NOTHING, stop, n);
        assert Finishes(c, top, s, stop + n);
      } else {
        var round := UnfitPauses(c, top, FROM_NOTHING);
        forall k: nat ensures !Finishes(c, top, s, k) {
          if k > stop {
            CallsAfter(c, s, FROM_NOTHING, stop, k - stop);
            GoesRound(c, top, round, k - stop);
          }
        }
      }
    }
  }

  /** Calls without failure at the top height `hTop` of a chain. */
  function CallerAt(log: Log, numeric: bool, hTop: nat, maxPages: int): Caller
    requires hTop <= |log|
  {
    Caller((h: nat) => NextScan(log, numeric, hTop, h, maxPages),
           (h: nat) => if h <= |log| then |NoSeedIds(log, h)| else 0)
  }

  lemma {:induction false} CallsClimb(log: Log, numeric: bool, hTop: nat, maxPages: int)
    requires hTop <= |log|
    ensures Climbs(CallerAt(log, numeric, hTop, maxPages), hTop)
    ensures !Over(CallerAt(log, numeric, hTop, maxPages), FROM_NOTHING)
  {
    forall h: nat | h <= hTop
      ensures h <= NextScan(log, numeric, hTop, h, maxPages) <= hTop
      ensures h < hTop ==> h < NextScan(log, numeric, hTop, h, maxPages)
    {
      MatchingAscends(log, numeric, h, hTop);
    }
  }

  /** Main result: exactly when calls repeated at one height, none of them failing, end with an answer, from any cache:
      when no pause of its own scan leaves the cache past its bound on ids, or no pause of a scan from nothing does. */
  lemma {:induction false} FinishesExactlyWhen(log: Log, numeric: bool, hTop: nat, maxPages: int, s: Stand)
    requires 0 < hTop <= |log| && s.at <= hTop
    ensures var c := CallerAt(log, numeric, hTop, maxPages);
            && ((exists k: nat :: Finishes(c, hTop, s, k)) <==>
                 PausesFit(c, hTop, s) || PausesFit(c, hTop, FROM_NOTHING))
            && ((exists k: nat :: Finishes(c, hTop, s, k)) ==>
                 exists k: nat :: k <= 2 * hTop && Finishes(c, hTop, s, k))
  {
    CallsClimb(log, numeric, hTop, maxPages);
    EndsExactlyWhen(CallerAt(log, numeric, hTop, maxPages), hTop, s);
  }

  /** Where a cache stands for a call on the chain `id` at the height `hTop`: what was learned elsewhere is dropped. */
  ghost function StandOf(cache: OriginCache, id: ChainId, hTop: nat): Stand
    reads cache
  {
    if cache.chain != Some(id) || cache.scannedTo > hTop then FROM_NOTHING else Stand(cache.scannedTo, |cache.drawn|)
  }

  /** One more call without failure, from any cache. */
  method CallAgain(jobs: seq<Job>, node: Node, hs: Heights, cache: OriginCache, maxPages: int, ghost hTop: nat,
                   ghost c: Caller, ghost history: map<ChainId, Log>)
      returns (r: Option<Origin>)
    requires node.Valid() && KnownChain(node, history) && node.steady && Readable(node, jobs, hs)
    requires hTop == TopHeight(hs, node.latest).value && c == CallerAt(node.log, node.numeric, hTop, maxPages)
    requires cache.Valid(history)
    modifies node, cache
    ensures node.Valid() && cache.Valid(history)
    ensures r.Some? <==> Call(c, old(StandOf(cache, node.id, hTop))).at == hTop
    ensures r.Some? ==> AnswerOk(node, jobs, hs, r.value)
    ensures r.None? ==> StandOf(cache, node.id, hTop) == Call(c, old(StandOf(cache, node.id, hTop)))
  {
    CallsClimb(node.log, node.numeric, hTop, maxPages);
    ghost var s := StandOf(cache, node.id, hTop);
    assert cache.chain == Some(node.id) ==> c.ids(cache.scannedTo) == |cache.noseed|;
    r := ReadUnwindOrigin(jobs, node, hs, cache, maxPages, history);
    hide NextScan, NoSeedIds;
  }

  /** Called again until it answers, at most `k` times, from any cache an earlier refresh left: the calls follow that
      account. */
  method CallUntil(jobs: seq<Job>, node: Node, hs: Heights, cache: OriginCache, maxPages: int, k: nat, ghost hTop: nat,
                   ghost c: Caller, ghost s: Stand, ghost history: map<ChainId, Log>)
      returns (r: Option<Origin>, n: nat)
    requires node.Valid() && KnownChain(node, history) && node.steady && Readable(node, jobs, hs)
    requires hTop == TopHeight(hs, node.latest).value && c == CallerAt(node.log, node.numeric, hTop, maxPages)
    requires cache.Valid(history) && s == StandOf(cache, node.id, hTop)
    modifies node, cache
    ensures node.Valid() && cache.Valid(history) && n <= k
    ensures r.Some? ==> AnswerOk(node, jobs, hs, r.value) && Finishes(c, hTop, s, n)
    ensures r.None? ==> NotYet(c, hTop, s, k)
  {
    hide CallerAt, Call, Readable, AnswerOk, KnownChain, Finishes, Calls, NotYet, StandOf;
    r, n := None, 0;
    NotYetStep(c, hTop, s, 0);
    while r.None? && n < k
      invariant n <= k && node.Valid() && cache.Valid(history)
      invariant r.None? ==> StandOf(cache, node.id, hTop) == Calls(c, s, n) && NotYet(c, hTop, s, n)
      invariant r.Some? ==> AnswerOk(node, jobs, hs, r.value) && Finishes(c, hTop, s, n)
      decreases r.None?, k - n
    {
      NotYetStep(c, hTop, s, n);
      r := CallAgain(jobs, node, hs, cache, maxPages, hTop, c, history);
      n := n + 1;
    }
  }

  /** The same with what it promises: whenever the account ends, twice as many calls as there are heights are enough for
      an answer, from any cache. */
  method RepeatedCalls(jobs: seq<Job>, node: Node, hs: Heights, cache: OriginCache, maxPages: int, k: nat,
                       ghost hTop: nat, ghost c: Caller, ghost history: map<ChainId, Log>)
      returns (r: Option<Origin>, n: nat)
    requires node.Valid() && KnownChain(node, history) && node.steady && Readable(node, jobs, hs)
    requires hTop == TopHeight(hs, node.latest).value && c == CallerAt(node.log, node.numeric, hTop, maxPages)
    requires cache.Valid(history)
    modifies node, cache
    ensures cache.Valid(history) && n <= k
    ensures r.Some? ==> AnswerOk(node, jobs, hs, r.value) && Finishes(c, hTop, old(StandOf(cache, node.id, hTop)), n)
    ensures r.None? ==> NotYet(c, hTop, old(StandOf(cache, node.id, hTop)), k)
    ensures k >= 2 * hTop ==>
              (r.Some? <==> PausesFit(c, hTop, old(StandOf(cache, node.id, hTop))) || PausesFit(c, hTop, FROM_NOTHING))
  {
    ghost var s := StandOf(cache, node.id, hTop);
    EnoughCalls(node.log, node.numeric, hTop, maxPages, s, k);
    hide CallerAt, Finishes, PausesFit, AnswerOk, NotYet;
    r, n := CallUntil(jobs, node, hs, cache, maxPages, k, hTop, c, s, history);
  }

  /** None of the first `n` calls answers. */
  ghost predicate NotYet(c: Caller, top: nat, s: Stand, n: nat) { forall i: nat | i <= n :: !Finishes(c, top, s, i) }

  lemma {:induction false} NotYetStep(c: Caller, top: nat, s: Stand, n: nat)
    ensures NotYet(c, top, s, 0) && Calls(c, s, 0) == s
    ensures Calls(c, s, n + 1) == Call(c, Calls(c, s, n))
    ensures Finishes(c, top, s, n + 1) <==> Call(c, Calls(c, s, n)).at == top
    ensures NotYet(c, top, s, n) && !Finishes(c, top, s, n + 1) ==> NotYet(c, top, s, n + 1)
  {
  }

  lemma {:induction false} EnoughCalls(log: Log, numeric: bool, hTop: nat, maxPages: int, s: Stand, k: nat)
    requires 0 < hTop <= |log| && s.at <= hTop
    ensures var c := CallerAt(log, numeric, hTop, maxPages);
            var ends := PausesFit(c, hTop, s) || PausesFit(c, hTop, FROM_NOTHING);
            && (k >= 2 * hTop && ends ==> !NotYet(c, hTop, s, k))
            && ((exists n: nat :: Finishes(c, hTop, s, n)) ==> ends)
  {
    FinishesExactlyWhen(log, numeric, hTop, maxPages, s);
    hide Finishes, PausesFit, CallerAt;
  }

  // ---------------------------------------------------------------- a chain on which it does not

  /** The `i`-th of as many different ids as one likes. */
  function IdOf(i: nat): string { seq(i, _ => 'a') }

  function IdsBelow(n: nat): set<string> { set i: nat | i < n :: IdOf(i) }

  lemma {:induction false} ManyIds(n: nat)
    ensures |IdsBelow(n)| == n
  {
    if n > 0 {
      ManyIds(n - 1);
      assert forall i: nat | i < n - 1 :: |IdOf(i)| != |IdOf(n - 1)|;
      assert IdsBelow(n) == IdsBelow(n - 1) + {IdOf(n - 1)};
    }
  }

  /** One id more than the bound in the first block, and enough blocks after it to fill the pages of one call. */
  function CrowdedLog(maxPages: int): (log: Log)
    ensures |log| == WalkLimit(maxPages) + 1
  {
    [Block([ORIGIN_CACHE_MAX_IDS + 1], seq(ORIGIN_CACHE_MAX_IDS + 1, i requires i >= 0 => IdOf(i)), {})]
    + seq(WalkLimit(maxPages), _ => Block([1], [IdOf(0)], {}))
  }

  lemma {:induction false} AllMatch(log: Log, numeric: bool, hi: nat)
    requires hi <= |log| && forall h: nat | 1 <= h <= hi :: MatchesAt(log, numeric, h)
    ensures |Matching(log, numeric, 0, hi)| == hi && forall i | 0 <= i < hi :: Matching(log, numeric, 0, hi)[i] == i + 1
  {
    if hi > 0 { AllMatch(log, numeric, hi - 1); }
  }

  lemma {:induction false} CrowdedBlocks(maxPages: int, numeric: bool)
    ensures var log := CrowdedLog(maxPages);
            && DeferralsPrecede(log) && SoundBlocks(log, |log|)
            && (forall h: nat | 1 <= h <= |log| :: MatchesAt(log, numeric, h))
            && |NoSeedIds(log, 1)| == ORIGIN_CACHE_MAX_IDS + 1
  {
    var log := CrowdedLog(maxPages);
    assert forall g | 1 <= g < |log| :: log[g] == Block([1], [IdOf(0)], {});
    var ids := log[0].unwoundIds;
    assert |ids| == ORIGIN_CACHE_MAX_IDS + 1 && log[0].counts == [ORIGIN_CACHE_MAX_IDS + 1];
    forall g | 0 <= g < |log| ensures Sum(log[g].counts) == log[g].counts[0] {
      assert log[g].counts[..0] == [];
    }
    forall h: nat | 1 <= h <= |log| ensures MatchesAt(log, numeric, h) { assert log[h - 1].counts[0] > 0; }
    ManyIds(ORIGIN_CACHE_MAX_IDS + 1);
    assert forall i: nat | i < |ids| :: ids[i] == IdOf(i);
    assert (set id | id in ids) == IdsBelow(ORIGIN_CACHE_MAX_IDS + 1);
    assert NoSeedIds(log, 1) == NoSeedIds(log, 0) + NoSeedOf(log[0]);
  }

  /** On that chain no number of calls without failure gives an answer, from nothing or from any cache whose own scan
      pauses past the bound. */
  lemma {:induction false} CrowdedNeverFinishes(maxPages: int, numeric: bool, s: Stand)
    requires s.at <= |CrowdedLog(maxPages)|
    ensures var log := CrowdedLog(maxPages);
            var c := CallerAt(log, numeric, |log|, maxPages);
            && DeferralsPrecede(log) && SoundBlocks(log, |log|) && !PausesFit(c, |log|, FROM_NOTHING)
            && (!PausesFit(c, |log|, s) ==> forall k: nat :: !Finishes(c, |log|, s, k))
            && forall k: nat :: !Finishes(c, |log|, FROM_NOTHING, k)
  {
    var log := CrowdedLog(maxPages);
    var c, limit := CallerAt(log, numeric, |log|, maxPages), WalkLimit(maxPages);
    CrowdedBlocks(maxPages, numeric);
    AllMatch(log, numeric, |log|);
    NoSeedGrows(log, 1, limit);
    hide CrowdedLog, DeferralsPrecede, SoundBlocks, NoSeedIds;
    SubsetSize(NoSeedIds(log, 1), NoSeedIds(log, limit));
    assert Climb(c, 0, 0) == 0 && Climb(c, 0, 1) == limit;
    assert Over(c, Stand(limit, 0));
    FinishesExactlyWhen(log, numeric, |log|, maxPages, s);
    FinishesExactlyWhen(log, numeric, |log|, maxPages, FROM_NOTHING);
  }
}
