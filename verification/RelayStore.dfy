/** The relay's disk store: records written through a temporary file and a rename, removed, reloaded in rank order and
    evicted by age alone, whatever step a crash interrupts. */
module RelayStore {
  import opened Wrappers
  import opened Ordering
  import opened Accounts

  /** A name of the directory: a record's, from the digest of its kind and key, or a temporary file's. */
  datatype Name = Temporary(tag: nat) | Record(digest: string)

  /** What a file holds: a whole record, or bytes that are not one. */
  datatype Blob = Rec(key: string, data: seq<int>, rank: int, time: Option<real>) | Torn

  type Dir = map<Name, Blob>

  /** The digest of a kind and a key. */
  type Digest = (string, string) -> string

  /** What `load` gives of one record. */
  datatype Entry = Entry(key: string, data: seq<int>, rank: int, time: real)

  /** The time of a record; of one that carries none, the time its rank was made from. */
  function TimeOf(b: Blob): real
    requires b.Rec?
  {
    if b.time.Some? && b.time.value != 0.0 then b.time.value else ((b.rank / 1000) as real) / 1_000_000_000.0
  }

  function EntryOf(b: Blob): Entry
    requires b.Rec?
  {
    Entry(b.key, b.data, b.rank, TimeOf(b))
  }

  /** Past its retention; a retention of 0 keeps everything. */
  predicate Past(time: real, retention: real, now: real) { retention > 0.0 && now - time > retention }

  // ---------------------------------------------------------------- what happens to a directory

  /** How far a write came: it made no file, a temporary file torn or whole, or the rename. */
  datatype Stage = NoFile | TempTorn | TempWhole | Renamed

  datatype Event =
    | Write(key: string, data: seq<int>, rank: int, time: real, tag: nat, stage: Stage)
    | Remove(key: string)
    | Evict(keys: set<string>, retention: real, now: real)

  function Names(digest: Digest, kind: string, keys: set<string>): set<Name> {
    set k | k in keys :: Record(digest(kind, k))
  }

  function DirStep(digest: Digest, kind: string, dir: Dir, e: Event): Dir {
    match e
    case Write(key, data, rank, time, tag, stage) =>
      var rec := Rec(key, data, rank, Some(time));
      (match stage
       case NoFile => dir
       case TempTorn => dir[Temporary(tag) := Torn]
       case TempWhole => dir[Temporary(tag) := rec]
       case Renamed => dir[Record(digest(kind, key)) := rec])
    case Remove(key) => dir - {Record(digest(kind, key))}
    case Evict(keys, _, _) => dir - Names(digest, kind, keys)
  }

  type Live = map<string, Blob>

  /** The last completed value of every key. */
  function LiveStep(live: Live, e: Event): Live {
    match e
    case Write(key, data, rank, time, _, stage) =>
      if stage.Renamed? then live[key := Rec(key, data, rank, Some(time))] else live
    case Remove(key) => live - {key}
    case Evict(keys, _, _) => live - keys
  }

  function DirOf(digest: Digest, kind: string, events: seq<Event>): Dir {
    if events == [] then map[]
    else DirStep(digest, kind, DirOf(digest, kind, events[..|events| - 1]), events[|events| - 1])
  }

  function LiveOf(events: seq<Event>): Live {
    if events == [] then map[] else LiveStep(LiveOf(events[..|events| - 1]), events[|events| - 1])
  }

  /** The keys an event names. */
  function KeysOf(e: Event): set<string> { if e.Evict? then e.keys else {e.key} }

  function Used(events: seq<Event>): set<string> { set i, k | 0 <= i < |events| && k in KeysOf(events[i]) :: k }

  /** No two keys in use have one digest. */
  ghost predicate Apart(digest: Digest, kind: string, keys: set<string>) {
    forall k, l | k in keys && l in keys && digest(kind, k) == digest(kind, l) :: k == l
  }

  // ---------------------------------------------------------------- the directory mirrors the live keys

  /** The records of the directory are the live keys, each under its own name with its last value. */
  ghost predicate Mirrors(digest: Digest, kind: string, dir: Dir, live: Live) {
    && (forall n | n in dir && n.Record? :: dir[n].Rec? && n == Record(digest(kind, dir[n].key)) && dir[n].key in live)
    && (forall k | k in live :: Record(digest(kind, k)) in dir && dir[Record(digest(kind, k))] == live[k] &&
         live[k].Rec? && live[k].key == k)
  }

  lemma {:induction false} WriteMirrors(digest: Digest, kind: string, dir: Dir, live: Live, e: Event)
    requires e.Write? && Mirrors(digest, kind, dir, live) && Apart(digest, kind, live.Keys + {e.key})
    ensures Mirrors(digest, kind, DirStep(digest, kind, dir, e), LiveStep(live, e))
  {
  }

  lemma {:induction false} DropMirrors(digest: Digest, kind: string, dir: Dir, live: Live, keys: set<string>)
    requires Mirrors(digest, kind, dir, live) && Apart(digest, kind, live.Keys + keys)
    ensures Mirrors(digest, kind, dir - Names(digest, kind, keys), live - keys)
  {
    forall k | k in live ensures Record(digest(kind, k)) in Names(digest, kind, keys) <==> k in keys {
      NamedExactly(digest, kind, keys, k);
    }
  }

  lemma {:induction false} NamedExactly(digest: Digest, kind: string, keys: set<string>, k: string)
    requires Apart(digest, kind, keys + {k})
    ensures Record(digest(kind, k)) in Names(digest, kind, keys) <==> k in keys
  {
  }

  lemma {:induction false} StepMirrors(digest: Digest, kind: string, dir: Dir, live: Live, e: Event)
    requires Mirrors(digest, kind, dir, live) && Apart(digest, kind, live.Keys + KeysOf(e))
    ensures Mirrors(digest, kind, DirStep(digest, kind, dir, e), LiveStep(live, e))
  {
    hide Mirrors;
    match e
    case Write(_, _, _, _, _, _) => WriteMirrors(digest, kind, dir, live, e);
    case Remove(key) =>
      DropMirrors(digest, kind, dir, live, {key});
      assert Names(digest, kind, {key}) == {Record(digest(kind, key))};
    case Evict(keys, _, _) => DropMirrors(digest, kind, dir, live, keys);
  }

  lemma {:induction false} LiveUsed(events: seq<Event>)
    ensures LiveOf(events).Keys <= Used(events)
  {
    if events != [] {
      var pre, e := events[..|events| - 1], events[|events| - 1];
      LiveUsed(pre);
      assert Used(events) == Used(pre) + KeysOf(e);
    }
  }

  /** Main result: after any writes, removals and evictions, each interrupted anywhere, the directory holds exactly the
      live keys with their last completed values. */
  lemma {:induction false} RunMirrors(digest: Digest, kind: string, events: seq<Event>)
    requires Apart(digest, kind, Used(events))
    ensures Mirrors(digest, kind, DirOf(digest, kind, events), LiveOf(events))
  {
    if events != [] {
      hide Mirrors;
      var pre, e := events[..|events| - 1], events[|events| - 1];
      assert Used(events) == Used(pre) + KeysOf(e);
      RunMirrors(digest, kind, pre);
      LiveUsed(pre);
      StepMirrors(digest, kind, DirOf(digest, kind, pre), LiveOf(pre), e);
    } else {
      assert DirOf(digest, kind, events) == map[] && LiveOf(events) == map[];
    }
  }

  // ---------------------------------------------------------------- load

  predicate Loads(dir: Dir, n: Name) { n in dir && n.Record? && dir[n].Rec? }

  function EntryAt(dir: Dir): Name -> Entry {
    (n: Name) => if Loads(dir, n) then EntryOf(dir[n]) else Entry("", [], 0, 0.0)
  }

  /** `names` lists the readable records among `among`, each once, in the order the directory gives them. */
  ghost predicate Lists(names: seq<Name>, dir: Dir, among: set<Name>) {
    Distinct(names) && forall n :: n in names <==> n in among && Loads(dir, n)
  }

  function Unreadable(dir: Dir, among: set<Name>): set<Name> {
    set n | n in among && n in dir && n.Record? && dir[n].Torn?
  }

  function Readable(dir: Dir): set<Name> { set n | n in dir && Loads(dir, n) }

  lemma {:induction false} ListsNext(names: seq<Name>, dir: Dir, among: set<Name>, n: Name)
    requires Lists(names, dir, among) && n !in among && n in dir
    ensures Lists(if Loads(dir, n) then names + [n] else names, dir, among + {n})
    ensures |Unreadable(dir, among + {n})| == |Unreadable(dir, among)| + if n.Record? && dir[n].Torn? then 1 else 0
    ensures Map(names + [n], EntryAt(dir)) == Map(names, EntryAt(dir)) + [EntryAt(dir)(n)]
  {
    assert Unreadable(dir, among + {n}) == Unreadable(dir, among) + if n.Record? && dir[n].Torn? then {n} else {};
    assert (names + [n])[..|names|] == names;
  }

  /** Reads every record; temporary files are ignored, a record that is not whole is counted and never guessed. */
  method ReadRecords(dir: Dir) returns (items: seq<Entry>, bad: nat, ghost names: seq<Name>)
    ensures Lists(names, dir, dir.Keys) && items == Map(names, EntryAt(dir)) && bad == |Unreadable(dir, dir.Keys)|
  {
    items, bad, names := [], 0, [];
    var rest := dir.Keys;
    while rest != {}
      invariant rest <= dir.Keys && Lists(names, dir, dir.Keys - rest) && items == Map(names, EntryAt(dir))
      invariant bad == |Unreadable(dir, dir.Keys - rest)|
      decreases |rest|
    {
      hide Lists, Unreadable, Map;
      var n :| n in rest;
      ListsNext(names, dir, dir.Keys - rest, n);
      assert dir.Keys - (rest - {n}) == (dir.Keys - rest) + {n};
      if n.Record? {
        if dir[n].Torn? {
          bad := bad + 1;
        } else {
          items, names := items + [EntryOf(dir[n])], names + [n];
        }
      }
      rest := rest - {n};
    }
    assert dir.Keys - {} == dir.Keys;
  }

  /** The entries still within their retention, in order, and the keys of the others. */
  function Young(items: seq<Entry>, retention: real, now: real): seq<Entry> {
    if items == [] then []
    else
      var pre, e := Young(items[..|items| - 1], retention, now), items[|items| - 1];
      if Past(e.time, retention, now) then pre else pre + [e]
  }

  function OldKeys(items: seq<Entry>, retention: real, now: real): set<string> {
    set e | e in items && Past(e.time, retention, now) :: e.key
  }

  lemma {:induction false} OldNext(items: seq<Entry>, retention: real, now: real, i: nat)
    requires i < |items|
    ensures OldKeys(items[..i + 1], retention, now)
         == OldKeys(items[..i], retention, now) + if Past(items[i].time, retention, now) then {items[i].key} else {}
    ensures Young(items[..i + 1], retention, now)
         == Young(items[..i], retention, now) + if Past(items[i].time, retention, now) then [] else [items[i]]
  {
    assert items[..i + 1][..i] == items[..i];
    assert forall e :: e in items[..i + 1] <==> e in items[..i] || e == items[i];
  }

  /** Deletes the records past their retention and keeps the others. */
  method EvictOld(digest: Digest, kind: string, dir: Dir, items: seq<Entry>, retention: real, now: real)
      returns (keep: seq<Entry>, left: Dir, expired: nat)
    ensures keep == Young(items, retention, now)
    ensures left == dir - Names(digest, kind, OldKeys(items, retention, now))
    ensures expired == |items| - |keep|
  {
    keep, left, expired := [], dir, 0;
    for i := 0 to |items|
      invariant keep == Young(items[..i], retention, now) && expired == i - |keep|
      invariant left == dir - Names(digest, kind, OldKeys(items[..i], retention, now))
    {
      OldNext(items, retention, now, i);
      hide Young, OldKeys;
      if Past(items[i].time, retention, now) {
        left, expired := left - {Record(digest(kind, items[i].key))}, expired + 1;
      } else {
        keep := keep + [items[i]];
      }
    }
    assert items[..|items|] == items;
  }

  function ByRank(): (Entry, Entry) -> bool { (a: Entry, b: Entry) => a.rank <= b.rank }

  /** What a reload made of one directory. */
  ghost predicate LoadedAs(digest: Digest, kind: string, dir: Dir, retention: real, now: real, out: seq<Entry>,
                           left: Dir) {
    exists names :: Lists(names, dir, dir.Keys) && LoadedFrom(digest, kind, dir, names, retention, now, out, left)
  }

  ghost predicate LoadedFrom(digest: Digest, kind: string, dir: Dir, names: seq<Name>, retention: real, now: real,
                             out: seq<Entry>, left: Dir) {
    var items := Map(names, EntryAt(dir));
    && out == Sort(Young(items, retention, now), ByRank())
    && left == dir - Names(digest, kind, OldKeys(items, retention, now))
  }

  /** Reloads one kind: the records read, those past retention deleted, the others in rank order, and how many were
      unreadable or deleted. */
  method LoadKind(digest: Digest, kind: string, dir: Dir, retention: real, now: real) returns (r: Reload)
    ensures ReloadOf(digest, kind, dir, retention, now, r)
  {
    var items, bad, keep, left, expired;
    ghost var names;
    items, bad, names := ReadRecords(dir);
    keep, left, expired := EvictOld(digest, kind, dir, items, retention, now);
    r := Reload(Sort(keep, ByRank()), left, bad, expired);
    SortPermutes(keep, ByRank());
    assert LoadedFrom(digest, kind, dir, names, retention, now, r.out, left);
    ListedSize(names, Readable(dir));
  }

  lemma {:induction false} ListedSize(names: seq<Name>, all: set<Name>)
    requires Distinct(names) && forall n :: n in names <==> n in all
    ensures |names| == |all|
  {
    if names == [] {
      assert all == {};
    } else {
      var pre, last := names[..|names| - 1], names[|names| - 1];
      assert forall n :: n in names <==> n in pre || n == last;
      ListedSize(pre, all - {last});
    }
  }

  // ---------------------------------------------------------------- what a reload gives

  lemma {:induction false} YoungHolds(items: seq<Entry>, retention: real, now: real, e: Entry)
    ensures e in Young(items, retention, now) <==> e in items && !Past(e.time, retention, now)
  {
    if items != [] {
      YoungHolds(items[..|items| - 1], retention, now, e);
      assert forall x :: x in items <==> x in items[..|items| - 1] || x == items[|items| - 1];
    }
  }

  /** No two entries have one key. */
  ghost predicate KeysOnce(items: seq<Entry>) { forall i, j | 0 <= i < j < |items| :: items[i].key != items[j].key }

  lemma {:induction false} YoungOnce(items: seq<Entry>, retention: real, now: real)
    requires KeysOnce(items)
    ensures KeysOnce(Young(items, retention, now))
  {
    if items != [] {
      var pre, e := items[..|items| - 1], items[|items| - 1];
      YoungOnce(pre, retention, now);
      forall x | x in Young(pre, retention, now) ensures x.key != e.key {
        YoungHolds(pre, retention, now, x);
        var i :| 0 <= i < |pre| && pre[i] == x;
        assert items[i] == x;
      }
    }
  }

  function KeyIn(): Entry -> string { (e: Entry) => e.key }

  lemma {:induction false} SortOnce(items: seq<Entry>)
    requires KeysOnce(items)
    ensures KeysOnce(Sort(items, ByRank())) && forall e :: e in Sort(items, ByRank()) <==> e in items
  {
    var sorted := Sort(items, ByRank());
    SortPermutes(items, ByRank());
    PermutedMap(items, sorted, KeyIn());
    assert Distinct(Map(items, KeyIn()));
    PermutedDistinct(Map(items, KeyIn()), Map(sorted, KeyIn()));
    forall i, j | 0 <= i < j < |sorted| ensures sorted[i].key != sorted[j].key {
      assert Map(sorted, KeyIn())[i] != Map(sorted, KeyIn())[j];
    }
    forall e ensures e in sorted <==> e in items { assert e in multiset(sorted) <==> e in multiset(items); }
  }

  lemma {:induction false} MirroredEntries(digest: Digest, kind: string, dir: Dir, live: Live, names: seq<Name>)
    requires Mirrors(digest, kind, dir, live) && Lists(names, dir, dir.Keys)
    ensures KeysOnce(Map(names, EntryAt(dir)))
    ensures forall e :: e in Map(names, EntryAt(dir)) <==>
            e.key in live && live[e.key].Rec? && e == EntryOf(live[e.key])
  {
    var items := Map(names, EntryAt(dir));
    forall i | 0 <= i < |items|
      ensures items[i].key in live && live[items[i].key].Rec? && items[i] == EntryOf(live[items[i].key])
      ensures names[i] == Record(digest(kind, items[i].key))
    {
      assert names[i] in names;
    }
    forall e: Entry | e.key in live && e == EntryOf(live[e.key]) ensures e in items {
      var n := Record(digest(kind, e.key));
      assert n in names;
      var i :| 0 <= i < |names| && names[i] == n;
      assert items[i] == e;
    }
  }

  /** The keys past their retention. */
  function Expired(live: Live, retention: real, now: real): set<string> {
    set k | k in live && live[k].Rec? && Past(TimeOf(live[k]), retention, now)
  }

  lemma {:induction false} OldKeysExpired(items: seq<Entry>, live: Live, retention: real, now: real)
    requires forall e :: e in items <==> e.key in live && live[e.key].Rec? && e == EntryOf(live[e.key])
    requires forall k | k in live :: live[k].Rec? && live[k].key == k
    ensures OldKeys(items, retention, now) == Expired(live, retention, now)
  {
    forall k | k in Expired(live, retention, now) ensures k in OldKeys(items, retention, now) {
      assert EntryOf(live[k]) in items;
    }
  }

  /** Main result: a reload of a directory that mirrors the live keys returns every live key within its retention once,
      with its last value, in rank order, and nothing else; nothing is unreadable; and it deletes exactly the keys past
      their retention, leaving a directory that mirrors the others. */
  lemma {:induction false} LoadReturnsLive(digest: Digest, kind: string, dir: Dir, live: Live, names: seq<Name>,
                                           retention: real, now: real)
    requires Mirrors(digest, kind, dir, live) && Lists(names, dir, dir.Keys) && Apart(digest, kind, live.Keys)
    ensures var items, gone := Map(names, EntryAt(dir)), Expired(live, retention, now);
            var out := Sort(Young(items, retention, now), ByRank());
            && KeysOnce(out) && Sorted(out, ByRank())
            && (forall e :: e in out <==>
                  e.key in live && e.key !in gone && live[e.key].Rec? && e == EntryOf(live[e.key]))
            && OldKeys(items, retention, now) == gone && Unreadable(dir, dir.Keys) == {}
            && Mirrors(digest, kind, dir - Names(digest, kind, gone), live - gone)
  {
    var items, gone := Map(names, EntryAt(dir)), Expired(live, retention, now);
    var young := Young(items, retention, now);
    MirroredEntries(digest, kind, dir, live, names);
    YoungOnce(items, retention, now);
    SortOnce(young);
    ByRankPreorder();
    SortSorts(young, ByRank());
    OldKeysExpired(items, live, retention, now);
    assert live.Keys + gone == live.Keys;
    DropMirrors(digest, kind, dir, live, gone);
    hide Mirrors, Sort, Young, Map, Lists;
    forall e ensures e in Sort(young, ByRank()) <==>
      e.key in live && e.key !in gone && live[e.key].Rec? && e == EntryOf(live[e.key]) {
      YoungHolds(items, retention, now, e);
    }
  }

  lemma {:induction false} ByRankPreorder()
    ensures Preorder(ByRank())
  {
  }

  // ---------------------------------------------------------------- the ranks

  function Rank(ns: int, seq_: int): int { ns * 1000 + seq_ % 1000 }

  /** The rank orders by time, then by the counter modulo 1000: exactly that. */
  lemma {:induction false} RankOrder(ns: int, a: int, ns': int, b: int)
    requires ns <= ns'
    ensures Rank(ns, a) < Rank(ns', b) <==> ns < ns' || a % 1000 < b % 1000
  {
  }

  /** One deposit: the time it was ranked at and the counter of its process. */
  datatype Deposit = Deposit(ns: int, counter: int)

  /** Deposits of successive processes: the counter goes on, or starts again at 1 after a restart. */
  ghost predicate Numbered(ds: seq<Deposit>) {
    && (forall i | 0 <= i < |ds| :: ds[i].counter >= 1)
    && (forall i | 0 <= i < |ds| - 1 :: ds[i + 1].counter == ds[i].counter + 1 || ds[i + 1].counter == 1)
    && (forall i, j | 0 <= i < j < |ds| :: ds[i].ns <= ds[j].ns)
  }

  function RankAt(ds: seq<Deposit>, i: nat): int
    requires i < |ds|
  {
    Rank(ds[i].ns, ds[i].counter)
  }

  /** Two successive deposits of one nanosecond on the two sides of the counter's wrap, or of a restart that did not
      fall on a wrap. */
  predicate Straddles(ds: seq<Deposit>, i: nat)
    requires i + 1 < |ds|
  {
    && ds[i].ns == ds[i + 1].ns
    && if ds[i + 1].counter == 1 then ds[i].counter % 1000 != 0 else ds[i].counter % 1000 == 999
  }

  lemma {:induction false} RankNext(ds: seq<Deposit>, i: nat)
    requires Numbered(ds) && i + 1 < |ds|
    ensures RankAt(ds, i) < RankAt(ds, i + 1) <==> !Straddles(ds, i)
  {
    RankOrder(ds[i].ns, ds[i].counter, ds[i + 1].ns, ds[i + 1].counter);
  }

  lemma {:induction false} RankFar(ds: seq<Deposit>, i: nat, j: nat)
    requires Numbered(ds) && i < j < |ds| && forall k: nat | k + 1 < |ds| :: !Straddles(ds, k)
    ensures RankAt(ds, i) < RankAt(ds, j)
    decreases j - i
  {
    RankNext(ds, j - 1);
    if i < j - 1 { RankFar(ds, i, j - 1); }
  }

  /** Main result: while the clock never goes back, the ranks strictly increase over any number of deposits and
      restarts, exactly unless two successive deposits of one nanosecond straddle the counter's wrap or a restart. */
  lemma {:induction false} RanksIncrease(ds: seq<Deposit>)
    requires Numbered(ds)
    ensures (forall i, j | 0 <= i < j < |ds| :: RankAt(ds, i) < RankAt(ds, j))
        <==> forall k: nat | k + 1 < |ds| :: !Straddles(ds, k)
  {
    hide RankAt, Straddles, Numbered;
    if forall k: nat | k + 1 < |ds| :: !Straddles(ds, k) {
      forall i, j | 0 <= i < j < |ds| ensures RankAt(ds, i) < RankAt(ds, j) { RankFar(ds, i, j); }
    } else {
      var k: nat :| k + 1 < |ds| && Straddles(ds, k);
      RankNext(ds, k);
    }
  }

  // ---------------------------------------------------------------- the store

  /** A temporary file leaves nothing once it is renamed. */
  lemma {:induction false} TempVanishes(dir: Dir, tmp: Name, name: Name, rec: Blob)
    requires tmp !in dir && tmp != name
    ensures dir[tmp := Torn][tmp := rec] == dir[tmp := rec]
    ensures (dir[tmp := Torn][tmp := rec] - {tmp})[name := rec] == dir[name := rec]
  {
  }

  /** The reload of one kind: what it gives, the directory it leaves, and its two counts. */
  datatype Reload = Reload(out: seq<Entry>, left: Dir, bad: nat, expired: nat)

  ghost predicate ReloadOf(digest: Digest, kind: string, dir: Dir, retention: real, now: real, r: Reload) {
    && LoadedAs(digest, kind, dir, retention, now, r.out, r.left)
    && r.bad == |Unreadable(dir, dir.Keys)| && r.expired + |r.out| == |Readable(dir)|
  }

  /** Each kind of `loads` is reloaded as its own reload. */
  ghost predicate ReloadsOf(digest: Digest, disk: map<string, Dir>, retention: real, now: real,
                            loads: map<string, Reload>) {
    forall k | k in loads :: k in disk && ReloadOf(digest, k, disk[k], retention, now, loads[k])
  }

  function Bads(loads: map<string, Reload>): map<string, nat> { map k | k in loads :: loads[k].bad }

  function Expireds(loads: map<string, Reload>): map<string, nat> { map k | k in loads :: loads[k].expired }

  /** What the kinds of `loads` add up to. */
  ghost predicate Totalled(loads: map<string, Reload>, bad: nat, expired: nat) {
    AddsUpTo(Bads(loads), bad) && AddsUpTo(Expireds(loads), expired)
  }

  lemma {:induction false} TotalsNext(loads: map<string, Reload>, k: string, r: Reload, bad: nat, expired: nat)
    requires k !in loads && Totalled(loads, bad, expired)
    ensures Totalled(loads[k := r], bad + r.bad, expired + r.expired)
  {
    hide AddsUpTo;
    EarnAddsUp(Bads(loads), k, r.bad, bad);
    EarnAddsUp(Expireds(loads), k, r.expired, expired);
    assert Bads(loads[k := r]) == Earn(Bads(loads), k, r.bad);
    assert Expireds(loads[k := r]) == Earn(Expireds(loads), k, r.expired);
  }

  lemma {:induction false} NoneLoaded(digest: Digest, disk: map<string, Dir>, retention: real, now: real)
    ensures ReloadsOf(digest, disk, retention, now, map[]) && Totalled(map[], 0, 0)
  {
    EmptyAddsUp(Bads(map[]));
    EmptyAddsUp(Expireds(map[]));
  }

  lemma {:induction false} OneMoreLoaded(digest: Digest, disk: map<string, Dir>, loads: map<string, Reload>,
                                         retention: real, now: real, k: string, r: Reload, bad: nat, expired: nat)
    requires ReloadsOf(digest, disk, retention, now, loads) && Totalled(loads, bad, expired)
    requires k in disk && k !in loads && ReloadOf(digest, k, disk[k], retention, now, r)
    ensures ReloadsOf(digest, disk, retention, now, loads[k := r])
    ensures Totalled(loads[k := r], bad + r.bad, expired + r.expired)
  {
    hide ReloadOf, Totalled;
    TotalsNext(loads, k, r, bad, expired);
  }

  /** The loop over the kinds: the directories are independent, and the two totals add up over them. */
  method LoadAll(digest: Digest, disk: map<string, Dir>, retention: real, now: real)
      returns (loads: map<string, Reload>, corrupt: nat, expired: nat)
    ensures ReloadsOf(digest, disk, retention, now, loads) && loads.Keys == disk.Keys
    ensures Totalled(loads, corrupt, expired)
  {
    hide ReloadsOf, ReloadOf, Totalled;
    NoneLoaded(digest, disk, retention, now);
    var all: map<string, Reload>, bad: nat, gone: nat, rest := map[], 0, 0, disk.Keys;
    while rest != {}
      invariant all.Keys == disk.Keys - rest && rest <= disk.Keys
      invariant ReloadsOf(digest, disk, retention, now, all) && Totalled(all, bad, gone)
      decreases |rest|
    {
      var kind :| kind in rest;
      var r := LoadKind(digest, kind, disk[kind], retention, now);
      OneMoreLoaded(digest, disk, all, retention, now, kind, r, bad, gone);
      all, bad, gone, rest := all[kind := r], bad + r.bad, gone + r.expired, rest - {kind};
    }
    return all, bad, gone;
  }

  class DiskStore {
    const digest: Digest
    const kinds: set<string>
    var disk: map<string, Dir>
    var counter: nat
    var lastLoadExpired: nat
    var lastLoadCorrupt: nat

    ghost predicate Valid()
      reads this
    {
      disk.Keys == kinds
    }

    constructor (digest: Digest, disk: map<string, Dir>)
      ensures Valid() && this.digest == digest && this.disk == disk && counter == 0
    {
      this.digest, kinds, this.disk, counter := digest, disk.Keys, disk, 0;
      lastLoadExpired, lastLoadCorrupt := 0, 0;
    }

    method NextSeq(ns: int) returns (rank: int)
      modifies this`counter
      ensures counter == old(counter) + 1 && rank == Rank(ns, counter)
    {
      counter := counter + 1;
      rank := ns * 1000 + counter % 1000;
    }

    /** Deposits a record: the temporary file, its content, then the rename, stopping where a crash stops it. */
    method Write(kind: string, key: string, data: seq<int>, rank: int, time: real, tag: nat, stage: Stage)
      requires Valid() && kind in kinds && Temporary(tag) !in disk[kind]
      modifies this`disk
      ensures Valid()
      ensures disk == old(disk)[kind := DirStep(digest, kind, old(disk)[kind],
              Event.Write(key, data, rank, time, tag, stage))]
    {
      var tmp, name, rec := Temporary(tag), Record(digest(kind, key)), Rec(key, data, rank, Some(time));
      var dir := disk[kind];
      TempVanishes(dir, tmp, name, rec);
      if stage.NoFile? {
        assert disk[kind := dir] == disk;
        return;
      }
      disk := disk[kind := disk[kind][tmp := Torn]];
      if stage.TempTorn? {
        return;
      }
      disk := disk[kind := disk[kind][tmp := rec]];
      if stage.TempWhole? {
        return;
      }
      disk := disk[kind := (disk[kind] - {tmp})[name := rec]];
    }

    method Remove(kind: string, key: string)
      requires Valid() && kind in kinds
      modifies this`disk
      ensures Valid() && disk == old(disk)[kind := DirStep(digest, kind, old(disk)[kind], Event.Remove(key))]
    {
      disk := disk[kind := disk[kind] - {Record(digest(kind, key))}];
    }

    /** Reloads every kind, each as its own reload, and counts over them all the records deleted and those that cannot
        be read. */
    method Load(retention: real, now: real) returns (out: map<string, seq<Entry>>, ghost loads: map<string, Reload>)
      requires Valid()
      modifies this`disk, this`lastLoadExpired, this`lastLoadCorrupt
      ensures Valid() && out.Keys == loads.Keys == kinds
      ensures ReloadsOf(digest, old(disk), retention, now, loads)
      ensures forall k | k in kinds :: out[k] == loads[k].out && disk[k] == loads[k].left
      ensures Totalled(loads, lastLoadCorrupt, lastLoadExpired)
    {
      hide ReloadOf, Totalled;
      var all, bad, gone := LoadAll(digest, disk, retention, now);
      lastLoadCorrupt, lastLoadExpired := bad, gone;
      disk := map k | k in all :: all[k].left;
      return map k | k in all :: all[k].out, all;
    }
  }

  /** Main result: after any history of a kind, crashes anywhere, a reload gives back every live key within its
      retention once with its last completed value, in rank order, and drops only keys past their retention. */
  lemma {:induction false} ReloadAfterAnyRun(digest: Digest, kind: string, events: seq<Event>, retention: real,
                                             now: real, out: seq<Entry>, left: Dir)
    requires Apart(digest, kind, Used(events)) &&
             LoadedAs(digest, kind, DirOf(digest, kind, events), retention, now, out, left)
    ensures var live, gone := LiveOf(events), Expired(LiveOf(events), retention, now);
            && KeysOnce(out) && Sorted(out, ByRank())
            && (forall e :: e in out <==>
                  e.key in live && e.key !in gone && live[e.key].Rec? && e == EntryOf(live[e.key]))
            && left == DirOf(digest, kind, events + [Evict(gone, retention, now)])
            && Mirrors(digest, kind, left, live - gone)
  {
    var dir, live := DirOf(digest, kind, events), LiveOf(events);
    var names :| Lists(names, dir, dir.Keys) && LoadedFrom(digest, kind, dir, names, retention, now, out, left);
    RunMirrors(digest, kind, events);
    LiveUsed(events);
    LoadReturnsLive(digest, kind, dir, live, names, retention, now);
    hide Mirrors, Sort, Young, Lists, OldKeys, Expired;
    assert (events + [Evict(Expired(live, retention, now), retention, now)])[..|events|] == events;
  }

  // ---------------------------------------------------------------- what comes back, from the history alone

  /** The event ends what was held under `key`: a completed write of it, its removal or its eviction. */
  predicate Ends(e: Event, key: string) {
    match e
    case Write(k, _, _, _, _, stage) => k == key && stage == Renamed
    case Remove(k) => k == key
    case Evict(keys, _, _) => key in keys
  }

  /** Event `n` is a completed write of `key`, and nothing later ends it. */
  ghost predicate LastWrite(events: seq<Event>, n: nat, key: string) {
    && n < |events| && events[n].Write? && events[n].key == key && events[n].stage == Renamed
    && forall m | n < m < |events| :: !Ends(events[m], key)
  }

  function Written(e: Event): Blob
    requires e.Write?
  {
    Rec(e.key, e.data, e.rank, Some(e.time))
  }

  lemma {:induction false} NotEnded(events: seq<Event>, n: nat, m: nat, key: string)
    requires LastWrite(events, n, key) && n < m < |events|
    ensures !Ends(events[m], key)
  {
  }

  lemma {:induction false} OneLastWrite(events: seq<Event>, m: nat, n: nat, key: string)
    requires LastWrite(events, m, key) && LastWrite(events, n, key)
    ensures m == n
  {
    if m < n { NotEnded(events, m, n, key); }
    if n < m { NotEnded(events, n, m, key); }
  }

  /** A key is live exactly when some completed write of it was ended by nothing since, with the value of that write. */
  lemma {:induction false} LiveExactly(events: seq<Event>, key: string)
    ensures key in LiveOf(events) <==> exists n: nat :: LastWrite(events, n, key)
    ensures forall n: nat | LastWrite(events, n, key) ::
            key in LiveOf(events) && LiveOf(events)[key] == Written(events[n])
  {
    if events != [] {
      var k: nat := |events| - 1;
      var pre, e := events[..k], events[k];
      LiveExactly(pre, key);
      LiveNext(events, key);
      hide LiveOf;
      if Ends(e, key) {
        if e.Write? { assert LastWrite(events, k, key); }
        forall n: nat | LastWrite(events, n, key) ensures n == k && e.Write? {
          if n < k { NotEnded(events, n, k, key); }
        }
      } else {
        forall n: nat ensures LastWrite(events, n, key) <==> LastWrite(pre, n, key) { WriteStays(events, n, key); }
      }
    }
  }

  lemma {:induction false} WriteStays(events: seq<Event>, n: nat, key: string)
    requires events != [] && !Ends(events[|events| - 1], key)
    ensures LastWrite(events, n, key) <==> LastWrite(events[..|events| - 1], n, key)
  {
    var pre := events[..|events| - 1];
    assert forall m | 0 <= m < |pre| :: pre[m] == events[m];
  }

  lemma {:induction false} LiveNext(events: seq<Event>, key: string)
    requires events != []
    ensures var before, e := LiveOf(events[..|events| - 1]), events[|events| - 1];
            && (!Ends(e, key) ==> (key in LiveOf(events) <==> key in before)
                                  && (key in before ==> LiveOf(events)[key] == before[key]))
            && (Ends(e, key) ==> (key in LiveOf(events) <==> e.Write?)
                                 && (e.Write? ==> LiveOf(events)[key] == Written(e)))
  {
  }

  /** The time of a deposit: the one it carries or, when that is 0, the one its rank was made from. */
  function DepositTime(e: Event): real
    requires e.Write?
  {
    if e.time != 0.0 then e.time else ((e.rank / 1000) as real) / 1_000_000_000.0
  }

  /** A record that carries no time is dated, in seconds, by the clock its rank was made from. */
  lemma {:induction false} RankDates(key: string, data: seq<int>, ns: int, counter: int)
    ensures TimeOf(Rec(key, data, Rank(ns, counter), None)) == (ns as real) / 1_000_000_000.0
  {
    assert Rank(ns, counter) / 1000 == ns;
  }

  /** Main result: after any history of a kind, crashes anywhere, a reload gives an entry exactly when the history has a
      completed write of its key, content and rank that nothing ended since and whose age is not above the retention,
      or none is set; no key twice, and no entry before one of a lower rank. */
  lemma {:induction false} ComesBackExactly(digest: Digest, kind: string, events: seq<Event>, retention: real,
                                            now: real, out: seq<Entry>, left: Dir, x: Entry)
    requires Apart(digest, kind, Used(events)) &&
             LoadedAs(digest, kind, DirOf(digest, kind, events), retention, now, out, left)
    ensures x in out <==> exists n: nat | LastWrite(events, n, x.key) ::
              var e := events[n];
              && x.data == e.data && x.rank == e.rank && x.time == DepositTime(e)
              && (retention <= 0.0 || now - x.time <= retention)
    ensures forall i, j | 0 <= i < j < |out| :: out[i].key != out[j].key && out[i].rank <= out[j].rank
  {
    ReloadAfterAnyRun(digest, kind, events, retention, now, out, left);
    LiveExactly(events, x.key);
    var live := LiveOf(events);
    hide LiveOf, DirOf, LoadedAs, LastWrite, Mirrors, Apart, Used;
    if n: nat :| LastWrite(events, n, x.key) { assert live[x.key] == Written(events[n]); }
    forall n: nat | LastWrite(events, n, x.key) ensures live[x.key] == Written(events[n]) {}
    forall i, j | 0 <= i < j < |out| ensures out[i].rank <= out[j].rank { assert ByRank()(out[i], out[j]); }
  }
}
