/** What the per-miner route of the capacity registry may publish: a report class only when enough registered rows
    share it, and a withheld pool that is never a small one. */
module MinerClasses {
  import opened Wrappers
  import opened CapacityStore
  import opened Tally

  const MINER_ANONYMITY_MIN: nat := 5

  /** The values an answer shares with the report's public row. */
  datatype Class = Class(kit: nat, role: string, stale: bool)

  function ClassOf(cfg: Config, r: Report, now: real): Class { Class(r.row.kit, r.row.role, IsStale(cfg, r, now)) }

  /** The class of every row the public list marks registered. */
  function RegisteredRows(cfg: Config, s: Store, registry: set<string>, now: real): map<string, Class> {
    map k | k in s && k !in FoldedKeys(s) && s[k].proven != "" && s[k].proven in registry :: ClassOf(cfg, s[k], now)
  }

  /** The rows whose class is in `p`. */
  function Covered(rows: map<string, Class>, p: set<Class>): set<string> { set k | k in rows && rows[k] in p }

  function Sharing(rows: map<string, Class>, c: Class): set<string> { Credited(rows.Keys, rows, c) }

  /** The rows the answer withholds: those of no published class. */
  function Withheld(rows: map<string, Class>, p: set<Class>): set<string> { set k | k in rows && rows[k] !in p }

  /** What may be published. */
  ghost predicate Anonymous(rows: map<string, Class>, p: set<Class>) {
    && (forall c | c in p :: |Sharing(rows, c)| >= MINER_ANONYMITY_MIN)
    && (Withheld(rows, p) == {} || |Withheld(rows, p)| >= MINER_ANONYMITY_MIN)
  }

  /** Nothing is held back without need: the classes held back are the smallest ones, and only while the pool without
      them would be too small. */
  ghost predicate Needed(rows: map<string, Class>, p: set<Class>) {
    forall c | |Sharing(rows, c)| >= MINER_ANONYMITY_MIN && c !in p ::
      && 0 < |Withheld(rows, Large(rows))| < MINER_ANONYMITY_MIN
      && forall d | d in p :: |Sharing(rows, c)| <= |Sharing(rows, d)|
  }

  ghost function Large(rows: map<string, Class>): set<Class> {
    set k | k in rows && |Sharing(rows, rows[k])| >= MINER_ANONYMITY_MIN :: rows[k]
  }

  lemma {:induction false} CoveredGrows(rows: map<string, Class>, p: set<Class>, c: Class)
    requires c !in p
    ensures |Covered(rows, p + {c})| == |Covered(rows, p)| + |Sharing(rows, c)|
  {
    assert Covered(rows, p + {c}) == Covered(rows, p) + Sharing(rows, c);
    assert Covered(rows, p) !! Sharing(rows, c);
  }

  lemma {:induction false} CoveredOrWithheld(rows: map<string, Class>, p: set<Class>)
    ensures |Covered(rows, p)| + |Withheld(rows, p)| == |rows|
  {
    assert rows.Keys == Covered(rows, p) + Withheld(rows, p);
    assert Covered(rows, p) !! Withheld(rows, p);
  }

  /** How many rows share each class. */
  method Sizes(rows: map<string, Class>) returns (sizes: map<Class, nat>)
    ensures forall c: Class :: Get(sizes, c, 0) == |Sharing(rows, c)|
    ensures sizes.Keys == rows.Values
  {
    sizes := map[];
    var rest := rows.Keys;
    ghost var done: set<string> := {};
    while rest != {}
      invariant rest !! done && rest + done == rows.Keys
      invariant Tallied(rows.Keys, rows, done, sizes) && sizes.Keys == set k | k in done :: rows[k]
      decreases |rest|
    {
      var k :| k in rest;
      TallyStep(rows.Keys, rows, done, k, sizes);
      assert (set j | j in done + {k} :: rows[j]) == (set j | j in done :: rows[j]) + {rows[k]};
      sizes := Add(sizes, rows[k]);
      rest, done := rest - {k}, done + {k};
    }
    TallyDone(rows.Keys, rows, done, sizes);
  }

  /** The rows covered by a set of classes, summed from the sizes. */
  method SumSizes(rows: map<string, Class>, sizes: map<Class, nat>, p: set<Class>) returns (n: nat)
    requires p <= sizes.Keys && forall c: Class :: Get(sizes, c, 0) == |Sharing(rows, c)|
    ensures n == |Covered(rows, p)|
  {
    n := 0;
    var rest := p;
    assert Covered(rows, {}) == {};
    assert p - rest == {};
    while rest != {}
      invariant rest <= p && n == |Covered(rows, p - rest)|
      decreases |rest|
    {
      var c :| c in rest;
      CoveredGrows(rows, p - rest, c);
      assert p - (rest - {c}) == (p - rest) + {c};
      n := n + sizes[c];
      assert Get(sizes, c, 0) == sizes[c];
      rest := rest - {c};
    }
    assert p - {} == p;
  }

  lemma {:induction false} SmallestExists(sizes: map<Class, nat>, p: set<Class>)
    requires p <= sizes.Keys && p != {}
    ensures exists c :: IsSmallest(sizes, p, c)
  {
    var z :| z in p;
    if p == {z} {
      assert IsSmallest(sizes, p, z);
    } else {
      assert p == {z} + (p - {z});
      SmallestExists(sizes, p - {z});
      var c :| IsSmallest(sizes, p - {z}, c);
      assert IsSmallest(sizes, p, if sizes[z] <= sizes[c] then z else c);
    }
  }

  predicate IsSmallest(sizes: map<Class, nat>, p: set<Class>, c: Class)
    requires p <= sizes.Keys
  {
    c in p && forall d | d in p :: sizes[c] <= sizes[d]
  }

  /** The classes still published once the smallest ones joined a pool that was too small. */
  ghost predicate Joining(rows: map<string, Class>, sizes: map<Class, nat>, p: set<Class>) {
    && p <= Large(rows) && Large(rows) <= sizes.Keys
    && (forall c, d | c in Large(rows) - p && d in p :: sizes[c] <= sizes[d])
    && (p != Large(rows) ==> 0 < |Withheld(rows, Large(rows))| < MINER_ANONYMITY_MIN)
  }

  lemma {:induction false} JoinNext(rows: map<string, Class>, sizes: map<Class, nat>, p: set<Class>, c: Class)
    requires Joining(rows, sizes, p) && IsSmallest(sizes, p, c)
    requires 0 < |Withheld(rows, p)| < MINER_ANONYMITY_MIN
    requires sizes[c] == |Sharing(rows, c)|
    ensures Joining(rows, sizes, p - {c})
    ensures |Withheld(rows, p - {c})| == |Withheld(rows, p)| + sizes[c]
  {
    assert Withheld(rows, p - {c}) == Withheld(rows, p) + Sharing(rows, c);
    assert Withheld(rows, p) !! Sharing(rows, c);
  }

  lemma {:induction false} JoinedIsPublishable(rows: map<string, Class>, sizes: map<Class, nat>, p: set<Class>)
    requires forall c: Class :: Get(sizes, c, 0) == |Sharing(rows, c)|
    requires Joining(rows, sizes, p) && !(0 < |rows| < MINER_ANONYMITY_MIN)
    requires p == {} || |Withheld(rows, p)| == 0 || |Withheld(rows, p)| >= MINER_ANONYMITY_MIN
    ensures Anonymous(rows, p) && Needed(rows, p)
  {
    CoveredOrWithheld(rows, p);
    if p == {} { assert Covered(rows, p) == {}; }
    forall c | c in sizes ensures sizes[c] == |Sharing(rows, c)| { assert Get(sizes, c, 0) == sizes[c]; }
    forall c | |Sharing(rows, c)| >= MINER_ANONYMITY_MIN ensures c in Large(rows) {
      var k :| k in Sharing(rows, c);
    }
  }

  lemma {:induction false} SizesOf(rows: map<string, Class>, sizes: map<Class, nat>)
    requires forall c: Class :: Get(sizes, c, 0) == |Sharing(rows, c)|
    requires forall k | k in rows :: rows[k] in sizes
    ensures (forall c | c in sizes :: sizes[c] == |Sharing(rows, c)|) && Covered(rows, sizes.Keys) == rows.Keys
    ensures Joining(rows, sizes, set c | c in sizes && sizes[c] >= MINER_ANONYMITY_MIN)
  {
    forall c | c in sizes ensures sizes[c] == |Sharing(rows, c)| { assert Get(sizes, c, 0) == sizes[c]; }
    var large := set c | c in sizes && sizes[c] >= MINER_ANONYMITY_MIN;
    forall c | c in large ensures c in Large(rows) { var k :| k in Sharing(rows, c); }
    assert large == Large(rows);
  }

  /** The classes that may be published, or None when nothing may be said of any registered identity. Among classes of
      one size the order they join in is left open. */
  method Publishable(rows: map<string, Class>) returns (r: Option<set<Class>>)
    ensures r.None? <==> 0 < |rows| < MINER_ANONYMITY_MIN
    ensures r.Some? ==> Anonymous(rows, r.value) && Needed(rows, r.value)
  {
    var sizes := Sizes(rows);
    SizesOf(rows, sizes);
    hide Large, Withheld, Sharing, Covered, Joining;
    var total := SumSizes(rows, sizes, sizes.Keys);
    if 0 < total < MINER_ANONYMITY_MIN {
      return None;
    }
    var published := set c | c in sizes && sizes[c] >= MINER_ANONYMITY_MIN;
    var covered := SumSizes(rows, sizes, published);
    CoveredOrWithheld(rows, published);
    var withheld := total - covered;
    while published != {}
      invariant Joining(rows, sizes, published) && withheld == |Withheld(rows, published)|
      decreases |published|
    {
      if withheld == 0 || withheld >= MINER_ANONYMITY_MIN {
        break;
      }
      SmallestExists(sizes, published);
      var c :| IsSmallest(sizes, published, c);
      JoinNext(rows, sizes, published, c);
      published := published - {c};
      withheld := withheld + sizes[c];
    }
    JoinedIsPublishable(rows, sizes, published);
    return Some(published);
  }

  /** The classes of the rows a store holds for a registry. */
  method ClassesOf(cfg: Config, s: Store, registry: set<string>, now: real) returns (r: Option<set<Class>>)
    ensures var rows := RegisteredRows(cfg, s, registry, now);
            && (r.None? <==> 0 < |rows| < MINER_ANONYMITY_MIN)
            && (r.Some? ==> Anonymous(rows, r.value) && Needed(rows, r.value))
  {
    var folded := DeclaredFolded(s);
    var rows := map k | k in s && k !in folded && s[k].proven != "" && s[k].proven in registry ::
      ClassOf(cfg, s[k], now);
    r := Publishable(rows);
  }

  // ---------------------------------------------------------------- the answer about one miner

  const MINER_AGE_STEP_MIN: int := 15

  /** Minutes since the report was stored, rounded down to the step; none when its time cannot be read. */
  function ReportAge(r: Report, now: real): Option<int> {
    if !(0 < r.ts && r.ts as real <= now) then None
    else
      var minutes := ((now - r.ts as real) / 60.0).Floor;
      Some(minutes - minutes % MINER_AGE_STEP_MIN)
  }

  datatype View = NoReport | Hidden | Shown(class_: Class, age: Option<int>)

  /** What the route says of the signed report of a registered miner. */
  function MinerView(cfg: Config, s: Store, mid: string, published: Option<set<Class>>, now: real): View {
    var k := KEY_PROVEN + mid;
    var signed := if k in s && s[k].proven == mid then Some(s[k]) else None;
    if published.None? || (signed.Some? && ClassOf(cfg, signed.value, now) !in published.value) then Hidden
    else if signed.Some? then Shown(ClassOf(cfg, signed.value, now), ReportAge(signed.value, now))
    else NoReport
  }

  /** Exactly what is shown of a registered miner: nothing is withheld but a report whose class is not published, or
      everything when nothing may be; otherwise its kit, its role, whether it is older than STALE_S, and its age. */
  lemma {:induction false} ShownExactly(cfg: Config, s: Store, mid: string, published: Option<set<Class>>, now: real)
    ensures var v, k := MinerView(cfg, s, mid, published, now), "signed::" + mid;
            var held := k in s && s[k].proven == mid;
            && (v.Hidden? <==> published.None? || (held && ClassOf(cfg, s[k], now) !in published.value))
            && (v.NoReport? <==> published.Some? && !held)
            && (v.Shown? ==>
                  && v.class_ == Class(s[k].row.kit, s[k].row.role, now - s[k].ts as real > cfg.stale as real)
                  && v.age == ReportAge(s[k], now))
  {
  }

  /** The two answers differ in the age of the report at most. */
  predicate SameButAge(v: View, w: View) { v == w || (v.Shown? && w.Shown? && v.class_ == w.class_) }

  /** The registered miners the route answers as it answers `mid`, the age of a report aside. */
  function AnsweredAlike(cfg: Config, s: Store, registry: set<string>, published: Option<set<Class>>, now: real,
                         mid: string)
    : set<string>
  {
    set m | m in registry && SameButAge(MinerView(cfg, s, m, published, now), MinerView(cfg, s, mid, published, now))
  }

  /** The age dates a report to its step and no better: reports shown with one age were stored less than a step apart,
      and a report is shown with the age of every time of its step. */
  lemma {:induction false} AgeDatesToTheStep(a: Report, b: Report, now: real)
    requires ReportAge(a, now).Some? && ReportAge(b, now).Some?
    ensures ReportAge(a, now) == ReportAge(b, now) ==>
            -(MINER_AGE_STEP_MIN * 60) < a.ts - b.ts < MINER_AGE_STEP_MIN * 60
    ensures ReportAge(a, now) == ReportAge(b, now) <==>
              ((now - a.ts as real) / 60.0).Floor / MINER_AGE_STEP_MIN ==
                ((now - b.ts as real) / 60.0).Floor / MINER_AGE_STEP_MIN
  {
    var x, y := (now - a.ts as real) / 60.0, (now - b.ts as real) / 60.0;
    assert x.Floor as real <= x < x.Floor as real + 1.0;
    assert y.Floor as real <= y < y.Floor as real + 1.0;
    assert a.ts as real - b.ts as real == 60.0 * (y - x);
  }

  function MinersOf(s: Store, keys: set<string>): set<string> { set k | k in keys && k in s :: s[k].proven }

  lemma {:induction false} MinersApart(s: Store, keys: set<string>)
    requires AllPlaced(s) && keys <= s.Keys && forall k | k in keys :: s[k].proven != ""
    ensures |MinersOf(s, keys)| == |keys|
  {
    if keys != {} {
      var k :| k in keys;
      MinersApart(s, keys - {k});
      assert MinersOf(s, keys) == MinersOf(s, keys - {k}) + {s[k].proven};
      forall j | j in keys - {k} ensures s[j].proven != s[k].proven {
        assert Placed(j, s[j]) && Placed(k, s[k]);
      }
    }
  }

  /** The miners of a group of rows that are all answered as `mid` is are among those answered alike. */
  lemma {:induction false} CrowdOf(cfg: Config, s: Store, registry: set<string>, published: Option<set<Class>>,
                                   now: real, mid: string,
                keys: set<string>)
    requires AllPlaced(s) && keys <= s.Keys
    requires forall k | k in keys :: s[k].proven != "" && s[k].proven in registry
    requires forall k | k in keys ::
               SameButAge(MinerView(cfg, s, s[k].proven, published, now), MinerView(cfg, s, mid, published, now))
    ensures |keys| <= |AnsweredAlike(cfg, s, registry, published, now, mid)|
  {
    MinersApart(s, keys);
    var a, b := MinersOf(s, keys), AnsweredAlike(cfg, s, registry, published, now, mid);
    assert a <= b;
    assert b == a + (b - a);
  }

  /** Main result: a registered miner's answer, the age of its report aside, is shared by a crowd. A class shown, or a
      report withheld, is the answer of at least MINER_ANONYMITY_MIN registered miners; and when nothing may be
      published every registered miner, with a report or without one, gets the same answer. */
  lemma {:induction false} AnswersHideInACrowd(cfg: Config, s: Store, registry: set<string>,
                                               published: Option<set<Class>>, now: real, mid: string)
    requires AllPlaced(s) && mid in registry && mid != ""
    requires published.None? || Anonymous(RegisteredRows(cfg, s, registry, now), published.value)
    ensures var v, alike := MinerView(cfg, s, mid, published, now),
            AnsweredAlike(cfg, s, registry, published, now, mid);
            && (published.None? ==> v.Hidden? && alike == registry)
            && (published.Some? && !v.NoReport? ==> |alike| >= MINER_ANONYMITY_MIN)
  {
    var rows := RegisteredRows(cfg, s, registry, now);
    var v := MinerView(cfg, s, mid, published, now);
    if published.Some? && !v.NoReport? {
      var k := KEY_PROVEN + mid;
      assert k in rows;
      var keys := if v.Hidden? then Withheld(rows, published.value) else Sharing(rows, rows[k]);
      assert k in keys;
      forall j | j in keys ensures SameButAge(MinerView(cfg, s, s[j].proven, published, now), v) {
        assert Placed(j, s[j]);
      }
      CrowdOf(cfg, s, registry, published, now, mid, keys);
    }
  }
}
