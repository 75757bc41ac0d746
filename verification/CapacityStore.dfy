/** The capacity registry: two keyspaces in one store, signed reports ordered against replays, declared reports
    bounded in number, and a verified block that only proofs can reach. */
module CapacityStore {
  import opened Wrappers
  import opened Ordering

  const KEY_PROVEN := "signed::"
  const KEY_DECLARED := "decl::"
  const KEY_PROVEN_OLD := "signe::"
  const DECLARED_MAX: nat := 2000

  /** The figures of a report's public row that the verified block sums. */
  datatype Row = Row(vram: nat, ram: nat, cores: nat, canJudge: bool, role: string, kit: nat, secondary: bool)

  /** A stored report. `proven` is the miner its signature proves, "" for none; `order` the signed height and
      sequence, which every proven deposit carries. */
  datatype Report = Report(proven: string, machine: string, nodeId: string, minerIds: seq<string>, ts: int,
                           order: Option<(int, int)>, row: Row)

  type Store = map<string, Report>

  /** STALE_S and PURGE_S. */
  datatype Config = Config(stale: int, purge: int)

  // ---------------------------------------------------------------- keys

  function OrQuestion(s: string): string { if s == "" then "?" else s }

  function DeclaredTail(r: Report): string { OrQuestion(r.machine) + "::" + OrQuestion(r.nodeId) }

  function StorageKey(r: Report): string {
    if r.proven != "" then KEY_PROVEN + r.proven else KEY_DECLARED + DeclaredTail(r)
  }

  /** The key the same report had before the namespaces existed, unless it lies in a namespace. */
  function SupersededKeys(r: Report): set<string> {
    var tail := DeclaredTail(r);
    if KEY_PROVEN <= tail || KEY_DECLARED <= tail || KEY_PROVEN_OLD <= tail then {} else {tail}
  }

  predicate IsDeclared(k: string) { KEY_DECLARED <= k }
  predicate IsSigned(k: string) { KEY_PROVEN <= k }

  /** No key is in both namespaces, and a proven key names one miner. */
  lemma {:induction false} NamespacesApart(m: string, n: string, k: string)
    ensures !(IsDeclared(k) && IsSigned(k))
    ensures KEY_PROVEN + m == KEY_PROVEN + n ==> m == n
  {
    assert KEY_DECLARED[0] != KEY_PROVEN[0];
    assert (KEY_PROVEN + m)[|KEY_PROVEN|..] == m && (KEY_PROVEN + n)[|KEY_PROVEN|..] == n;
  }

  // ---------------------------------------------------------------- replays

  predicate IsStale(cfg: Config, r: Report, now: real) { now - r.ts as real > cfg.stale as real }

  predicate OrderLess(a: (int, int), b: (int, int)) { a.0 < b.0 || (a.0 == b.0 && a.1 < b.1) }

  predicate OlderThanStored(cfg: Config, prev: Option<Report>, mid: string, order: (int, int), now: real) {
    && prev.Some? && prev.value.proven == mid && !IsStale(cfg, prev.value, now)
    && prev.value.order.Some? && OrderLess(order, prev.value.order.value)
  }

  // ---------------------------------------------------------------- the bound on declared entries

  function DeclaredKeys(s: Store): set<string> { set k | k in s && IsDeclared(k) }

  function TsOf(s: Store, k: string): int { if k in s then s[k].ts else 0 }

  /** Older first: by receipt time, then by key. */
  predicate AgeLe(s: Store, a: string, b: string) {
    TsOf(s, a) < TsOf(s, b) || (TsOf(s, a) == TsOf(s, b) && StringLe(a, b))
  }

  function Excess(s: Store): int { |DeclaredKeys(s)| - DECLARED_MAX }

  /** `out` is `s` without its oldest declared entries beyond the bound, `keep` never among them. */
  ghost predicate Capped(s: Store, keep: string, out: Store) {
    exists e: set<string> :: Evicts(s, keep, e) && out == s - e
  }

  ghost predicate Evicts(s: Store, keep: string, e: set<string>) {
    && e <= DeclaredKeys(s) - {keep}
    && |e| == (if Excess(s) < 0 then 0 else Excess(s))
    && forall a, b | a in e && b in DeclaredKeys(s) - {keep} - e :: AgeLe(s, a, b)
  }

  lemma {:induction false} AgeLePreorder(s: Store)
    ensures Preorder((a: string, b: string) => AgeLe(s, a, b))
  {
    forall a, b ensures AgeLe(s, a, b) || AgeLe(s, b, a) { StringLeTotal(a, b); }
    forall a, b, c | AgeLe(s, a, b) && AgeLe(s, b, c) ensures AgeLe(s, a, c) {
      if StringLe(a, b) && StringLe(b, c) { StringLeTransitive(a, b, c); }
    }
  }

  /** The first `n` of a sorted listing without repeats are `n` entries, none younger than the rest. */
  lemma {:induction false} OldestFirst(s: Store, sorted: seq<string>, n: nat)
    requires n <= |sorted| && Sorted(sorted, (a: string, b: string) => AgeLe(s, a, b))
    requires forall i, j | 0 <= i < j < |sorted| :: sorted[i] != sorted[j]
    ensures |Upto(sorted, n)| == n
    ensures forall a, b | a in Upto(sorted, n) && b in sorted && b !in Upto(sorted, n) :: AgeLe(s, a, b)
  {
    DistinctSize(sorted, n);
    forall a, b | a in Upto(sorted, n) && b in sorted && b !in Upto(sorted, n) ensures AgeLe(s, a, b) {
      var i :| 0 <= i < n && sorted[i] == a;
      var j :| 0 <= j < |sorted| && sorted[j] == b;
      assert j >= n;
    }
  }

  lemma {:induction false} DistinctSize(keys: seq<string>, n: nat)
    requires n <= |keys| && forall i, j | 0 <= i < j < |keys| :: keys[i] != keys[j]
    ensures |Upto(keys, n)| == n
  {
    if n > 0 {
      DistinctSize(keys, n - 1);
      assert keys[..n] == keys[..n - 1] + [keys[n - 1]];
      assert Upto(keys, n) == Upto(keys, n - 1) + {keys[n - 1]};
    }
  }

  /** Sorting a listing without repeats keeps it one. */
  lemma {:induction false} SortKeepsListing(keys: seq<string>, le: (string, string) -> bool)
    requires forall i, j | 0 <= i < j < |keys| :: keys[i] != keys[j]
    ensures forall i, j | 0 <= i < j < |Sort(keys, le)| :: Sort(keys, le)[i] != Sort(keys, le)[j]
    ensures forall k :: k in Sort(keys, le) <==> k in keys
  {
    SortPermutes(keys, le);
    var r := Sort(keys, le);
    forall k ensures k in r <==> k in keys { assert k in multiset(r) <==> k in multiset(keys); }
    PermutedDistinct(keys, r);
  }

  lemma {:induction false} WithinBound(s: Store, keep: string)
    requires Excess(s) <= 0
    ensures Capped(s, keep, s)
  {
    assert Evicts(s, keep, {}) && s - {} == s;
  }

  /** Drops the oldest declared entries beyond DECLARED_MAX. */
  method CapDeclared(s: Store, keep: string) returns (out: Store)
    ensures Capped(s, keep, out)
  {
    var declared := DeclaredKeys(s);
    var excess := |declared| - DECLARED_MAX;
    hide Evicts, AgeLe, Sort, ListingOf;
    if excess <= 0 {
      WithinBound(s, keep);
      return s;
    }
    var listing := SortedKeys(declared - {keep});
    var le := (a: string, b: string) => AgeLe(s, a, b);
    var oldest := Sort(listing, le);
    ghost var e := OldestEvicted(s, keep, listing, excess);
    out := s;
    for i := 0 to excess
      invariant excess <= |oldest| && out == s - Upto(oldest, i)
    {
      assert oldest[..i + 1] == oldest[..i] + [oldest[i]];
      assert Upto(oldest, i + 1) == Upto(oldest, i) + {oldest[i]};
      out := out - {oldest[i]};
    }
  }

  lemma {:induction false} OldestEvicted(s: Store, keep: string, listing: seq<string>, excess: nat)
      returns (e: set<string>)
    requires ListingOf(listing, DeclaredKeys(s) - {keep}) && excess == Excess(s) > 0
    ensures excess <= |Sort(listing, (a: string, b: string) => AgeLe(s, a, b))|
    ensures e == Upto(Sort(listing, (a: string, b: string) => AgeLe(s, a, b)), excess) && Evicts(s, keep, e)
  {
    var le := (a: string, b: string) => AgeLe(s, a, b);
    var oldest := Sort(listing, le);
    SortKeepsListing(listing, le);
    SortPermutes(listing, le);
    AgeLePreorder(s);
    SortSorts(listing, le);
    ListingSize(listing, DeclaredKeys(s) - {keep});
    if keep in DeclaredKeys(s) {
      assert DeclaredKeys(s) == (DeclaredKeys(s) - {keep}) + {keep};
    } else {
      assert DeclaredKeys(s) == DeclaredKeys(s) - {keep};
    }
    OldestFirst(s, oldest, excess);
    e := Upto(oldest, excess);
    forall a | a in e ensures a in DeclaredKeys(s) - {keep} { assert a in oldest; }
  }

  lemma {:induction false} ListingSize(keys: seq<string>, s: set<string>)
    requires ListingOf(keys, s)
    ensures |keys| == |s|
  {
    UptoAll(keys, s);
    DistinctSize(keys, |keys|);
  }

  // ---------------------------------------------------------------- a deposit

  /** A cleaned report on its way to the store: the clock when it is compared and when the purge runs, and whether
      the atomic write went through. */
  datatype Post = Post(rep: Report, at: real, purgeAt: real, saveOk: bool)

  datatype Reply = Stored | OlderThanHeld | Unavailable

  /** A proven report carries its order and an unproven one none; the clock moves forward. */
  predicate Received(p: Post) { (p.rep.proven != "" <==> p.rep.order.Some?) && p.at <= p.purgeAt }

  /** The report is still within the retention of the store when the purge runs. */
  predicate Prompt(cfg: Config, p: Post) { p.rep.ts as real >= p.purgeAt - cfg.purge as real }

  function Held(s: Store, k: string): Option<Report> { if k in s then Some(s[k]) else None }

  function Purged(cfg: Config, s: Store, now: real): Store {
    map k | k in s && s[k].ts as real >= now - cfg.purge as real :: s[k]
  }

  predicate IsReplay(cfg: Config, s: Store, p: Post)
    requires Received(p)
  {
    p.rep.proven != "" && OlderThanStored(cfg, Held(s, StorageKey(p.rep)), p.rep.proven, p.rep.order.value, p.at)
  }

  /** The store part of a POST. */
  ghost predicate Deposits(cfg: Config, s: Store, p: Post, s': Store, reply: Reply)
    requires Received(p)
  {
    var key := StorageKey(p.rep);
    if IsReplay(cfg, s, p) then reply.OlderThanHeld? && s' == s
    else if !p.saveOk then reply.Unavailable? && s' == s
    else reply.Stored? && Capped(Purged(cfg, (s - SupersededKeys(p.rep))[key := p.rep], p.purgeAt), key, s')
  }

  class Registry {
    const cfg: Config
    var store: Store

    constructor (cfg: Config)
      ensures this.cfg == cfg && store == map[]
    {
      this.cfg := cfg;
      store := map[];
    }

    method DoPost(p: Post) returns (reply: Reply)
      requires Received(p)
      modifies this
      ensures Deposits(cfg, old(store), p, store, reply)
    {
      var key := StorageKey(p.rep);
      if p.rep.proven != "" {
        if OlderThanStored(cfg, Held(store, key), p.rep.proven, p.rep.order.value, p.at) {
          return OlderThanHeld;
        }
      }
      var next := store - SupersededKeys(p.rep);
      next := next[key := p.rep];
      next := map k | k in next && next[k].ts as real >= p.purgeAt - cfg.purge as real :: next[k];
      next := CapDeclared(next, key);
      if !p.saveOk {
        return Unavailable;
      }
      store := next;
      return Stored;
    }
  }

  // ---------------------------------------------------------------- what every deposit keeps

  /** A record lies under its own miner's proven key, or in the declared namespace. */
  predicate Placed(k: string, r: Report) {
    if r.proven != "" then k == KEY_PROVEN + r.proven && r.order.Some? else IsDeclared(k)
  }

  ghost predicate AllPlaced(s: Store) { forall k | k in s :: Placed(k, s[k]) }

  lemma {:induction false} StoredIsPlaced(r: Report)
    requires r.proven != "" ==> r.order.Some?
    ensures Placed(StorageKey(r), r)
  {
    if r.proven == "" { assert KEY_DECLARED <= KEY_DECLARED + DeclaredTail(r); }
  }

  /** The bound takes away declared entries only, never the one just written. */
  lemma {:induction false} CappedShape(full: Store, key: string, s': Store)
    requires Capped(full, key, s')
    ensures forall k | k in s' :: k in full && s'[k] == full[k]
    ensures forall k | k in full && (k == key || IsSigned(k)) :: k in s'
    ensures |DeclaredKeys(s')| <= DECLARED_MAX
  {
    var e :| Evicts(full, key, e) && s' == full - e;
    forall k | k in full && (k == key || IsSigned(k)) ensures k in s' { NamespacesApart("", "", k); }
    assert DeclaredKeys(s') == DeclaredKeys(full) - e;
    assert DeclaredKeys(full) == (DeclaredKeys(full) - e) + e;
  }

  /** What a deposit that is stored leaves under each key. */
  lemma {:induction false} StoredShape(cfg: Config, s: Store, p: Post, s': Store)
    requires Received(p) && Deposits(cfg, s, p, s', Stored)
    ensures StorageKey(p.rep) in s' <==> Prompt(cfg, p)
    ensures StorageKey(p.rep) in s' ==> s'[StorageKey(p.rep)] == p.rep
    ensures forall k | k in s' && k != StorageKey(p.rep) :: k in s && s'[k] == s[k]
    ensures forall k | k in s && k != StorageKey(p.rep) && k !in s' && IsSigned(k) ::
              s[k].ts as real < p.purgeAt - cfg.purge as real
    ensures |DeclaredKeys(s')| <= DECLARED_MAX
  {
    var key := StorageKey(p.rep);
    var next := (s - SupersededKeys(p.rep))[key := p.rep];
    CappedShape(Purged(cfg, next, p.purgeAt), key, s');
    forall k | k in s && k != key && IsSigned(k) ensures k in next && next[k] == s[k] {
      assert k !in SupersededKeys(p.rep);
    }
  }

  lemma {:induction false} DepositKeepsPlaced(cfg: Config, s: Store, p: Post, s': Store, reply: Reply)
    requires Received(p) && Deposits(cfg, s, p, s', reply) && AllPlaced(s)
    ensures AllPlaced(s')
  {
    if reply.Stored? {
      StoredShape(cfg, s, p, s');
      StoredIsPlaced(p.rep);
    }
  }

  /** The record of a miner changes only through a deposit proven for it, or leaves by age. */
  lemma {:induction false} OnlyProofReaches(cfg: Config, s: Store, p: Post, s': Store, reply: Reply, m: string)
    requires Received(p) && Deposits(cfg, s, p, s', reply) && p.rep.proven != m
    ensures var k := KEY_PROVEN + m;
            && (k in s' ==> k in s && s'[k] == s[k])
            && (k in s && k !in s' ==> s[k].ts as real < p.purgeAt - cfg.purge as real)
  {
    var k := KEY_PROVEN + m;
    if reply.Stored? {
      StoredShape(cfg, s, p, s');
      assert IsSigned(k);
      if p.rep.proven != "" {
        NamespacesApart(m, p.rep.proven, k);
      } else {
        NamespacesApart(m, m, StorageKey(p.rep));
        assert IsDeclared(StorageKey(p.rep));
      }
    }
  }

  /** While a miner's record is fresh, no prompt deposit takes it away or replaces it with an older one. */
  lemma {:induction false} FreshOrderHolds(cfg: Config, s: Store, p: Post, s': Store, reply: Reply, m: string)
    requires Received(p) && Deposits(cfg, s, p, s', reply) && AllPlaced(s) && m != "" && cfg.stale <= cfg.purge
    requires KEY_PROVEN + m in s && s[KEY_PROVEN + m].proven == m && !IsStale(cfg, s[KEY_PROVEN + m], p.purgeAt)
    requires p.rep.proven == m ==> Prompt(cfg, p)
    ensures var k := KEY_PROVEN + m;
            k in s' && s'[k].proven == m && s'[k].order.Some? && !OrderLess(s'[k].order.value, s[k].order.value)
  {
    var k := KEY_PROVEN + m;
    if p.rep.proven != m {
      OnlyProofReaches(cfg, s, p, s', reply, m);
    } else if reply.Stored? {
      StoredShape(cfg, s, p, s');
    }
  }

  lemma {:induction false} SignedIsProven(s: Store, m: string)
    requires AllPlaced(s) && KEY_PROVEN + m in s
    ensures m != "" ==> s[KEY_PROVEN + m].proven == m
    ensures s[KEY_PROVEN + m].proven != ""
  {
    var k := KEY_PROVEN + m;
    NamespacesApart(m, s[k].proven, k);
    assert IsSigned(k);
  }

  // ---------------------------------------------------------------- which reports are stored

  /** The store holds a report of the same miner, at most STALE_S old, signed at a later height, or at the same height
      and a later sequence. */
  ghost predicate HoldsNewer(cfg: Config, s: Store, p: Post) {
    var k := "signed::" + p.rep.proven;
    && p.rep.proven != "" && p.rep.order.Some? && k in s && s[k].proven == p.rep.proven && s[k].order.Some?
    && p.at - s[k].ts as real <= cfg.stale as real
    && var (h, q), (oh, oq) := s[k].order.value, p.rep.order.value; oh < h || (oh == h && oq < q)
  }

  /** Main result: exactly which reports are refused as replays; every other one is stored when the store can be
      written. */
  lemma {:induction false} AnsweredExactly(cfg: Config, s: Store, p: Post, s': Store, reply: Reply)
    requires Received(p) && Deposits(cfg, s, p, s', reply)
    ensures reply == if HoldsNewer(cfg, s, p) then OlderThanHeld else if p.saveOk then Stored else Unavailable
    ensures !reply.Stored? ==> s' == s
  {
  }

  /** What follows: an unsigned report is always stored; so is one signed at the order held or a later one, the same
      report posted again among them; and any order is, over a record that is stale or carries none. */
  lemma {:induction false} NeverLockedOut(cfg: Config, s: Store, p: Post, s': Store, reply: Reply)
    requires Received(p) && Deposits(cfg, s, p, s', reply) && p.saveOk
    ensures p.rep.proven == "" ==> reply.Stored?
    ensures StorageKey(p.rep) !in s ==> reply.Stored?
    ensures StorageKey(p.rep) in s ==>
              var held := s[StorageKey(p.rep)];
              && (held.order == p.rep.order ==> reply.Stored?)
              && (held == p.rep ==> reply.Stored?)
              && (held.order.None? ==> reply.Stored?)
              && (p.at - held.ts as real > cfg.stale as real ==> reply.Stored?)
              && (held.order.Some? && p.rep.order.Some? && held.order.value.0 < p.rep.order.value.0 ==> reply.Stored?)
  {
    AnsweredExactly(cfg, s, p, s', reply);
    hide Deposits;
  }

  /** The key a report had before the namespaces existed. */
  predicate OldKeyOf(k: string, r: Report) {
    && k == (if r.machine == "" then "?" else r.machine) + "::" + (if r.nodeId == "" then "?" else r.nodeId)
    && !("signed::" <= k) && !("decl::" <= k) && !("signe::" <= k)
  }

  /** Main result: why an entry leaves on a deposit: it is older than the retention, it is a declared one beyond the
      bound, or it is the report's own entry from before the namespaces; and that one always leaves. */
  lemma {:induction false} LeavesExactlyWhen(cfg: Config, s: Store, p: Post, s': Store, k: string)
    requires Received(p) && Deposits(cfg, s, p, s', Stored) && k in s && k != StorageKey(p.rep)
    ensures k !in s' ==> s[k].ts as real < p.purgeAt - cfg.purge as real || "decl::" <= k || OldKeyOf(k, p.rep)
    ensures s[k].ts as real < p.purgeAt - cfg.purge as real || OldKeyOf(k, p.rep) ==> k !in s'
    ensures k in s' ==> s'[k] == s[k]
  {
    var key := StorageKey(p.rep);
    var next := (s - SupersededKeys(p.rep))[key := p.rep];
    var full := Purged(cfg, next, p.purgeAt);
    CappedShape(full, key, s');
    assert k in SupersededKeys(p.rep) <==> OldKeyOf(k, p.rep);
    assert k in full ==> full[k] == s[k];
    if k in full && k !in s' {
      var e :| Evicts(full, key, e) && s' == full - e;
      assert k in DeclaredKeys(full);
    }
  }

  /** The entry was received before, or at the same second under a key that comes before. */
  predicate ReceivedBefore(s: Store, a: string, b: string)
    requires a in s && b in s
  {
    s[a].ts < s[b].ts || (s[a].ts == s[b].ts && a != b && StringLe(a, b))
  }

  /** The other declared entries received before `k`, the one just written aside. */
  function OlderDeclared(s: Store, keep: string, k: string): set<string>
    requires k in s
  {
    set d | d in s && "decl::" <= d && d != keep && ReceivedBefore(s, d, k)
  }

  lemma {:induction false} AgeIs(s: Store, a: string, b: string)
    requires a in s && b in s
    ensures AgeLe(s, a, b) <==> a == b || ReceivedBefore(s, a, b)
    ensures AgeLe(s, a, b) && AgeLe(s, b, a) ==> a == b
  {
    StringLeTotal(a, a);
    if StringLe(a, b) && StringLe(b, a) { StringLeAntisymmetric(a, b); }
  }

  lemma {:induction false} OldestAreEvicted(s: Store, keep: string, e: set<string>, k: string)
    requires Evicts(s, keep, e) && k in DeclaredKeys(s) - {keep}
    ensures k in e <==> |OlderDeclared(s, keep, k)| < |DeclaredKeys(s)| - DECLARED_MAX
  {
    var older := OlderDeclared(s, keep, k);
    forall d | d in DeclaredKeys(s)
      ensures AgeLe(s, d, k) <==> d == k || ReceivedBefore(s, d, k)
      ensures AgeLe(s, k, d) && ReceivedBefore(s, d, k) ==> d == k
      ensures !ReceivedBefore(s, k, k)
    {
      AgeIs(s, d, k);
      AgeIs(s, k, d);
    }
    hide AgeLe, StringLe, ReceivedBefore;
    if k in e {
      assert older <= e - {k};
      SubsetSize(older, e - {k});
    } else {
      assert e <= older;
      SubsetSize(e, older);
    }
  }

  /** Main result: which declared entries the bound drops on a deposit: with the entries past their retention and the
      report's old key gone and the report written, an entry leaves exactly when fewer of the others are older than it
      than there are declared entries beyond the bound. */
  lemma {:induction false} BoundDropsTheOldest(cfg: Config, s: Store, p: Post, s': Store, k: string)
    requires Received(p) && Deposits(cfg, s, p, s', Stored)
    ensures var full := Purged(cfg, (s - SupersededKeys(p.rep))[StorageKey(p.rep) := p.rep], p.purgeAt);
            k in full && "decl::" <= k && k != StorageKey(p.rep) ==>
              (k !in s' <==>
                 |OlderDeclared(full, StorageKey(p.rep), k)| < |set d | d in full && "decl::" <= d| - 2000)
  {
    var key := StorageKey(p.rep);
    var full := Purged(cfg, (s - SupersededKeys(p.rep))[key := p.rep], p.purgeAt);
    hide Purged, OlderDeclared, StorageKey;
    var e :| Evicts(full, key, e) && s' == full - e;
    assert DeclaredKeys(full) == set d | d in full && "decl::" <= d;
    if k in full && "decl::" <= k && k != key { OldestAreEvicted(full, key, e, k); }
  }

  // ---------------------------------------------------------------- the verified block

  /** The declared reports a signed report of the same machine and identity supersedes. */
  function FoldedKeys(s: Store): set<string> {
    set k | k in s && s[k].proven == "" && s[k].machine != "" &&
            exists j | j in s && s[j].proven != "" && s[j].machine == s[k].machine ::
              s[j].nodeId == s[k].nodeId || s[j].proven in s[k].minerIds
  }

  /** The rows the verified block counts at `now`, for the miners registered on chain. */
  function VerifiedRows(cfg: Config, s: Store, now: real, registry: set<string>): Store {
    map k | k in s && k !in FoldedKeys(s) && !IsStale(cfg, s[k], now) && s[k].proven != "" && s[k].proven in registry ::
      s[k]
  }

  /** Exactly the rows counted: the signed reports of registered miners at most STALE_S old. */
  lemma {:induction false} VerifiedExactly(cfg: Config, s: Store, now: real, registry: set<string>, k: string)
    ensures k in VerifiedRows(cfg, s, now, registry) <==>
              k in s && s[k].proven != "" && s[k].proven in registry && now - s[k].ts as real <= cfg.stale as real
    ensures k in VerifiedRows(cfg, s, now, registry) ==> VerifiedRows(cfg, s, now, registry)[k] == s[k]
  {
  }

  /** A registered miner is counted at most once. */
  lemma {:induction false} VerifiedOncePerMiner(cfg: Config, s: Store, now: real, registry: set<string>, a: string,
                                                b: string)
    requires AllPlaced(s)
    requires a in VerifiedRows(cfg, s, now, registry) && b in VerifiedRows(cfg, s, now, registry)
    requires s[a].proven == s[b].proven
    ensures a == b
  {
  }

  /** An unsigned deposit leaves the verified block as it was, for any later time and any registry. */
  lemma {:induction false} UnsignedNeverVerified(cfg: Config, s: Store, p: Post, s': Store, reply: Reply, now: real,
                                                 registry: set<string>)
    requires Received(p) && Deposits(cfg, s, p, s', reply) && AllPlaced(s) && cfg.stale <= cfg.purge
    requires p.rep.proven == "" && p.purgeAt <= now
    ensures VerifiedRows(cfg, s', now, registry) == VerifiedRows(cfg, s, now, registry)
  {
    DepositKeepsPlaced(cfg, s, p, s', reply);
    forall k | k in s && s[k].proven != "" && !IsStale(cfg, s[k], now) ensures k in s' && s'[k] == s[k] {
      OnlyProofReaches(cfg, s, p, s', reply, s[k].proven);
    }
    forall k | k in s' && s'[k].proven != "" ensures k in s && s'[k] == s[k] {
      OnlyProofReaches(cfg, s, p, s', reply, s'[k].proven);
    }
  }

  /** The sums of the verified block; a secondary report adds its card, not its machine's memory and cores. */
  datatype Block = Block(live: nat, vram: nat, ram: nat, cores: nat, judges: nat, nodes: set<string>,
                         roles: multiset<string>, kits: multiset<nat>)

  const ZERO := Block(0, 0, 0, 0, 0, {}, multiset{}, multiset{})

  function AddRow(b: Block, r: Report): Block {
    Block(b.live + 1, b.vram + r.row.vram,
          if r.row.secondary then b.ram else b.ram + r.row.ram,
          if r.row.secondary then b.cores else b.cores + r.row.cores,
          if r.row.canJudge then b.judges + 1 else b.judges,
          b.nodes + {r.nodeId}, b.roles + multiset{r.row.role}, b.kits + multiset{r.row.kit})
  }

  ghost function Pick(rows: Store): string
    requires rows != map[]
    ensures Pick(rows) in rows
  {
    var k :| k in rows;
    k
  }

  ghost function Total(rows: Store): Block {
    if rows == map[] then ZERO else AddRow(Total(rows - {Pick(rows)}), rows[Pick(rows)])
  }

  lemma {:induction false} AddRowCommutes(b: Block, r: Report, t: Report)
    ensures AddRow(AddRow(b, r), t) == AddRow(AddRow(b, t), r)
  {
  }

  /** The sums do not depend on the order the rows are met in. */
  lemma {:induction false} TotalAdds(rows: Store, k: string)
    requires k in rows
    ensures Total(rows) == AddRow(Total(rows - {k}), rows[k])
    decreases |rows|
  {
    hide AddRow;
    var j := Pick(rows);
    if j != k {
      TotalAdds(rows - {j}, k);
      TotalAdds(rows - {k}, j);
      assert rows - {j} - {k} == rows - {k} - {j};
      AddRowCommutes(Total(rows - {j} - {k}), rows[k], rows[j]);
    }
  }

  /** One figure of a row, by its key. */
  function Column(rows: Store, f: Report -> nat): string -> nat { (k: string) => if k in rows then f(rows[k]) else 0 }

  function Vram(): Report -> nat { (r: Report) => r.row.vram }
  function Ram(): Report -> nat { (r: Report) => if r.row.secondary then 0 else r.row.ram }
  function Cores(): Report -> nat { (r: Report) => if r.row.secondary then 0 else r.row.cores }
  function Judge(): Report -> nat { (r: Report) => if r.row.canJudge then 1 else 0 }
  function InRole(role: string): Report -> nat { (r: Report) => if r.row.role == role then 1 else 0 }
  function OnKit(kit: nat): Report -> nat { (r: Report) => if r.row.kit == kit then 1 else 0 }

  function SumOf(rows: Store, keys: seq<string>, f: Report -> nat): nat { Sum(Map(keys, Column(rows, f))) }

  /** `keys` lists the rows, each once, in any order. */
  ghost predicate ListsRows(keys: seq<string>, rows: Store) { Distinct(keys) && forall k :: k in keys <==> k in rows }

  lemma {:induction false} ColumnNext(rows: Store, keys: seq<string>, f: Report -> nat)
    requires keys != [] && ListsRows(keys, rows)
    ensures var pre, k := keys[..|keys| - 1], keys[|keys| - 1];
            k in rows && SumOf(rows, keys, f) == SumOf(rows - {k}, pre, f) + f(rows[k])
  {
    var pre, k := keys[..|keys| - 1], keys[|keys| - 1];
    var less := rows - {k};
    assert k in keys;
    assert Map(keys, Column(rows, f))[..|pre|] == Map(pre, Column(less, f));
  }

  lemma {:induction false} ListsFewer(keys: seq<string>, rows: Store)
    requires keys != [] && ListsRows(keys, rows)
    ensures keys[|keys| - 1] in rows && ListsRows(keys[..|keys| - 1], rows - {keys[|keys| - 1]})
  {
    var pre, k := keys[..|keys| - 1], keys[|keys| - 1];
    assert k in keys;
    assert forall x :: x in keys <==> x in pre || x == k;
    assert k !in pre;
  }

  ghost predicate FiguresSum(b: Block, rows: Store, keys: seq<string>) {
    && b.live == |keys|
    && b.vram == SumOf(rows, keys, Vram()) && b.ram == SumOf(rows, keys, Ram()) && b.cores == SumOf(rows, keys, Cores())
    && b.judges == SumOf(rows, keys, Judge())
  }

  ghost predicate RolesSum(b: Block, rows: Store, keys: seq<string>) {
    && (forall role :: b.roles[role] == SumOf(rows, keys, InRole(role)))
    && (forall kit: nat :: b.kits[kit] == SumOf(rows, keys, OnKit(kit)))
  }

  ghost predicate NodeAmong(rows: Store, n: string) { exists k | k in rows :: rows[k].nodeId == n }

  ghost predicate NodesHeld(b: Block, rows: Store) { forall n :: n in b.nodes <==> NodeAmong(rows, n) }

  /** Each figure of the block is the sum of that figure over the rows. */
  ghost predicate SumsTo(b: Block, rows: Store, keys: seq<string>) {
    FiguresSum(b, rows, keys) && RolesSum(b, rows, keys) && NodesHeld(b, rows)
  }

  lemma {:induction false} FiguresNext(b: Block, rows: Store, keys: seq<string>)
    requires keys != [] && ListsRows(keys, rows) && keys[|keys| - 1] in rows
    requires FiguresSum(b, rows - {keys[|keys| - 1]}, keys[..|keys| - 1])
    ensures FiguresSum(AddRow(b, rows[keys[|keys| - 1]]), rows, keys)
  {
    ColumnNext(rows, keys, Vram());
    ColumnNext(rows, keys, Ram());
    ColumnNext(rows, keys, Cores());
    ColumnNext(rows, keys, Judge());
    hide SumOf, ListsRows;
  }

  lemma {:induction false} RolesNext(b: Block, rows: Store, keys: seq<string>)
    requires keys != [] && ListsRows(keys, rows) && keys[|keys| - 1] in rows
    requires RolesSum(b, rows - {keys[|keys| - 1]}, keys[..|keys| - 1])
    ensures RolesSum(AddRow(b, rows[keys[|keys| - 1]]), rows, keys)
  {
    hide SumOf, ListsRows;
    var c := AddRow(b, rows[keys[|keys| - 1]]);
    forall role ensures c.roles[role] == SumOf(rows, keys, InRole(role)) { ColumnNext(rows, keys, InRole(role)); }
    forall kit: nat ensures c.kits[kit] == SumOf(rows, keys, OnKit(kit)) { ColumnNext(rows, keys, OnKit(kit)); }
  }

  lemma {:induction false} NodesNext(b: Block, rows: Store, k: string)
    requires k in rows && NodesHeld(b, rows - {k})
    ensures NodesHeld(AddRow(b, rows[k]), rows)
  {
    var less := rows - {k};
    forall n ensures NodeAmong(rows, n) <==> rows[k].nodeId == n || NodeAmong(less, n) {
      if j :| j in rows && rows[j].nodeId == n && j != k { assert j in less; }
    }
    hide NodeAmong;
  }

  /** Main result: each figure of the verified block by itself, over any listing of its rows: memory and cores over the
      primary reports only, the others over them all. */
  lemma {:induction false} TotalSums(rows: Store, keys: seq<string>)
    requires ListsRows(keys, rows)
    ensures SumsTo(Total(rows), rows, keys)
    decreases |keys|
  {
    if keys == [] {
      assert forall k :: k in rows <==> k in keys;
      assert rows.Keys == {};
    } else {
      var k := keys[|keys| - 1];
      ListsFewer(keys, rows);
      TotalSums(rows - {k}, keys[..|keys| - 1]);
      TotalAdds(rows, k);
      hide FiguresSum, RolesSum, NodesHeld, Total, AddRow, ListsRows;
      FiguresNext(Total(rows - {k}), rows, keys);
      RolesNext(Total(rows - {k}), rows, keys);
      NodesNext(Total(rows - {k}), rows, k);
    }
  }

  /** The keys a signed report folds: the two passes of the source. */
  method DeclaredFolded(s: Store) returns (folded: set<string>)
    ensures folded == FoldedKeys(s)
  {
    var nodes := set k | k in s && s[k].proven != "" && s[k].machine != "" :: (s[k].machine, s[k].nodeId);
    var miners := set k | k in s && s[k].proven != "" && s[k].machine != "" :: (s[k].machine, s[k].proven);
    folded := {};
    var rest := s.Keys;
    while rest != {}
      invariant rest <= s.Keys && folded == FoldedKeys(s) - rest
      decreases |rest|
    {
      var k :| k in rest;
      var r := s[k];
      if r.proven == "" && r.machine != "" {
        if (r.machine, r.nodeId) in nodes || exists m | m in r.minerIds :: (r.machine, m) in miners {
          folded := folded + {k};
        }
      }
      FoldedMeans(s, k, nodes, miners);
      rest := rest - {k};
    }
  }

  lemma {:induction false} FoldedMeans(s: Store, k: string, nodes: set<(string, string)>, miners: set<(string, string)>)
    requires k in s
    requires nodes == set j | j in s && s[j].proven != "" && s[j].machine != "" :: (s[j].machine, s[j].nodeId)
    requires miners == set j | j in s && s[j].proven != "" && s[j].machine != "" :: (s[j].machine, s[j].proven)
    ensures k in FoldedKeys(s) <==>
            && s[k].proven == "" && s[k].machine != ""
            && ((s[k].machine, s[k].nodeId) in nodes || exists m | m in s[k].minerIds :: (s[k].machine, m) in miners)
  {
  }

  lemma {:induction false} TotalStep(rows: Store, rest: set<string>, k: string)
    requires k in rest
    ensures Total(rows - (rest - {k})) == if k in rows then AddRow(Total(rows - rest), rows[k]) else Total(rows - rest)
  {
    hide AddRow;
    var more := rows - (rest - {k});
    if k in rows {
      TotalAdds(more, k);
      assert more - {k} == rows - rest;
    } else {
      assert more == rows - rest;
    }
  }

  /** The verified part of the public document. */
  method AggregateVerified(cfg: Config, s: Store, now: real, registry: set<string>) returns (b: Block)
    ensures b == Total(VerifiedRows(cfg, s, now, registry))
  {
    var folded := DeclaredFolded(s);
    hide AddRow, Total, FoldedKeys;
    b := ZERO;
    ghost var rows := VerifiedRows(cfg, s, now, registry);
    var rest := s.Keys;
    TotalOfNone(rows, s.Keys);
    while rest != {}
      invariant rest <= s.Keys && b == Total(rows - rest)
      decreases |rest|
    {
      var k :| k in rest;
      TotalStep(rows, rest, k);
      var r := s[k];
      if k !in folded && !IsStale(cfg, r, now) && r.proven != "" && r.proven in registry {
        b := AddRow(b, r);
      }
      rest := rest - {k};
    }
    assert rows - {} == rows;
  }

  lemma {:induction false} TotalOfNone(rows: Store, keys: set<string>)
    requires rows.Keys <= keys
    ensures Total(rows - keys) == ZERO
  {
    assert rows - keys == map[];
  }

  // ---------------------------------------------------------------- runs

  /** A run from an empty store: each deposit leads from one store to the next. */
  ghost predicate Run(cfg: Config, states: seq<Store>, posts: seq<Post>, replies: seq<Reply>) {
    && |states| == |posts| + 1 && |replies| == |posts| && states[0] == map[]
    && forall n | 0 <= n < |posts| ::
         Received(posts[n]) && Deposits(cfg, states[n], posts[n], states[n + 1], replies[n])
  }

  lemma {:induction false} RunPlaced(cfg: Config, states: seq<Store>, posts: seq<Post>, replies: seq<Reply>, n: nat)
    requires Run(cfg, states, posts, replies) && n <= |posts|
    ensures AllPlaced(states[n]) && |DeclaredKeys(states[n])| <= DECLARED_MAX
  {
    if n > 0 {
      RunPlaced(cfg, states, posts, replies, n - 1);
      DepositKeepsPlaced(cfg, states[n - 1], posts[n - 1], states[n], replies[n - 1]);
      if replies[n - 1].Stored? { StoredShape(cfg, states[n - 1], posts[n - 1], states[n]); }
    } else {
      assert DeclaredKeys(states[0]) == {};
    }
  }

  /** Main result: in every run the declared entries stay within their bound, and the report just stored is held, unless
      it was already past its retention. */
  lemma {:induction false} NewestIsKept(cfg: Config, states: seq<Store>, posts: seq<Post>, replies: seq<Reply>, n: nat)
    requires Run(cfg, states, posts, replies) && n < |posts|
    ensures |DeclaredKeys(states[n + 1])| <= DECLARED_MAX
    ensures replies[n].Stored? ==> (StorageKey(posts[n].rep) in states[n + 1] <==> Prompt(cfg, posts[n]))
    ensures replies[n].Stored? && Prompt(cfg, posts[n]) ==> states[n + 1][StorageKey(posts[n].rep)] == posts[n].rep
  {
    RunPlaced(cfg, states, posts, replies, n + 1);
    if replies[n].Stored? { StoredShape(cfg, states[n], posts[n], states[n + 1]); }
  }

  /** Main result: between two moments of a run with no deposit proven for `m`, the record of `m` is the one it was,
      or it left by age. */
  lemma {:induction false} OnlyProofChanges(cfg: Config, states: seq<Store>, posts: seq<Post>, replies: seq<Reply>,
                                            m: string, i: nat, j: nat)
    requires Run(cfg, states, posts, replies) && i <= j <= |posts|
    requires forall n | i <= n < j :: posts[n].rep.proven != m
    ensures var k := KEY_PROVEN + m;
            && (k in states[j] ==> k in states[i] && states[j][k] == states[i][k])
            && (k in states[i] && k !in states[j] ==>
                  exists n | i <= n < j :: states[i][k].ts as real < posts[n].purgeAt - cfg.purge as real)
  {
    if i < j {
      OnlyProofChanges(cfg, states, posts, replies, m, i, j - 1);
      OnlyProofReaches(cfg, states[j - 1], posts[j - 1], states[j], replies[j - 1], m);
    }
  }

  /** The record of `m`, whenever a deposit between `i` and `j` meets it, is fresh, and its own deposits are prompt. */
  ghost predicate FreshThrough(cfg: Config, states: seq<Store>, posts: seq<Post>, m: string, i: nat, j: nat)
    requires i <= j <= |posts| && |states| == |posts| + 1
  {
    forall n | i <= n < j ::
      && (KEY_PROVEN + m in states[n] ==> !IsStale(cfg, states[n][KEY_PROVEN + m], posts[n].purgeAt))
      && (posts[n].rep.proven == m ==> Prompt(cfg, posts[n]))
  }

  /** Main result: in every run, while the record of `m` is fresh it stays, and its order never goes back. */
  lemma {:induction false} OrderNeverGoesBack(cfg: Config, states: seq<Store>, posts: seq<Post>, replies: seq<Reply>,
                                              m: string, i: nat, j: nat)
    requires Run(cfg, states, posts, replies) && i <= j <= |posts| && m != "" && cfg.stale <= cfg.purge
    requires KEY_PROVEN + m in states[i] && FreshThrough(cfg, states, posts, m, i, j)
    ensures var k := KEY_PROVEN + m;
            && k in states[j] && states[i][k].order.Some? && states[j][k].order.Some?
            && !OrderLess(states[j][k].order.value, states[i][k].order.value)
  {
    RunPlaced(cfg, states, posts, replies, i);
    SignedIsProven(states[i], m);
    if i < j {
      OrderNeverGoesBack(cfg, states, posts, replies, m, i, j - 1);
      RunPlaced(cfg, states, posts, replies, j - 1);
      SignedIsProven(states[j - 1], m);
      FreshOrderHolds(cfg, states[j - 1], posts[j - 1], states[j], replies[j - 1], m);
    }
  }

  /** Main result: no amount of unsigned traffic alters the verified block. */
  lemma {:induction false} UnsignedTrafficNeverVerified(cfg: Config, states: seq<Store>, posts: seq<Post>,
                                                        replies: seq<Reply>,
                                                        i: nat, j: nat, now: real, registry: set<string>)
    requires Run(cfg, states, posts, replies) && i <= j <= |posts| && cfg.stale <= cfg.purge
    requires forall n | i <= n < j :: posts[n].rep.proven == "" && posts[n].purgeAt <= now
    ensures VerifiedRows(cfg, states[j], now, registry) == VerifiedRows(cfg, states[i], now, registry)
    ensures Total(VerifiedRows(cfg, states[j], now, registry)) == Total(VerifiedRows(cfg, states[i], now, registry))
  {
    hide VerifiedRows, Total, Deposits, AllPlaced;
    if i < j {
      UnsignedTrafficNeverVerified(cfg, states, posts, replies, i, j - 1, now, registry);
      RunPlaced(cfg, states, posts, replies, j - 1);
      UnsignedNeverVerified(cfg, states[j - 1], posts[j - 1], states[j], replies[j - 1], now, registry);
    }
  }

  function Blank(): Row { Row(0, 0, 0, false, "", 0, false) }

  lemma {:induction false} FewDeclared(full: Store, key: string)
    requires |full| <= DECLARED_MAX
    ensures Capped(full, key, full)
  {
    var d := DeclaredKeys(full);
    assert full.Keys == d + (full.Keys - d);
    WithinBound(full, key);
  }

  /** A deposit that meets one record under another key, which the purge takes, leaves its own alone. */
  lemma {:induction false} DepositAlone(cfg: Config, s: Store, p: Post)
    requires Received(p) && Prompt(cfg, p) && p.saveOk && !IsReplay(cfg, s, p)
    requires forall k | k in s :: s[k].ts as real < p.purgeAt - cfg.purge as real
    ensures Deposits(cfg, s, p, map[StorageKey(p.rep) := p.rep], Stored)
  {
    var key := StorageKey(p.rep);
    assert Purged(cfg, (s - SupersededKeys(p.rep))[key := p.rep], p.purgeAt) == map[key := p.rep];
    FewDeclared(map[key := p.rep], key);
  }

  /** With a retention shorter than the freshness bound, one unsigned report empties the verified block: the order
      of the two settings is needed. */
  lemma {:induction false} ShortRetentionLosesVerified(cfg: Config, m: string)
      returns (states: seq<Store>, posts: seq<Post>, replies: seq<Reply>, now: real)
    requires cfg.purge < cfg.stale && m != ""
    ensures Run(cfg, states, posts, replies) && |posts| == 2 && posts[1].rep.proven == "" && posts[1].purgeAt <= now
    ensures VerifiedRows(cfg, states[2], now, {m}) != VerifiedRows(cfg, states[1], now, {m})
  {
    var signed := Report(m, "", "n", [], 0, Some((0, 0)), Blank());
    var declared := Report("", "", "n", [], 1, None, Blank());
    var first := cfg.purge as real;
    now := first + 1.0;
    var p0, p1 := Post(signed, first, first, true), Post(declared, now, now, true);
    DepositAlone(cfg, map[], p0);
    var s1: Store, s2: Store := map[StorageKey(signed) := signed], map[StorageKey(declared) := declared];
    DepositAlone(cfg, s1, p1);
    states, posts, replies := [map[], s1, s2], [p0, p1], [Stored, Stored];
    assert StorageKey(signed) in VerifiedRows(cfg, s1, now, {m});
    assert forall k | k in VerifiedRows(cfg, s2, now, {m}) :: false;
  }

  /** No amount of unsigned traffic, in any run, alters the verified block of any registry at any later time. */
  ghost predicate UnsignedHarmless(cfg: Config) {
    forall states: seq<Store>, posts: seq<Post>, replies: seq<Reply>, i: nat, j: nat, now: real, registry: set<string> |
      && Run(cfg, states, posts, replies) && i <= j <= |posts|
      && (forall n | i <= n < j :: posts[n].rep.proven == "" && posts[n].purgeAt <= now) ::
      VerifiedRows(cfg, states[j], now, registry) == VerifiedRows(cfg, states[i], now, registry)
  }

  /** Main result: that holds if and only if the store keeps a report at least as long as it counts as fresh. */
  lemma {:induction false} HarmlessExactlyWhen(cfg: Config)
    ensures UnsignedHarmless(cfg) <==> cfg.stale <= cfg.purge
  {
    hide VerifiedRows, Deposits;
    if cfg.stale <= cfg.purge {
      forall states: seq<Store>, posts: seq<Post>, replies: seq<Reply>, i: nat, j: nat, now: real,
        registry: set<string> |
        && Run(cfg, states, posts, replies) && i <= j <= |posts|
        && (forall n | i <= n < j :: posts[n].rep.proven == "" && posts[n].purgeAt <= now)
        ensures VerifiedRows(cfg, states[j], now, registry) == VerifiedRows(cfg, states[i], now, registry)
      {
        UnsignedTrafficNeverVerified(cfg, states, posts, replies, i, j, now, registry);
      }
    } else {
      var states, posts, replies, now := ShortRetentionLosesVerified(cfg, "m");
    }
  }
}
