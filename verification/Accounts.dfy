/** A ledger of what each key holds, and what it adds up to however its keys are listed. */
module Accounts {
  import opened Ordering
  import opened Tally

  function Held<K>(m: map<K, nat>): K -> nat { (k: K) => Get(m, k, 0) }

  function Earn<K>(m: map<K, nat>, k: K, n: nat): map<K, nat> { m[k := Get(m, k, 0) + n] }

  ghost predicate Lists<K(!new)>(keys: seq<K>, m: map<K, nat>) {
    Distinct(keys) && forall k :: k in keys <==> k in m
  }

  /** However its keys are listed, `m` adds up to `total`. */
  ghost predicate AddsUpTo<K(!new)>(m: map<K, nat>, total: nat) {
    forall keys: seq<K> | Lists(keys, m) :: Sum(Map(keys, Held(m))) == total
  }

  lemma {:induction false} DropListed<K>(keys: seq<K>, j: nat)
    requires Distinct(keys) && j < |keys|
    ensures Distinct(Without(keys, j)) && forall k :: k in Without(keys, j) <==> k in keys && k != keys[j]
  {
    var rest := Without(keys, j);
    assert forall i | 0 <= i < |rest| :: rest[i] == if i < j then keys[i] else keys[i + 1];
    forall k | k in keys && k != keys[j] ensures k in rest {
      var i :| 0 <= i < |keys| && keys[i] == k;
      assert rest[if i < j then i else i - 1] == k;
    }
  }

  lemma {:induction false} DropMap<K>(keys: seq<K>, f: K -> nat, j: nat)
    requires j < |keys|
    ensures Without(Map(keys, f), j) == Map(Without(keys, j), f)
  {
    hide Map;
  }

  lemma {:induction false} DropSum<K>(keys: seq<K>, f: K -> nat, j: nat)
    requires j < |keys|
    ensures Sum(Map(keys, f)) == Sum(Map(Without(keys, j), f)) + f(keys[j])
  {
    hide Map, Without, Sum;
    DropMap(keys, f, j);
    SumWithout(Map(keys, f), j);
  }

  /** Crediting one key adds what it is credited to the whole. */
  lemma {:induction false} EarnAddsUp<K(!new)>(m: map<K, nat>, a: K, paid: nat, total: nat)
    requires AddsUpTo(m, total)
    ensures AddsUpTo(Earn(m, a, paid), total + paid)
  {
    hide Sum, Map, Without;
    var f, g := Held(m), Held(Earn(m, a, paid));
    forall keys: seq<K> | Lists(keys, Earn(m, a, paid)) ensures Sum(Map(keys, g)) == total + paid {
      assert a in keys;
      var j :| 0 <= j < |keys| && keys[j] == a;
      var rest := Without(keys, j);
      DropListed(keys, j);
      DropSum(keys, f, j);
      DropSum(keys, g, j);
      assert Map(rest, f) == Map(rest, g);
      assert Lists(if a in m then keys else rest, m);
    }
  }

  lemma {:induction false} SumMapNext<T>(s: seq<T>, f: T -> nat, n: nat)
    requires n < |s|
    ensures Sum(Map(s[..n + 1], f)) == Sum(Map(s[..n], f)) + f(s[n])
  {
    assert Map(s[..n + 1], f)[..n] == Map(s[..n], f);
  }

  lemma {:induction false} HeadListed<K>(keys: seq<K>)
    requires keys != []
    ensures exists k :: k in keys
  {
    assert keys[0] in keys;
  }

  lemma {:induction false} EmptyAddsUp<K(!new)>(m: map<K, nat>)
    requires m == map[]
    ensures AddsUpTo(m, 0)
  {
    forall keys: seq<K> | Lists(keys, m) ensures Sum(Map(keys, Held(m))) == 0 {
      assert keys == [] by {
        if keys != [] { HeadListed(keys); }
      }
    }
  }
}
