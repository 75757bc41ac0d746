/** Orders and sorting shared by the models: Python's string order, `sorted` on a set of strings, and
    a stable insertion sort that stands for `list.sort` and `sorted`. */
module Ordering {

  /** Lexicographic order by code point, the order Python compares strings with. */
  predicate StringLe(a: string, b: string) {
    a == [] || (b != [] && (a[0] < b[0] || (a[0] == b[0] && StringLe(a[1..], b[1..]))))
  }

  lemma {:induction false} StringLeTotal(a: string, b: string)
    ensures StringLe(a, b) || StringLe(b, a)
  {
    if a != [] && b != [] && a[0] == b[0] { StringLeTotal(a[1..], b[1..]); }
  }

  lemma {:induction false} StringLeAntisymmetric(a: string, b: string)
    requires StringLe(a, b) && StringLe(b, a)
    ensures a == b
  {
    if a != [] && b != [] {
      StringLeAntisymmetric(a[1..], b[1..]);
      assert a == [a[0]] + a[1..] && b == [b[0]] + b[1..];
    }
  }

  lemma {:induction false} StringLeTransitive(a: string, b: string, c: string)
    requires StringLe(a, b) && StringLe(b, c)
    ensures StringLe(a, c)
  {
    if a != [] && a[0] == b[0] == c[0] { StringLeTransitive(a[1..], b[1..], c[1..]); }
  }

  /** `a` and `b` agree up to position `k`, where `a` ends or has the smaller character. */
  predicate DivergesAt(a: string, b: string, k: nat) {
    && k <= |a| && k < |b| && a[..k] == b[..k]
    && (k < |a| ==> a[k] < b[k])
  }

  /** The order compares character by character, and a prefix comes first. */
  lemma {:induction false} StringLeExactly(a: string, b: string)
    ensures StringLe(a, b) <==> a == b || exists k: nat :: DivergesAt(a, b, k)
  {
    if a == [] {
      if b != [] { assert DivergesAt(a, b, 0); }
    } else if b != [] {
      if a[0] == b[0] {
        StringLeExactly(a[1..], b[1..]);
        assert a == b <==> a[1..] == b[1..] by { assert a == [a[0]] + a[1..] && b == [b[0]] + b[1..]; }
        if k: nat :| DivergesAt(a, b, k) {
          if k > 0 { DivergesLater(a, b, k - 1); }
        }
        if k: nat :| DivergesAt(a[1..], b[1..], k) { DivergesLater(a, b, k); }
      } else {
        if a[0] < b[0] { assert DivergesAt(a, b, 0); }
        if k: nat :| DivergesAt(a, b, k) { FirstsAgree(a, b, k); }
      }
    }
  }

  lemma {:induction false} FirstsAgree(a: string, b: string, k: nat)
    requires a != [] && DivergesAt(a, b, k)
    ensures k > 0 ==> a[0] == b[0]
  {
    if k > 0 { assert a[..k][0] == b[..k][0]; }
  }

  lemma {:induction false} DivergesLater(a: string, b: string, k: nat)
    requires a != [] && b != [] && a[0] == b[0]
    ensures DivergesAt(a, b, k + 1) <==> DivergesAt(a[1..], b[1..], k)
  {
    if k + 1 <= |a| && k + 1 <= |b| {
      assert a[..k + 1] == [a[0]] + a[1..][..k] && b[..k + 1] == [b[0]] + b[1..][..k];
      if a[..k + 1] == b[..k + 1] { assert a[1..][..k] == a[..k + 1][1..] && b[1..][..k] == b[..k + 1][1..]; }
    }
  }

  /** `x` is below every element of `s`: the first element `sorted(s)` yields. */
  predicate IsLeast(x: string, s: set<string>) {
    x in s && forall y | y in s :: StringLe(x, y)
  }

  lemma {:induction false} LeastExists(s: set<string>)
    requires s != {}
    ensures exists x :: IsLeast(x, s)
  {
    var z :| z in s;
    if s == {z} {
      StringLeTotal(z, z);
      assert IsLeast(z, s);
    } else {
      assert s == {z} + (s - {z});
      LeastExists(s - {z});
      var m :| IsLeast(m, s - {z});
      StringLeTotal(z, m);
      StringLeTotal(z, z);
      if StringLe(z, m) {
        forall y | y in s ensures StringLe(z, y) {
          if y != z { StringLeTransitive(z, m, y); }
        }
        assert IsLeast(z, s);
      } else {
        assert IsLeast(m, s);
      }
    }
  }

  /** `r` lists every element of `s` once, in order. */
  ghost predicate ListingOf(r: seq<string>, s: set<string>) {
    && (forall k :: k in r <==> k in s)
    && (forall i, j | 0 <= i < j < |r| :: r[i] != r[j] && StringLe(r[i], r[j]))
  }

  /** `sorted(s)` on a set of strings. */
  method SortedKeys(s: set<string>) returns (r: seq<string>)
    ensures ListingOf(r, s)
  {
    r := [];
    var rest := s;
    while rest != {}
      invariant rest <= s && ListingOf(r, s - rest)
      invariant forall k, x | k in r && x in rest :: StringLe(k, x)
      decreases |rest|
    {
      LeastExists(rest);
      var x :| IsLeast(x, rest);
      assert (s - rest) + {x} == s - (rest - {x});
      assert forall k :: k in r + [x] <==> k in r || k == x;
      r := r + [x];
      rest := rest - {x};
    }
    assert s - {} == s;
  }

  /** The first `i` keys of a listing. */
  function Upto(keys: seq<string>, i: nat): set<string>
    requires i <= |keys|
  {
    set k | k in keys[..i]
  }

  lemma {:induction false} UptoAll(keys: seq<string>, s: set<string>)
    requires ListingOf(keys, s)
    ensures Upto(keys, |keys|) == s
  {
    assert keys[..|keys|] == keys;
  }

  /** Inserts `x` before the first element it is below: equal keys keep their order, as Python's sort does. */
  function Insert<T>(x: T, s: seq<T>, le: (T, T) -> bool): seq<T> {
    if s == [] then [x]
    else if le(x, s[0]) then [x] + s
    else [s[0]] + Insert(x, s[1..], le)
  }

  function Sort<T>(s: seq<T>, le: (T, T) -> bool): seq<T> {
    if s == [] then [] else Insert(s[0], Sort(s[1..], le), le)
  }

  ghost predicate Sorted<T>(s: seq<T>, le: (T, T) -> bool) {
    forall i, j | 0 <= i < j < |s| :: le(s[i], s[j])
  }

  ghost predicate Preorder<T(!new)>(le: (T, T) -> bool) {
    && (forall x, y :: le(x, y) || le(y, x))
    && (forall x, y, z :: le(x, y) && le(y, z) ==> le(x, z))
  }

  lemma {:induction false} InsertPermutes<T>(x: T, s: seq<T>, le: (T, T) -> bool)
    ensures multiset(Insert(x, s, le)) == multiset{x} + multiset(s)
  {
    if s != [] {
      assert s == [s[0]] + s[1..];
      if !le(x, s[0]) { InsertPermutes(x, s[1..], le); }
    }
  }

  lemma {:induction false} SortPermutes<T>(s: seq<T>, le: (T, T) -> bool)
    ensures multiset(Sort(s, le)) == multiset(s)
    ensures |Sort(s, le)| == |s|
  {
    if s != [] {
      SortPermutes(s[1..], le);
      InsertPermutes(s[0], Sort(s[1..], le), le);
      assert s == [s[0]] + s[1..];
    }
    assert |multiset(Sort(s, le))| == |multiset(s)|;
  }

  lemma {:induction false} InsertSorts<T(!new)>(x: T, s: seq<T>, le: (T, T) -> bool)
    requires Preorder(le) && Sorted(s, le)
    ensures Sorted(Insert(x, s, le), le)
  {
    if s != [] && !le(x, s[0]) {
      assert Sorted(s[1..], le);
      InsertSorts(x, s[1..], le);
      InsertPermutes(x, s[1..], le);
      var r := Insert(x, s[1..], le);
      forall i | 0 <= i < |r| ensures le(s[0], r[i]) {
        assert r[i] in multiset(r);
        if r[i] != x {
          assert r[i] in multiset(s[1..]);
          var j :| 0 <= j < |s[1..]| && s[1..][j] == r[i];
          assert s[j + 1] == r[i];
        }
      }
    }
  }

  lemma {:induction false} SortSorts<T(!new)>(s: seq<T>, le: (T, T) -> bool)
    requires Preorder(le)
    ensures Sorted(Sort(s, le), le)
  {
    if s != [] {
      SortSorts(s[1..], le);
      InsertSorts(s[0], Sort(s[1..], le), le);
    }
  }

  /** No two different elements of `s` have equal keys. */
  ghost predicate Strict<T>(s: seq<T>, le: (T, T) -> bool) {
    forall x, y | x in s && y in s && le(x, y) && le(y, x) :: x == y
  }

  lemma {:induction false} SortedHeads<T(!new)>(a: seq<T>, b: seq<T>, le: (T, T) -> bool)
    requires Preorder(le) && Sorted(a, le) && Sorted(b, le) && Strict(a, le)
    requires a != [] && b != [] && b[0] in a && a[0] in b
    ensures a[0] == b[0]
  {
    var i :| 0 <= i < |b| && b[i] == a[0];
    var j :| 0 <= j < |a| && a[j] == b[0];
    assert le(b[0], b[i]) && le(a[0], a[j]);
  }

  lemma {:induction false} TailMultiset<T>(a: seq<T>)
    requires a != []
    ensures multiset(a[1..]) == multiset(a) - multiset{a[0]}
  {
    assert a == [a[0]] + a[1..];
  }

  lemma {:induction false} SortedTail<T>(a: seq<T>, le: (T, T) -> bool)
    requires a != [] && Sorted(a, le)
    ensures Sorted(a[1..], le)
  {
  }

  lemma {:induction false} StrictTail<T>(a: seq<T>, le: (T, T) -> bool)
    requires a != [] && Strict(a, le)
    ensures Strict(a[1..], le)
  {
  }

  /** With distinct keys a multiset has one sorted listing, so sorting forgets the order it was given. */
  lemma {:induction false} SortedUnique<T(!new)>(a: seq<T>, b: seq<T>, le: (T, T) -> bool)
    requires Preorder(le) && Sorted(a, le) && Sorted(b, le)
    requires multiset(a) == multiset(b)
    requires Strict(a, le)
    ensures a == b
  {
    hide Sorted, Strict, Preorder;
    assert |multiset(a)| == |multiset(b)|;
    if a != [] {
      assert a[0] in multiset(b) && b[0] in multiset(a);
      SortedHeads(a, b, le);
      TailMultiset(a);
      TailMultiset(b);
      SortedTail(a, le);
      SortedTail(b, le);
      StrictTail(a, le);
      SortedUnique(a[1..], b[1..], le);
      assert a == [a[0]] + a[1..] && b == [b[0]] + b[1..];
    }
  }

  lemma {:induction false} SortIgnoresOrder<T(!new)>(a: seq<T>, b: seq<T>, le: (T, T) -> bool)
    requires Preorder(le) && multiset(a) == multiset(b) && Strict(a, le)
    ensures Sort(a, le) == Sort(b, le)
  {
    SortPermutes(a, le);
    SortPermutes(b, le);
    SortSorts(a, le);
    SortSorts(b, le);
    forall x | x in Sort(a, le) ensures x in a {
      assert x in multiset(Sort(a, le));
    }
    SortedUnique(Sort(a, le), Sort(b, le), le);
  }

  // ---------------------------------------------------------------- permutations

  predicate Distinct<T(==)>(s: seq<T>) { forall i, j | 0 <= i < j < |s| :: s[i] != s[j] }

  lemma {:induction false} DistinctOnce<T>(s: seq<T>)
    requires Distinct(s)
    ensures forall x :: multiset(s)[x] <= 1
  {
    if s != [] {
      var pre, last := s[..|s| - 1], s[|s| - 1];
      DistinctOnce(pre);
      assert s == pre + [last];
      assert last !in pre;
    }
  }

  lemma {:induction false} OnceDistinct<T>(s: seq<T>)
    requires forall x :: multiset(s)[x] <= 1
    ensures Distinct(s)
  {
    if s != [] {
      var pre, last := s[..|s| - 1], s[|s| - 1];
      assert s == pre + [last];
      assert forall x :: multiset(s)[x] == multiset(pre)[x] + if x == last then 1 else 0;
      OnceDistinct(pre);
      assert last !in multiset(pre);
    }
  }

  lemma {:induction false} PermutedDistinct<T>(a: seq<T>, b: seq<T>)
    requires multiset(a) == multiset(b) && Distinct(a)
    ensures Distinct(b) && forall x :: x in a <==> x in b
  {
    DistinctOnce(a);
    OnceDistinct(b);
    forall x ensures x in a <==> x in b { assert x in multiset(a) <==> x in multiset(b); }
  }

  function Map<T, U>(s: seq<T>, f: T -> U): (r: seq<U>)
    ensures |r| == |s| && forall i | 0 <= i < |s| :: r[i] == f(s[i])
  {
    if s == [] then [] else Map(s[..|s| - 1], f) + [f(s[|s| - 1])]
  }

  /** `s` without its element at `j`. */
  function Without<T>(s: seq<T>, j: nat): seq<T>
    requires j < |s|
  {
    s[..j] + s[j + 1..]
  }

  lemma {:induction false} WithoutMultiset<T>(s: seq<T>, j: nat)
    requires j < |s|
    ensures multiset(Without(s, j)) == multiset(s) - multiset{s[j]}
    ensures multiset(s) == multiset(Without(s, j)) + multiset{s[j]}
  {
    PartsMultiset(s[..j], s[j], s[j + 1..]);
    assert s == s[..j] + [s[j]] + s[j + 1..];
  }

  lemma {:induction false} PartsMultiset<T>(a: seq<T>, x: T, b: seq<T>)
    ensures multiset(a + [x] + b) == multiset(a + b) + multiset{x}
  {
  }

  /** The last element of `a` lies somewhere in a permutation of it, and what remains is a permutation too. */
  lemma {:induction false} MatchLast<T>(a: seq<T>, b: seq<T>) returns (j: nat)
    requires multiset(a) == multiset(b) && a != []
    ensures j < |b| && b[j] == a[|a| - 1] && multiset(a[..|a| - 1]) == multiset(Without(b, j))
  {
    var last := a[|a| - 1];
    assert last in multiset(b);
    j :| 0 <= j < |b| && b[j] == last;
    hide Without;
    WithoutMultiset(b, j);
    DropLast(a);
  }

  lemma {:induction false} DropLast<T>(a: seq<T>)
    requires a != []
    ensures multiset(a[..|a| - 1]) == multiset(a) - multiset{a[|a| - 1]}
  {
    assert a == a[..|a| - 1] + [a[|a| - 1]];
  }

  /** Mapping a permutation gives a permutation. */
  lemma {:induction false} PermutedMap<T, U>(a: seq<T>, b: seq<T>, f: T -> U)
    requires multiset(a) == multiset(b)
    ensures multiset(Map(a, f)) == multiset(Map(b, f))
  {
    assert |multiset(a)| == |multiset(b)|;
    if a != [] {
      var j := MatchLast(a, b);
      PermutedMap(a[..|a| - 1], Without(b, j), f);
      assert Without(Map(b, f), j) == Map(Without(b, j), f);
      WithoutMultiset(Map(b, f), j);
    }
  }

  function Sum(s: seq<nat>): nat {
    if s == [] then 0 else Sum(s[..|s| - 1]) + s[|s| - 1]
  }

  lemma {:induction false} SumAppend(a: seq<nat>, b: seq<nat>)
    ensures Sum(a + b) == Sum(a) + Sum(b)
  {
    if b == [] {
      assert a + b == a;
    } else {
      SumAppend(a, b[..|b| - 1]);
      assert (a + b)[..|a + b| - 1] == a + b[..|b| - 1];
    }
  }

  lemma {:induction false} SumSplit(s: seq<nat>, j: nat)
    requires j <= |s|
    ensures Sum(s) == Sum(s[..j]) + Sum(s[j..])
  {
    SumAppend(s[..j], s[j..]);
    assert s == s[..j] + s[j..];
  }

  lemma {:induction false} SumTake(s: seq<nat>, j: nat)
    requires j < |s|
    ensures Sum(s[..j + 1]) == Sum(s[..j]) + s[j]
  {
    assert s[..j + 1][..j] == s[..j];
  }

  lemma {:induction false} SumWithout(s: seq<nat>, j: nat)
    requires j < |s|
    ensures Sum(s) == Sum(Without(s, j)) + s[j]
  {
    SumSplit(s, j + 1);
    SumTake(s, j);
    SumAppend(s[..j], s[j + 1..]);
  }

  lemma {:induction false} PermutedSum(a: seq<nat>, b: seq<nat>)
    requires multiset(a) == multiset(b)
    ensures Sum(a) == Sum(b)
  {
    assert |multiset(a)| == |multiset(b)|;
    if a != [] {
      var j := MatchLast(a, b);
      PermutedSum(a[..|a| - 1], Without(b, j));
      SumWithout(b, j);
    }
  }

  lemma {:induction false} SubsetSize<T>(a: set<T>, b: set<T>)
    requires a <= b
    ensures |a| <= |b|
  {
    assert b == a + (b - a);
  }
}
