/** Counting per owner: the dictionaries `{owner: n}` filled one item at a time. */
module Tally {

  function Get<K, V>(m: map<K, V>, k: K, default: V): V { if k in m then m[k] else default }

  /** The items of `w` that `owner` assigns to `who`. */
  function Credited<K(==)>(w: set<string>, owner: map<string, K>, who: K): set<string> {
    set j | j in w && j in owner && owner[j] == who
  }

  function Add<K>(t: map<K, nat>, who: K): map<K, nat> { t[who := Get(t, who, 0) + 1] }

  /** `t` counts, for every owner, the items of `w` met so far. */
  ghost predicate Tallied<K(!new)>(w: set<string>, owner: map<string, K>, done: set<string>, t: map<K, nat>) {
    forall who: K :: Get(t, who, 0) == |Credited(w * done, owner, who)|
  }

  lemma {:induction false} TallyStep<K(!new)>(w: set<string>, owner: map<string, K>, done: set<string>, j: string,
                                              t: map<K, nat>)
    requires Tallied(w, owner, done, t) && j in owner && j !in done
    ensures Tallied(w, owner, done + {j}, if j in w then Add(t, owner[j]) else t)
  {
    var after := if j in w then Add(t, owner[j]) else t;
    forall who: K ensures Get(after, who, 0) == |Credited(w * (done + {j}), owner, who)| {
      if j in w && who == owner[j] {
        assert Credited(w * (done + {j}), owner, who) == Credited(w * done, owner, who) + {j};
      } else {
        assert Credited(w * (done + {j}), owner, who) == Credited(w * done, owner, who);
      }
    }
  }

  lemma {:induction false} TallyDone<K(!new)>(w: set<string>, owner: map<string, K>, done: set<string>, t: map<K, nat>)
    requires Tallied(w, owner, done, t) && w <= done
    ensures forall who: K :: Get(t, who, 0) == |Credited(w, owner, who)|
  {
    assert w * done == w;
  }
}
