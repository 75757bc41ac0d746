/** The exact model of a jury vote: the distribution of the number of votes when every juror votes at a rate of its
    own, the relative quorum bar, and the two levers compared on it. Floats are modelled as reals. */
module JuryModel {
  import opened Wrappers

  /** The chain's bar for a number of seats: two thirds of them, and at least the quorum. */
  function BarFor(seats: int, quorum: int): Option<int> {
    if seats <= 0 then None
    else
      var twoThirds := -((-2 * seats) / 3);
      Some(if quorum > twoThirds then quorum else twoThirds)
  }

  function Clip(p: real): (r: real)
    ensures 0.0 <= r <= 1.0
  {
    if p < 0.0 then 0.0 else if p > 1.0 then 1.0 else p
  }

  // ---------------------------------------------------------------- the votes, one by one

  /** What each juror did, the last juror outermost. */
  datatype Vote = NoJurors | Cast(others: Vote, yes: bool)

  function Jurors(v: Vote): nat { if v.NoJurors? then 0 else Jurors(v.others) + 1 }

  function Count(v: Vote): nat { if v.NoJurors? then 0 else Count(v.others) + if v.yes then 1 else 0 }

  function Extend(vs: seq<Vote>, b: bool): (r: seq<Vote>)
    ensures |r| == |vs| && forall i | 0 <= i < |vs| :: r[i] == Cast(vs[i], b)
  {
    if vs == [] then [] else Extend(vs[..|vs| - 1], b) + [Cast(vs[|vs| - 1], b)]
  }

  /** Every way `n` jurors can vote or stay silent. */
  function AllVotes(n: nat): seq<Vote> {
    if n == 0 then [NoJurors] else Extend(AllVotes(n - 1), false) + Extend(AllVotes(n - 1), true)
  }

  function Times(a: real, b: real): real { a * b }

  /** `a` if the juror stays silent and `b` if it votes, at the rate `p`. */
  function Mixed(a: real, b: real, p: real): real { Times(a, 1.0 - p) + Times(b, p) }

  function Rate(p: real, yes: bool): real { if yes then Clip(p) else 1.0 - Clip(p) }

  /** The probability of one outcome, the jurors being independent. */
  function Weight(ps: seq<real>, v: Vote): real {
    if ps == [] || v.NoJurors? then 1.0
    else Times(Weight(ps[..|ps| - 1], v.others), Rate(ps[|ps| - 1], v.yes))
  }

  datatype Event = Exactly(votes: int) | AtLeast(votes: int)

  predicate Holds(e: Event, count: int) { if e.Exactly? then count == e.votes else count >= e.votes }

  /** The same event seen before one more vote was cast. */
  function Earlier(e: Event): Event { e.(votes := e.votes - 1) }

  function Term(ps: seq<real>, v: Vote, e: Event): real { if Holds(e, Count(v)) then Weight(ps, v) else 0.0 }

  function Total(ps: seq<real>, vs: seq<Vote>, e: Event): real {
    if vs == [] then 0.0 else Total(ps, vs[..|vs| - 1], e) + Term(ps, vs[|vs| - 1], e)
  }

  /** The probability of an event: the sum over every outcome in which it holds. */
  function P(ps: seq<real>, e: Event): real { Total(ps, AllVotes(|ps|), e) }

  /** The sum ranges over every outcome of that many jurors, and over nothing else. */
  lemma {:induction false} VotesAreAll(n: nat, v: Vote)
    ensures v in AllVotes(n) <==> Jurors(v) == n
  {
    if n > 0 {
      var pre := AllVotes(n - 1);
      ExtendedIn(pre, false, v);
      ExtendedIn(pre, true, v);
      hide Extend;
      if v.Cast? { VotesAreAll(n - 1, v.others); }
    }
  }

  lemma {:induction false} ExtendedIn(vs: seq<Vote>, b: bool, v: Vote)
    ensures v in Extend(vs, b) <==> v.Cast? && v.yes == b && v.others in vs
  {
    if v.Cast? && v.yes == b && v.others in vs {
      var i :| 0 <= i < |vs| && vs[i] == v.others;
      assert Extend(vs, b)[i] == v;
    }
  }

  lemma {:induction false} VoteAt(n: nat, k: nat)
    requires n > 0 && k < |AllVotes(n)|
    ensures var pre := AllVotes(n - 1);
            && |AllVotes(n)| == 2 * |pre|
            && AllVotes(n)[k] == if k < |pre| then Cast(pre[k], false) else Cast(pre[k - |pre|], true)
  {
  }

  lemma {:induction false} OneVote()
    ensures |AllVotes(0)| == 1
  {
  }

  /** It counts each outcome once. */
  lemma {:induction false} VotesOnce(n: nat, i: nat, j: nat)
    requires i < j < |AllVotes(n)|
    ensures AllVotes(n)[i] != AllVotes(n)[j]
  {
    hide AllVotes, Extend;
    OneVote();
    if n > 0 {
      var h := |AllVotes(n - 1)|;
      VoteAt(n, i);
      VoteAt(n, j);
      if i >= h { VotesOnce(n - 1, i - h, j - h); }
      else if j < h { VotesOnce(n - 1, i, j); }
    }
  }

  // ---------------------------------------------------------------- one juror more

  lemma {:induction false} TotalSplits(ps: seq<real>, a: seq<Vote>, b: seq<Vote>, e: Event)
    ensures Total(ps, a + b, e) == Total(ps, a, e) + Total(ps, b, e)
  {
    if b == [] {
      assert a + b == a;
    } else {
      TotalSplits(ps, a, b[..|b| - 1], e);
      assert (a + b)[..|a + b| - 1] == a + b[..|b| - 1];
    }
  }

  lemma {:induction false} TermExtends(ps: seq<real>, p: real, v: Vote, b: bool, e: Event)
    ensures Term(ps + [p], Cast(v, b), e) == Times(Term(ps, v, if b then Earlier(e) else e), Rate(p, b))
  {
    assert (ps + [p])[..|ps|] == ps;
  }

  lemma {:induction false} Distributes(a: real, b: real, r: real)
    ensures Times(a + b, r) == Times(a, r) + Times(b, r)
  {
  }

  lemma {:induction false} TotalNext(ps: seq<real>, vs: seq<Vote>, e: Event)
    requires vs != []
    ensures Total(ps, vs, e) == Total(ps, vs[..|vs| - 1], e) + Term(ps, vs[|vs| - 1], e)
  {
  }

  lemma {:induction false} ExtendNext(vs: seq<Vote>, b: bool)
    requires vs != []
    ensures var w := Extend(vs, b); w[..|w| - 1] == Extend(vs[..|vs| - 1], b) && w[|w| - 1] == Cast(vs[|vs| - 1], b)
  {
  }

  lemma {:induction false} TotalExtends(ps: seq<real>, p: real, vs: seq<Vote>, b: bool, e: Event)
    ensures Total(ps + [p], Extend(vs, b), e) == Times(Total(ps, vs, if b then Earlier(e) else e), Rate(p, b))
  {
    if vs != [] {
      hide Total, Extend, Term, Rate, Holds, Earlier, Clip, Weight, Count, Times;
      var pre, d, qs := vs[..|vs| - 1], if b then Earlier(e) else e, ps + [p];
      TotalExtends(ps, p, pre, b, e);
      TermExtends(ps, p, vs[|vs| - 1], b, e);
      ExtendNext(vs, b);
      TotalNext(qs, Extend(vs, b), e);
      TotalNext(ps, vs, d);
      Distributes(Total(ps, pre, d), Term(ps, vs[|vs| - 1], d), Rate(p, b));
    }
  }

  lemma {:induction false} VotesNext(ps: seq<real>, p: real, e: Event)
    ensures var vs := AllVotes(|ps|); P(ps + [p], e) == Total(ps + [p], Extend(vs, false) + Extend(vs, true), e)
  {
    hide Total, Extend;
  }

  /** What one juror more does to the probability of an event. */
  lemma {:induction false} OneMore(ps: seq<real>, p: real, e: Event)
    ensures P(ps + [p], e) == Mixed(P(ps, e), P(ps, Earlier(e)), Clip(p))
  {
    hide Total, Extend, AllVotes, Clip, Times;
    var vs := AllVotes(|ps|);
    VotesNext(ps, p, e);
    TotalSplits(ps + [p], Extend(vs, false), Extend(vs, true), e);
    TotalExtends(ps, p, vs, false, e);
    TotalExtends(ps, p, vs, true, e);
  }

  lemma {:induction false} LastJuror(ps: seq<real>, e: Event)
    requires ps != []
    ensures var pre, p := ps[..|ps| - 1], Clip(ps[|ps| - 1]);
            P(ps, e) == Mixed(P(pre, e), P(pre, Earlier(e)), p)
  {
    hide P;
    OneMore(ps[..|ps| - 1], ps[|ps| - 1], e);
    assert ps == ps[..|ps| - 1] + [ps[|ps| - 1]];
  }

  lemma {:induction false} NoJuror(e: Event)
    ensures P([], e) == if Holds(e, 0) then 1.0 else 0.0
  {
    var vs := AllVotes(0);
    assert vs == [NoJurors] && vs[..0] == [];
    assert Total([], vs, e) == Total([], vs[..0], e) + Term([], vs[0], e);
  }

  lemma {:induction false} Mix(a: real, b: real, p: real)
    requires 0.0 <= p <= 1.0 && 0.0 <= a && 0.0 <= b
    ensures 0.0 <= Mixed(a, b, p)
    ensures a == b == 0.0 ==> Mixed(a, b, p) == 0.0
    ensures a == b == 1.0 ==> Mixed(a, b, p) == 1.0
  {
    assert 0.0 <= a * (1.0 - p) && 0.0 <= b * p;
  }

  /** A probability is never negative, and an event out of reach has none. */
  lemma {:induction false} NonNegative(ps: seq<real>, e: Event)
    ensures 0.0 <= P(ps, e)
    ensures e.votes > |ps| ==> P(ps, e) == 0.0
    ensures e.votes < 0 && e.Exactly? ==> P(ps, e) == 0.0
    ensures e.votes <= 0 && e.AtLeast? ==> P(ps, e) == 1.0
  {
    if ps == [] {
      NoJuror(e);
    } else {
      var pre := ps[..|ps| - 1];
      hide P, Mixed;
      LastJuror(ps, e);
      NonNegative(pre, e);
      NonNegative(pre, Earlier(e));
      Mix(P(pre, e), P(pre, Earlier(e)), Clip(ps[|ps| - 1]));
    }
  }

  lemma {:induction false} MixAdds(a: real, b: real, c: real, a': real, b': real, c': real, p: real)
    requires a == b + c && a' == b' + c'
    ensures Mixed(a, a', p) == Mixed(b, b', p) + Mixed(c, c', p)
  {
  }

  lemma {:induction false} TailStep(ps: seq<real>, k: int)
    ensures P(ps, AtLeast(k)) == P(ps, Exactly(k)) + P(ps, AtLeast(k + 1))
  {
    if ps == [] {
      NoJuror(AtLeast(k));
      NoJuror(Exactly(k));
      NoJuror(AtLeast(k + 1));
    } else {
      hide P, Mixed;
      LastJuror(ps, AtLeast(k));
      LastJuror(ps, Exactly(k));
      LastJuror(ps, AtLeast(k + 1));
      var pre := ps[..|ps| - 1];
      TailStep(pre, k);
      TailStep(pre, k - 1);
      MixAdds(P(pre, AtLeast(k)), P(pre, Exactly(k)), P(pre, AtLeast(k + 1)),
              P(pre, AtLeast(k - 1)), P(pre, Exactly(k - 1)), P(pre, AtLeast(k)), Clip(ps[|ps| - 1]));
    }
  }

  // ---------------------------------------------------------------- the dynamic programme

  function SumFrom(d: seq<real>, k: nat): real
    requires k <= |d|
    decreases |d| - k
  {
    if k == |d| then 0.0 else d[k] + SumFrom(d, k + 1)
  }

  ghost predicate Distribution(ps: seq<real>, d: seq<real>) {
    |d| == |ps| + 1 && forall k | 0 <= k < |d| :: d[k] == P(ps, Exactly(k))
  }

  lemma {:induction false} TailSums(ps: seq<real>, d: seq<real>, k: nat)
    requires Distribution(ps, d) && k <= |d|
    ensures SumFrom(d, k) == P(ps, AtLeast(k))
    decreases |d| - k
  {
    hide P;
    if k == |d| {
      NonNegative(ps, AtLeast(k));
    } else {
      TailSums(ps, d, k + 1);
      TailStep(ps, k);
    }
  }

  /** What the count `k` receives from one juror: its silence on `k` votes and its vote on one fewer. */
  function Received(dist: seq<real>, k: int, q: real): real {
    (if 0 <= k < |dist| then Times(dist[k], 1.0 - q) else 0.0) +
      (if 0 < k <= |dist| then Times(dist[k - 1], q) else 0.0)
  }

  lemma {:induction false} ReceivedIsP(dist: seq<real>, ps: seq<real>, p: real, k: nat)
    requires Distribution(ps, dist) && k <= |dist|
    ensures Received(dist, k, Clip(p)) == P(ps + [p], Exactly(k))
  {
    hide P;
    OneMore(ps, p, Exactly(k));
    NonNegative(ps, Exactly(k));
    NonNegative(ps, Exactly(k - 1));
  }

  /** One pass of the programme: every count gets the juror's silence and the count above it the juror's vote. */
  method AddJuror(dist: seq<real>, p: real) returns (nxt: seq<real>)
    ensures |nxt| == |dist| + 1 && forall k | 0 <= k < |nxt| :: nxt[k] == Received(dist, k, Clip(p))
  {
    hide Clip, Times;
    var q := Clip(p);
    nxt := seq(|dist| + 1, _ => 0.0);
    for k := 0 to |dist|
      invariant |nxt| == |dist| + 1
      invariant forall i | 0 <= i < k :: nxt[i] == Received(dist, i, q)
      invariant nxt[k] == if k == 0 then 0.0 else Times(dist[k - 1], q)
      invariant forall i | k < i < |nxt| :: nxt[i] == 0.0
    {
      nxt := nxt[k := nxt[k] + Times(dist[k], 1.0 - q)];
      nxt := nxt[k + 1 := nxt[k + 1] + Times(dist[k], q)];
    }
  }

  /** The distribution of the number of votes: entry `k` is the sum over every outcome with `k` votes; no entry is
      negative and together they make 1. */
  method PoissonBinomial(ps: seq<real>) returns (dist: seq<real>)
    ensures |dist| == |ps| + 1 && forall k | 0 <= k < |dist| :: dist[k] == P(ps, Exactly(k))
    ensures (forall k | 0 <= k < |dist| :: 0.0 <= dist[k]) && SumFrom(dist, 0) == 1.0
  {
    hide P;
    dist := [1.0];
    NoJuror(Exactly(0));
    for n := 0 to |ps|
      invariant Distribution(ps[..n], dist)
    {
      assert ps[..n + 1] == ps[..n] + [ps[n]];
      forall k | 0 <= k <= |dist| ensures Received(dist, k, Clip(ps[n])) == P(ps[..n + 1], Exactly(k)) {
        ReceivedIsP(dist, ps[..n], ps[n], k);
      }
      dist := AddJuror(dist, ps[n]);
    }
    assert ps[..|ps|] == ps;
    forall k | 0 <= k < |dist| ensures 0.0 <= dist[k] { NonNegative(ps, Exactly(k)); }
    TailSums(ps, dist, 0);
    NonNegative(ps, AtLeast(0));
  }

  /** The probability of at least `k` votes. */
  method PAtLeast(ps: seq<real>, k: int) returns (r: real)
    ensures r == P(ps, AtLeast(k))
  {
    hide P;
    NonNegative(ps, AtLeast(k));
    if k <= 0 {
      return 1.0;
    }
    var d := PoissonBinomial(ps);
    if k >= |d| {
      return 0.0;
    }
    TailSums(ps, d, k);
    return SumFrom(d, k);
  }

  // ---------------------------------------------------------------- the generating function

  function Power(z: real, k: nat): real { if k == 0 then 1.0 else Times(Power(z, k - 1), z) }

  /** The sum of the first `m` terms `P(exactly k) * z^k`. */
  function Series(ps: seq<real>, z: real, m: nat): real {
    if m == 0 then 0.0 else Series(ps, z, m - 1) + Times(P(ps, Exactly(m - 1)), Power(z, m - 1))
  }

  /** One juror's factor: `1 - p + p * z`, the rate brought between 0 and 1. */
  function Factor(rate: real, z: real): real {
    var p := if rate < 0.0 then 0.0 else if rate > 1.0 then 1.0 else rate;
    1.0 - p + p * z
  }

  function Product(ps: seq<real>, z: real): real {
    if ps == [] then 1.0 else Times(Product(ps[..|ps| - 1], z), Factor(ps[|ps| - 1], z))
  }

  /** What a juror with the rate `p` makes of the sums with and without the last term. */
  function Spread(s: real, t: real, c: real, z: real): real { (1.0 - c) * s + (c * z) * t }

  lemma {:induction false} TermSplits(a: real, b: real, c: real, z: real, w: real)
    ensures Times(Mixed(a, b, c), Times(w, z)) == Spread(Times(a, Times(w, z)), Times(b, w), c, z)
  {
    var v := w * z;
    assert (a * (1.0 - c) + b * c) * v == (1.0 - c) * (a * v) + (b * c) * v;
    assert (b * c) * (w * z) == (c * z) * (b * w);
  }

  lemma {:induction false} SpreadAdds(s: real, t: real, a: real, b: real, c: real, z: real)
    ensures Spread(s, t, c, z) + Spread(a, b, c, z) == Spread(s + a, t + b, c, z)
  {
  }

  lemma {:induction false} FirstTerm(a: real, c: real, z: real)
    ensures 0.0 + Times(Mixed(a, 0.0, c), 1.0) == Spread(0.0 + Times(a, 1.0), 0.0, c, z)
  {
  }

  lemma {:induction false} SpreadFactors(s: real, rate: real, z: real)
    ensures Spread(s, s, Clip(rate), z) == Times(s, Factor(rate, z))
  {
    var c := Clip(rate);
    assert Factor(rate, z) == 1.0 - c + c * z;
    assert s * (1.0 - c + c * z) == s * (1.0 - c) + s * (c * z);
  }

  lemma {:induction false} SeriesNext(ps: seq<real>, p: real, z: real, m: nat)
    ensures Series(ps + [p], z, m + 1) == Spread(Series(ps, z, m + 1), Series(ps, z, m), Clip(p), z)
  {
    hide P, Clip, Mixed, Times, Spread;
    OneMore(ps, p, Exactly(m));
    var c, a, b := Clip(p), P(ps, Exactly(m)), P(ps, Exactly(m - 1));
    if m == 0 {
      NonNegative(ps, Exactly(-1));
      FirstTerm(a, c, z);
      assert Series(ps + [p], z, 0) == Series(ps, z, 0) == 0.0;
    } else {
      SeriesNext(ps, p, z, m - 1);
      var w := Power(z, m - 1);
      TermSplits(a, b, c, z, w);
      SpreadAdds(Series(ps, z, m), Series(ps, z, m - 1), Times(a, Times(w, z)), Times(b, w), c, z);
    }
  }

  lemma {:induction false} SeriesEnds(ps: seq<real>, z: real)
    ensures Series(ps, z, |ps| + 2) == Series(ps, z, |ps| + 1)
  {
    hide P, Power;
    NonNegative(ps, Exactly(|ps| + 1));
    assert Times(P(ps, Exactly(|ps| + 1)), Power(z, |ps| + 1)) == 0.0;
  }

  lemma {:induction false} SeriesStarts(z: real)
    ensures Series([], z, 1) == 1.0
  {
    NoJuror(Exactly(0));
    assert Series([], z, 1) == Series([], z, 0) + Times(P([], Exactly(0)), Power(z, 0));
  }

  /** Main result: for every z, the probabilities of the counts as the coefficients of a polynomial in z are the product
      of one factor per juror; this determines the distribution. */
  lemma {:induction false} GeneratingFunction(ps: seq<real>, z: real)
    ensures Series(ps, z, |ps| + 1) == Product(ps, z)
  {
    hide P, Series, Times, Spread, Factor, Clip;
    if ps == [] {
      SeriesStarts(z);
    } else {
      var pre, n := ps[..|ps| - 1], |ps| - 1;
      GeneratingFunction(pre, z);
      SeriesNext(pre, ps[n], z, n + 1);
      assert ps == pre + [ps[n]];
      SeriesEnds(pre, z);
      SpreadFactors(Series(pre, z, n + 1), ps[n], z);
    }
  }

  // ---------------------------------------------------------------- the levers

  /** The bar is the least number at or above the quorum that is two thirds of the seats. */
  lemma {:induction false} BarIsLeast(seats: int, quorum: int, b: int)
    requires seats > 0
    ensures BarFor(seats, quorum).Some?
    ensures BarFor(seats, quorum).value <= b <==> quorum <= b && 2 * seats <= 3 * b
  {
  }

  /** The jurors to fix are those whose rate is below the target. */
  lemma {:induction false} BelowCounts(ps: seq<real>, t: real)
    ensures Below(ps, t) == |set i | 0 <= i < |ps| && ps[i] < t|
  {
    if ps != [] {
      var n := |ps| - 1;
      var pre := ps[..n];
      BelowCounts(pre, t);
      var before, now := set i | 0 <= i < |pre| && pre[i] < t, set i | 0 <= i < |ps| && ps[i] < t;
      assert now == if ps[n] < t then before + {n} else before;
    }
  }

  /** `qs` raises some rates of `ps` and lowers none. */
  ghost predicate Raised(ps: seq<real>, qs: seq<real>) {
    |ps| == |qs| && forall i | 0 <= i < |ps| :: ps[i] <= qs[i]
  }

  lemma {:induction false} MixGap(a: real, b: real, p: real, a': real, b': real, q: real)
    ensures Mixed(a', b', q) - Mixed(a, b, p) == Times(a' - a, 1.0 - p) + Times(b' - b, p) + Times(b' - a', q - p)
  {
  }

  lemma {:induction false} TimesNonNegative(a: real, b: real)
    requires 0.0 <= a && 0.0 <= b
    ensures 0.0 <= Times(a, b)
  {
  }

  lemma {:induction false} MixRises(a: real, b: real, p: real, a': real, b': real, q: real)
    requires 0.0 <= p <= q <= 1.0 && a <= b && a <= a' && b <= b' && a' <= b'
    ensures Mixed(a, b, p) <= Mixed(a', b', q)
  {
    MixGap(a, b, p, a', b', q);
    TimesNonNegative(a' - a, 1.0 - p);
    TimesNonNegative(b' - b, p);
    TimesNonNegative(b' - a', q - p);
    hide Times, Mixed;
  }

  /** Main result: the chance of reaching a bar never drops when any rates are raised. */
  lemma {:induction false} RaisingRatesHelps(ps: seq<real>, qs: seq<real>, k: int)
    requires Raised(ps, qs)
    ensures P(ps, AtLeast(k)) <= P(qs, AtLeast(k))
  {
    if ps != [] {
      var n := |ps| - 1;
      hide P, Mixed;
      LastJuror(ps, AtLeast(k));
      LastJuror(qs, AtLeast(k));
      RaisingRatesHelps(ps[..n], qs[..n], k);
      RaisingRatesHelps(ps[..n], qs[..n], k - 1);
      LowerBarHelps(ps[..n], k);
      LowerBarHelps(qs[..n], k);
      MixRises(P(ps[..n], AtLeast(k)), P(ps[..n], AtLeast(k - 1)), Clip(ps[n]),
               P(qs[..n], AtLeast(k)), P(qs[..n], AtLeast(k - 1)), Clip(qs[n]));
    }
  }

  lemma {:induction false} LowerBarHelps(ps: seq<real>, k: int)
    ensures P(ps, AtLeast(k)) <= P(ps, AtLeast(k - 1))
  {
    hide P;
    TailStep(ps, k - 1);
    NonNegative(ps, Exactly(k - 1));
  }

  /** Main result: a perfect juror shifts the distribution by one vote. */
  lemma {:induction false} PerfectJurorShifts(ps: seq<real>, e: Event)
    ensures P(ps + [1.0], e) == P(ps, Earlier(e))
  {
    OneMore(ps, 1.0, e);
  }

  function Perfect(k: nat): seq<real> { if k == 0 then [] else Perfect(k - 1) + [1.0] }

  lemma {:induction false} PerfectJurorsShift(ps: seq<real>, k: nat, bar: int)
    ensures P(ps + Perfect(k), AtLeast(bar)) == P(ps, AtLeast(bar - k))
  {
    if k == 0 {
      assert ps + Perfect(0) == ps;
    } else {
      hide P;
      assert ps + Perfect(k) == (ps + Perfect(k - 1)) + [1.0];
      PerfectJurorShifts(ps + Perfect(k - 1), AtLeast(bar));
      PerfectJurorsShift(ps, k - 1, bar - 1);
    }
  }

  /** What the jury resolves with its bar. */
  function Resolves(ps: seq<real>, quorum: int): real
    requires ps != []
  {
    P(ps, AtLeast(BarFor(|ps|, quorum).value))
  }

  /** Main result: a perfect juror more changes nothing when it raises the bar, and never lowers the chance; above the
      quorum, three of them together lower the bar the measured jurors face by exactly one. */
  lemma {:induction false} AddedJurors(ps: seq<real>, quorum: int)
    requires ps != []
    ensures Resolves(ps, quorum) <= Resolves(ps + [1.0], quorum)
    ensures BarFor(|ps| + 1, quorum).value == BarFor(|ps|, quorum).value + 1 ==>
              Resolves(ps + [1.0], quorum) == Resolves(ps, quorum)
    ensures 3 * quorum <= 2 * |ps| ==>
              Resolves(ps + Perfect(3), quorum) == P(ps, AtLeast(BarFor(|ps|, quorum).value - 1))
  {
    hide P, BarFor, Perfect;
    BarRises(|ps|, quorum);
    var bar, next, last := BarFor(|ps|, quorum).value, BarFor(|ps| + 1, quorum).value, BarFor(|ps| + 3, quorum).value;
    PerfectJurorShifts(ps, AtLeast(next));
    LowerBarHelps(ps, bar);
    PerfectJurorsShift(ps, 3, last);
    PerfectSize(3);
  }

  /** A seat more raises the bar by one at most; above the quorum, three seats raise it by two. */
  lemma {:induction false} BarRises(seats: int, quorum: int)
    requires seats > 0
    ensures BarFor(seats, quorum).Some? && BarFor(seats + 1, quorum).Some? && BarFor(seats + 3, quorum).Some?
    ensures BarFor(seats, quorum).value <= BarFor(seats + 1, quorum).value <= BarFor(seats, quorum).value + 1
    ensures 3 * quorum <= 2 * seats ==> BarFor(seats + 3, quorum).value == BarFor(seats, quorum).value + 2
  {
  }

  lemma {:induction false} AddingNeverHurts(ps: seq<real>, quorum: int, j: nat, k: nat)
    requires ps != [] && j <= k
    ensures Resolves(ps + Perfect(j), quorum) <= Resolves(ps + Perfect(k), quorum)
  {
    if j < k {
      hide Resolves;
      AddingNeverHurts(ps, quorum, j, k - 1);
      AddedJurors(ps + Perfect(k - 1), quorum);
      assert ps + Perfect(k) == (ps + Perfect(k - 1)) + [1.0];
    }
  }

  function Lifted(ps: seq<real>, t: real): (r: seq<real>)
    ensures |r| == |ps| && forall i | 0 <= i < |ps| :: r[i] == if ps[i] < t then t else ps[i]
  {
    if ps == [] then []
    else Lifted(ps[..|ps| - 1], t) + [if ps[|ps| - 1] < t then t else ps[|ps| - 1]]
  }

  function Below(ps: seq<real>, t: real): nat {
    if ps == [] then 0 else Below(ps[..|ps| - 1], t) + (if ps[|ps| - 1] < t then 1 else 0)
  }

  datatype Scenario = Scenario(seats: int, bar: int, resolve: real)
  datatype Levers = Levers(base: Scenario, add: seq<Scenario>, lift: seq<Scenario>, toFix: seq<nat>)

  /** Both levers are exact, and along neither does the chance of resolving an audit ever fall. */
  ghost predicate Sound(rates: seq<real>, quorum: int, addMax: int, targets: seq<real>, s: Levers)
    requires rates != []
  {
    && s.base == Scenario(|rates|, BarFor(|rates|, quorum).value, Resolves(rates, quorum))
    && |s.add| == (if addMax < 0 then 0 else addMax + 1)
    && (forall k | 0 <= k < |s.add| :: s.add[k] == Added(rates, quorum, k))
    && (forall j, k | 0 <= j <= k < |s.add| :: s.base.resolve <= s.add[j].resolve <= s.add[k].resolve)
    && |s.lift| == |s.toFix| == |targets|
    && (forall i | 0 <= i < |targets| ::
          && s.lift[i] == Scenario(|rates|, s.base.bar, P(Lifted(rates, targets[i]), AtLeast(s.base.bar)))
          && s.toFix[i] == Below(rates, targets[i])
          && s.base.resolve <= s.lift[i].resolve)
    && (forall i, j | 0 <= i < |targets| && 0 <= j < |targets| && targets[i] <= targets[j] ::
          s.lift[i].resolve <= s.lift[j].resolve)
  }

  /** The levers from the measured rates; a jury of no seats has no bar and is refused. */
  method Scenarios(rates: seq<real>, quorum: int, addMax: int, targets: seq<real>) returns (r: Result<Levers>)
    ensures r.Refused? <==> rates == []
    ensures r.Ok? ==> Sound(rates, quorum, addMax, targets, r.value)
  {
    hide P;
    var n := |rates|;
    var bar := BarFor(n, quorum);
    if bar.None? {
      return Refused;
    }
    var p := PAtLeast(rates, bar.value);
    var base := Scenario(n, bar.value, p);
    var add := AddLever(rates, quorum, addMax);
    var lift, toFix := LiftLever(rates, bar.value, targets);
    AddNeverHurts(rates, quorum, add);
    LiftNeverHurts(rates, bar.value, targets, lift);
    return Ok(Levers(base, add, lift, toFix));
  }

  method AddLever(rates: seq<real>, quorum: int, addMax: int) returns (add: seq<Scenario>)
    requires rates != []
    ensures |add| == if addMax < 0 then 0 else addMax + 1
    ensures forall k | 0 <= k < |add| :: add[k] == Added(rates, quorum, k)
  {
    hide P, BarFor;
    add := [];
    var ps, k := rates, 0;
    while k < addMax + 1
      invariant |add| == k && 0 <= k && (k <= addMax + 1 || k == 0)
      invariant ps == rates + Perfect(k)
      invariant forall i | 0 <= i < k :: add[i] == Added(rates, quorum, i)
    {
      AddedIs(rates, quorum, k);
      var b := BarFor(|rates| + k, quorum);
      var p := PAtLeast(ps, b.value);
      add := add + [Scenario(|rates| + k, b.value, p)];
      ps, k := ps + [1.0], k + 1;
    }
  }

  /** The jury with `k` perfect jurors more. */
  function Added(rates: seq<real>, quorum: int, k: nat): Scenario
    requires rates != []
  {
    Scenario(|rates| + k, BarFor(|rates| + k, quorum).value, Resolves(rates + Perfect(k), quorum))
  }

  lemma {:induction false} PerfectSize(k: nat)
    ensures |Perfect(k)| == k
  {
    if k > 0 { PerfectSize(k - 1); }
  }

  lemma {:induction false} AddedIs(rates: seq<real>, quorum: int, k: nat)
    requires rates != []
    ensures BarFor(|rates| + k, quorum).Some?
    ensures Added(rates, quorum, k).resolve == P(rates + Perfect(k), AtLeast(BarFor(|rates| + k, quorum).value))
  {
    PerfectSize(k);
  }

  lemma {:induction false} AddNeverHurts(rates: seq<real>, quorum: int, add: seq<Scenario>)
    requires rates != [] && forall k | 0 <= k < |add| :: add[k] == Added(rates, quorum, k)
    ensures forall j, k | 0 <= j <= k < |add| :: Resolves(rates, quorum) <= add[j].resolve <= add[k].resolve
  {
    hide Resolves;
    assert rates + Perfect(0) == rates;
    forall i, j | 0 <= i <= j < |add| ensures Resolves(rates, quorum) <= add[i].resolve <= add[j].resolve {
      AddingNeverHurts(rates, quorum, 0, i);
      AddingNeverHurts(rates, quorum, i, j);
    }
  }

  method LiftLever(rates: seq<real>, bar: int, targets: seq<real>) returns (lift: seq<Scenario>, toFix: seq<nat>)
    ensures |lift| == |toFix| == |targets|
    ensures forall i | 0 <= i < |targets| ::
              && lift[i] == Scenario(|rates|, bar, P(Lifted(rates, targets[i]), AtLeast(bar)))
              && toFix[i] == Below(rates, targets[i])
  {
    hide P;
    lift, toFix := [], [];
    for i := 0 to |targets|
      invariant |lift| == |toFix| == i
      invariant forall j | 0 <= j < i ::
                  && lift[j] == Scenario(|rates|, bar, P(Lifted(rates, targets[j]), AtLeast(bar)))
                  && toFix[j] == Below(rates, targets[j])
    {
      var p := PAtLeast(Lifted(rates, targets[i]), bar);
      lift := lift + [Scenario(|rates|, bar, p)];
      toFix := toFix + [Below(rates, targets[i])];
    }
  }

  lemma {:induction false} LiftNeverHurts(rates: seq<real>, bar: int, targets: seq<real>, lift: seq<Scenario>)
    requires |lift| == |targets|
    requires forall i | 0 <= i < |targets| :: lift[i].resolve == P(Lifted(rates, targets[i]), AtLeast(bar))
    ensures forall i | 0 <= i < |targets| :: P(rates, AtLeast(bar)) <= lift[i].resolve
    ensures forall i, j | 0 <= i < |targets| && 0 <= j < |targets| && targets[i] <= targets[j] ::
              lift[i].resolve <= lift[j].resolve
  {
    hide P;
    forall i | 0 <= i < |targets| ensures P(rates, AtLeast(bar)) <= lift[i].resolve {
      RaisingRatesHelps(rates, Lifted(rates, targets[i]), bar);
    }
    forall i, j | 0 <= i < |targets| && 0 <= j < |targets| && targets[i] <= targets[j]
      ensures lift[i].resolve <= lift[j].resolve
    {
      RaisingRatesHelps(Lifted(rates, targets[i]), Lifted(rates, targets[j]), bar);
    }
  }
}
