/** The state of a job: markers joined by `+`, and what its substrings and its markers are. */
module StateMarkers {

  predicate At(s: string, sub: string, i: nat) { i + |sub| <= |s| && s[i..i + |sub|] == sub }

  /** `sub in s`. */
  predicate Contains(s: string, sub: string) { exists i: nat | i <= |s| :: At(s, sub, i) }

  /** `s.split("+")`. */
  function Split(s: string): (r: seq<string>)
    ensures |r| > 0
  {
    if s == "" then [""]
    else
      var r := Split(s[1..]);
      if s[0] == '+' then [""] + r else [[s[0]] + r[0]] + r[1..]
  }

  function Join(r: seq<string>): string {
    if |r| == 0 then "" else if |r| == 1 then r[0] else r[0] + "+" + Join(r[1..])
  }

  /** Splitting loses nothing, and no marker holds a `+`. */
  lemma {:induction false} SplitJoins(s: string)
    ensures Join(Split(s)) == s && forall m | m in Split(s) :: '+' !in m
  {
    if s != "" {
      var r := Split(s[1..]);
      SplitJoins(s[1..]);
      assert s == [s[0]] + s[1..];
      if s[0] == '+' {
        assert ([""] + r)[1..] == r;
      } else {
        assert Split(s)[1..] == r[1..];
        assert r[0] in r;
      }
    }
  }

  lemma {:induction false} ContainsMore(s: string, sub: string)
    requires s != "" && Contains(s[1..], sub)
    ensures Contains(s, sub)
  {
    var i: nat :| i <= |s[1..]| && At(s[1..], sub, i);
    assert s[i + 1..i + 1 + |sub|] == s[1..][i..i + |sub|];
    assert At(s, sub, i + 1);
  }

  lemma {:induction false} HeadIsPrefix(s: string)
    ensures At(s, Split(s)[0], 0)
  {
    if s != "" && s[0] != '+' {
      HeadIsPrefix(s[1..]);
      var h := Split(s[1..])[0];
      assert s == [s[0]] + s[1..];
      assert s[0..1 + |h|] == [s[0]] + s[1..][0..|h|];
    }
  }

  /** Every marker of a state is a substring of it: what the unwound path reads, the paid path reads too. */
  lemma {:induction false} MarkerIsSubstring(s: string, m: string)
    requires m in Split(s)
    ensures Contains(s, m)
  {
    if m == Split(s)[0] {
      HeadIsPrefix(s);
    } else {
      var r := Split(s[1..]);
      assert m in r;
      MarkerIsSubstring(s[1..], m);
      ContainsMore(s, m);
    }
  }

  // ---------------------------------------------------------------- what a marker is

  /** `m` stands in `s` at `i`, between separators or ends, and holds none. */
  predicate MarkerAt(s: string, m: string, i: nat) {
    && At(s, m, i) && '+' !in m
    && (i == 0 || s[i - 1] == '+') && (i + |m| == |s| || s[i + |m|] == '+')
  }

  ghost predicate IsMarker(s: string, m: string) { exists i: nat | i <= |s| :: MarkerAt(s, m, i) }

  lemma {:induction false} MarkerShifts(s: string, m: string, i: nat)
    requires s != ""
    ensures MarkerAt(s, m, i + 1) <==> MarkerAt(s[1..], m, i) && (i == 0 ==> s[0] == '+')
  {
    var t := s[1..];
    assert forall k | 0 <= k < |t| :: t[k] == s[k + 1];
    if i + 1 + |m| <= |s| {
      var a, b := s[i + 1..i + 1 + |m|], t[i..i + |m|];
      assert |a| == |b| && forall k | 0 <= k < |a| :: a[k] == s[i + 1 + k] && b[k] == t[i + k];
      assert a == b;
    }
  }

  /** The first marker is the only one that stands at the beginning. */
  lemma {:induction false} FirstMarker(s: string, m: string)
    ensures MarkerAt(s, m, 0) <==> m == Split(s)[0]
  {
    if s != "" {
      var t := s[1..];
      if s[0] == '+' {
        assert m != "" && At(s, m, 0) ==> m[0] == '+';
      } else {
        if m == "" {
          assert Split(s)[0] == [s[0]] + Split(t)[0];
        } else {
          FirstMarker(t, m[1..]);
          FirstLetter(s, m);
        }
      }
    }
  }

  lemma {:induction false} FirstLetter(s: string, m: string)
    requires s != "" && m != "" && s[0] != '+'
    ensures MarkerAt(s, m, 0) <==> m[0] == s[0] && MarkerAt(s[1..], m[1..], 0)
  {
    var t, n := s[1..], m[1..];
    assert m == [m[0]] + n && s == [s[0]] + t;
    if |m| <= |s| {
      assert s[0..|m|] == [s[0]] + t[0..|n|];
      assert |m| < |s| ==> s[|m|] == t[|n|];
    }
  }

  /** The other markers are those that stand after a separator. */
  lemma {:induction false} LaterMarkers(s: string, m: string)
    ensures m in Split(s)[1..] <==> exists i: nat | i <= |s| :: i >= 1 && MarkerAt(s, m, i)
  {
    if s != "" {
      var t := s[1..];
      LaterMarkers(t, m);
      FirstMarker(t, m);
      assert Split(s)[1..] == if s[0] == '+' then Split(t) else Split(t)[1..];
      assert m in Split(t) <==> m == Split(t)[0] || m in Split(t)[1..];
      MarkerShifts(s, m, 0);
      if j: nat :| j <= |t| && j >= 1 && MarkerAt(t, m, j) {
        MarkerShifts(s, m, j);
        assert MarkerAt(s, m, j + 1);
      }
      if i: nat :| i <= |s| && i >= 1 && MarkerAt(s, m, i) {
        MarkerShifts(s, m, i - 1);
      }
    }
  }

  /** Splitting finds exactly the markers: what stands between separators or ends. */
  lemma {:induction false} SplitFindsMarkers(s: string, m: string)
    ensures m in Split(s) <==> IsMarker(s, m)
  {
    FirstMarker(s, m);
    LaterMarkers(s, m);
    hide MarkerAt, Split;
    assert m in Split(s) <==> m == Split(s)[0] || m in Split(s)[1..];
  }

  // ---------------------------------------------------------------- substrings, marker by marker

  lemma {:induction false} ContainsNext(s: string, w: string)
    requires s != ""
    ensures Contains(s, w) <==> At(s, w, 0) || Contains(s[1..], w)
  {
    if Contains(s[1..], w) { ContainsMore(s, w); }
    if i: nat :| i <= |s| && i > 0 && At(s, w, i) {
      assert s[1..][i - 1..i - 1 + |w|] == s[i..i + |w|];
      assert At(s[1..], w, i - 1);
    }
  }

  /** A word that holds no separator begins a state exactly when it begins its first marker. */
  lemma {:induction false} BeginsFirst(s: string, w: string)
    requires '+' !in w
    ensures At(s, w, 0) <==> At(Split(s)[0], w, 0)
  {
    if s != "" && w != "" {
      var t, v := s[1..], w[1..];
      assert forall k | 0 <= k < |v| :: v[k] == w[k + 1] && v[k] in v;
      assert w[0] in w;
      BeginsNext(s, w);
      if s[0] != '+' {
        BeginsFirst(t, v);
        var h := Split(t)[0];
        assert Split(s)[0] == [s[0]] + h && ([s[0]] + h)[1..] == h;
        BeginsNext([s[0]] + h, w);
      }
    }
  }

  lemma {:induction false} BeginsNext(s: string, w: string)
    requires s != "" && w != ""
    ensures At(s, w, 0) <==> s[0] == w[0] && At(s[1..], w[1..], 0)
  {
    assert w == [w[0]] + w[1..];
    if |w| <= |s| { assert s[0..|w|] == [s[0]] + s[1..][0..|w| - 1]; }
  }

  ghost predicate SomeMarkerHolds(s: string, w: string) { exists m | m in Split(s) :: Contains(m, w) }

  /** A word without a separator is in a state exactly when it is in one of its markers. */
  lemma {:induction false} WordInMarker(s: string, w: string)
    requires w != "" && '+' !in w
    ensures Contains(s, w) <==> SomeMarkerHolds(s, w)
  {
    if s == "" {
      assert Split(s) == [""];
    } else {
      var t := s[1..];
      var r := Split(t);
      WordInMarker(t, w);
      ContainsNext(s, w);
      BeginsFirst(s, w);
      hide Contains, At;
      if s[0] == '+' {
        NothingInEmpty(w);
        assert forall m :: m in Split(s) <==> m == "" || m in r;
      } else {
        var h := [s[0]] + r[0];
        assert h[1..] == r[0];
        ContainsNext(h, w);
        assert forall m :: m in Split(s) <==> m == h || m in r[1..];
        assert forall m :: m in r <==> m == r[0] || m in r[1..];
      }
    }
  }

  lemma {:induction false} NothingInEmpty(w: string)
    requires w != "" && '+' !in w
    ensures !Contains("", w) && !At("+", w, 0) && forall s | s != "" && s[0] == '+' :: !At(s, w, 0)
  {
    assert w[0] in w;
    forall s | s != "" && s[0] == '+' ensures !At(s, w, 0) {
      BeginsNext(s, w);
    }
  }

  /** Some marker but the first begins with `w`. */
  ghost predicate LaterMarkerBegins(s: string, w: string) { exists m | m in Split(s)[1..] :: At(m, w, 0) }

  /** A word after a separator is in a state exactly when it begins a marker other than the first. */
  lemma {:induction false} WordBeginsMarker(s: string, w: string)
    requires '+' !in w
    ensures Contains(s, "+" + w) <==> LaterMarkerBegins(s, w)
  {
    var x := "+" + w;
    if s == "" {
      assert Split(s)[1..] == [];
    } else {
      var t := s[1..];
      var r := Split(t);
      WordBeginsMarker(t, w);
      ContainsNext(s, x);
      BeginsNext(s, x);
      assert x[1..] == w && x[0] == '+';
      BeginsFirst(t, w);
      assert Split(s)[1..] == if s[0] == '+' then r else r[1..];
      hide Contains, At;
      assert forall m :: m in r <==> m == r[0] || m in r[1..];
    }
  }

  lemma {:induction false} WholeHolds(w: string)
    ensures Contains(w, w)
  {
    assert At(w, w, 0);
  }
}
