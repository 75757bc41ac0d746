/** What an accepted reveal is in plain terms: the number the draw reads from the digest, the share of requests it
    draws, the seven lists of classes, the ordered identities, and the drawn requests it leaves out. */
module RevealMeaning {
  import opened Wrappers
  import opened SeasonRules
  import opened JobStates
  import opened Ordering
  import opened FaultReveal

  // ---------------------------------------------------------------- the draw

  function Value(b: byte): nat { b }

  /** The eight bytes from `i` on as a number, the most significant first. */
  function Number(d: Bytes, i: nat): nat
    requires i + 8 <= |d|
  {
    Value(d[i]) * 0x100_0000_0000_0000 + Value(d[i + 1]) * 0x1_0000_0000_0000 + Value(d[i + 2]) * 0x100_0000_0000 +
    Value(d[i + 3]) * 0x1_0000_0000 + Value(d[i + 4]) * 0x100_0000 + Value(d[i + 5]) * 0x1_0000 +
    Value(d[i + 6]) * 0x100 + Value(d[i + 7])
  }

  lemma {:induction false} BigEndianNext(d: Bytes, i: nat, n: nat)
    requires i + n < |d|
    ensures BigEndian(d[i..i + n + 1]) == BigEndian(d[i..i + n]) * 256 + d[i + n]
  {
    assert d[i..i + n + 1][..n] == d[i..i + n];
  }

  lemma {:induction false} BigEndianIs(d: Bytes, i: nat)
    requires i + 8 <= |d|
    ensures BigEndian(d[i..i + 8]) == Number(d, i)
  {
    hide BigEndian;
    assert BigEndian(d[i..i]) == 0 by { NoBytes(d[i..i]); }
    BigEndianNext(d, i, 0);
    BigEndianNext(d, i, 1);
    BigEndianNext(d, i, 2);
    BigEndianNext(d, i, 3);
    BigEndianNext(d, i, 4);
    BigEndianNext(d, i, 5);
    BigEndianNext(d, i, 6);
    BigEndianNext(d, i, 7);
  }

  lemma {:induction false} NoBytes(d: Bytes)
    requires d == []
    ensures BigEndian(d) == 0
  {
  }

  function Digest(c: Codecs, seed: Bytes, id: string): Bytes { c.sha256(seed + c.utf8(id)) }

  /** Main result: a request is drawn exactly when the first eight bytes of its digest leave a remainder below the rate,
      and its class is the one at the remainder of the next eight. */
  lemma {:induction false} DrawExactly(c: Codecs, seed: Bytes, id: string, bps: int, classes: seq<string>)
    requires Sound(c) && classes != []
    ensures var d, r := Digest(c, seed, id), FaultDraw(c, seed, id, bps, classes);
            && |d| == 32
            && (r.Some? <==> Number(d, 0) % 10_000 < bps)
            && (r.Some? ==> r.value == classes[Number(d, 8) % |classes|])
  {
    var d := Digest(c, seed, id);
    assert |d| == 32;
    BigEndianIs(d, 0);
    BigEndianIs(d, 8);
  }

  /** The number a request's digest begins with. */
  function Head(c: Codecs, seed: Bytes, id: string): nat
    requires Sound(c)
  {
    Number(Digest(c, seed, id), 0)
  }

  lemma {:induction false} HeadDraws(c: Codecs, seed: Bytes, id: string, bps: nat, classes: seq<string>)
    requires Sound(c) && classes != []
    ensures FaultDraw(c, seed, id, bps, classes).Some? <==> Below(Head(c, seed, id), 0, bps)
  {
    DrawExactly(c, seed, id, bps, classes);
  }

  function Span(lo: int, n: nat): (r: set<int>)
    ensures |r| == n && forall i :: i in r <==> lo <= i < lo + n
  {
    if n == 0 then {} else Span(lo, n - 1) + {lo + n - 1}
  }

  /** The number `i` places after `a` leaves a remainder below the rate. */
  predicate Below(a: nat, i: nat, bps: nat) { (a + i) % 10_000 < bps }

  lemma {:induction false} Remainder(a: nat, i: nat, bps: nat)
    requires i < 10_000
    ensures var r := a % 10_000; Below(a, i, bps) <==> if r + i < 10_000 then r + i < bps else r + i - 10_000 < bps
  {
    var r := a % 10_000;
    assert a + i == a / 10_000 * 10_000 + (r + i);
  }

  lemma {:induction false} Shift(a: nat, i: nat, bps: nat)
    ensures Below(a + i, 0, bps) <==> Below(a, i, bps)
  {
  }

  lemma {:induction false} RemainderShare(a: nat, bps: nat)
    requires bps <= 10_000
    ensures |set i | 0 <= i < 10_000 && Below(a, i, bps)| == bps
  {
    hide Below;
    var r := a % 10_000;
    var drawn := set i | 0 <= i < 10_000 && Below(a, i, bps);
    forall i | 0 <= i < 10_000
      ensures Below(a, i, bps) <==> if r + i < 10_000 then r + i < bps else r + i - 10_000 < bps
    {
      Remainder(a, i, bps);
    }
    if r < bps {
      var x, y := Span(0, bps - r), Span(10_000 - r, r);
      assert drawn == x + y && x !! y;
    } else {
      assert drawn == Span(10_000 - r, bps);
    }
  }

  /** Main result: of any 10 000 requests whose digests begin with consecutive numbers, exactly as many are drawn as the
      rate has basis points. */
  lemma {:induction false} DrawsItsShare(c: Codecs, seed: Bytes, ids: seq<string>, bps: nat, classes: seq<string>)
    requires Sound(c) && classes != [] && bps <= 10_000 && |ids| == 10_000
    requires forall i | 0 <= i < |ids| :: Head(c, seed, ids[i]) == Head(c, seed, ids[0]) + i
    ensures |set i | 0 <= i < |ids| && FaultDraw(c, seed, ids[i], bps, classes).Some?| == bps
  {
    hide FaultDraw, Head, Below;
    var a := Head(c, seed, ids[0]);
    forall i | 0 <= i < |ids| ensures FaultDraw(c, seed, ids[i], bps, classes).Some? <==> Below(a, i, bps) {
      HeadDraws(c, seed, ids[i], bps, classes);
      Shift(a, i, bps);
    }
    RemainderShare(a, bps);
    assert (set i | 0 <= i < |ids| && FaultDraw(c, seed, ids[i], bps, classes).Some?)
        == (set i | 0 <= i < 10_000 && Below(a, i, bps));
  }

  // ---------------------------------------------------------------- the classes and the identities

  /** The lists of classes a document may commit. */
  const CLASS_LISTS: seq<seq<string>> := [
    ["incoherent_answer"], ["plausible_false_fact"], ["no_reveal"],
    ["incoherent_answer", "plausible_false_fact"], ["incoherent_answer", "no_reveal"],
    ["plausible_false_fact", "no_reveal"], ["incoherent_answer", "plausible_false_fact", "no_reveal"]]

  lemma {:induction false} KeepFirst(x: string, rest: seq<string>, l: seq<string>)
    ensures Keep([x] + rest, l) == (if x in l then [x] else []) + Keep(rest, l)
  {
    assert ([x] + rest)[1..] == rest;
  }

  lemma {:induction false} KeepThree(a: string, b: string, d: string, l: seq<string>)
    ensures Keep([a, b, d], l) ==
              (if a in l then [a] else []) + ((if b in l then [b] else []) + (if d in l then [d] else []))
  {
    assert Keep([], l) == [];
    hide Keep;
    KeepFirst(d, [], l);
    KeepFirst(b, [d], l);
    KeepFirst(a, [b, d], l);
    assert [a, b, d] == [a] + [b, d] && [b, d] == [b] + [d] && [d] == [d] + [];
  }

  /** Main result: a document may commit exactly seven lists of classes. */
  lemma {:induction false} ClassesExactly(classes: seq<string>)
    ensures ClassesOk(classes) <==> classes in CLASS_LISTS
  {
    var a, b, d := FAULT_CLASSES[0], FAULT_CLASSES[1], FAULT_CLASSES[2];
    assert a[0] != b[0] && b[0] != d[0] && a[0] != d[0];
    assert CLASS_LISTS == SevenLists(a, b, d) && FAULT_CLASSES == [a, b, d];
    hide FAULT_CLASSES, Keep, CLASS_LISTS, SevenLists;
    if classes in SevenLists(a, b, d) { ListOk(classes, a, b, d); }
    if ClassesOk(classes) { OkListed(classes, a, b, d); }
  }

  function SevenLists(a: string, b: string, d: string): seq<seq<string>> {
    [[a], [b], [d], [a, b], [a, d], [b, d], [a, b, d]]
  }

  lemma {:induction false} ListOk(l: seq<string>, a: string, b: string, d: string)
    requires FAULT_CLASSES == [a, b, d] && a != b && b != d && a != d
    requires l in SevenLists(a, b, d)
    ensures ClassesOk(l)
  {
    hide Keep, FAULT_CLASSES;
    KeepThree(a, b, d, l);
  }

  lemma {:induction false} InSeven(a: string, b: string, d: string)
    ensures var all := SevenLists(a, b, d);
            && [a] in all && [b] in all && [d] in all && [a, b] in all && [a, d] in all && [b, d] in all
            && [a, b, d] in all
  {
  }

  lemma {:induction false} OkListed(l: seq<string>, a: string, b: string, d: string)
    requires FAULT_CLASSES == [a, b, d]
    requires ClassesOk(l)
    ensures l in SevenLists(a, b, d)
  {
    hide Keep, FAULT_CLASSES;
    assert l == Keep(FAULT_CLASSES, l) && l != [];
    KeepThree(a, b, d, l);
    hide ClassesOk, SevenLists;
    InSeven(a, b, d);
    if d in l {
      assert b in l ==> l == (if a in l then [a] else []) + [b, d];
      assert b !in l ==> l == (if a in l then [a] else []) + [d];
      assert l == [d] || l == [a, d] || l == [b, d] || l == [a, b, d];
    } else {
      assert l == (if a in l then [a] else []) + (if b in l then [b] else []);
      assert l == [a] || l == [b] || l == [a, b];
    }
  }

  /** The identity's id comes strictly before the other's. */
  ghost predicate IdBefore(a: string, b: string) { a != b && StringLe(a, b) }

  lemma {:induction false} NotAfter(a: string, b: string)
    ensures !StringLe(b, a) <==> IdBefore(a, b)
  {
    StringLeTotal(a, b);
    StringLeTotal(a, a);
    if StringLe(a, b) && StringLe(b, a) { StringLeAntisymmetric(a, b); }
  }

  lemma {:induction false} BeforeTransitive(a: string, b: string, c: string)
    requires IdBefore(a, b) && IdBefore(b, c)
    ensures IdBefore(a, c)
  {
    NotAfter(a, b);
    StringLeTransitive(a, b, c);
  }

  lemma {:induction false} Ascending(ts: seq<Trap>, i: nat, j: nat)
    requires TrapsOk(ts) && i < j < |ts|
    ensures IdBefore(ts[i].minerId, ts[j].minerId)
  {
    hide IsMinerId, IsPayer, StringLe;
    assert TrapFits(ts, j);
    NotAfter(ts[j - 1].minerId, ts[j].minerId);
    if i < j - 1 {
      Ascending(ts, i, j - 1);
      BeforeTransitive(ts[i].minerId, ts[j - 1].minerId, ts[j].minerId);
    }
  }

  lemma {:induction false} TrapAt(ts: seq<Trap>, i: nat)
    requires TrapsOk(ts) && i < |ts|
    ensures IsMinerId(ts[i].minerId) && IsPayer(ts[i].address)
  {
    hide IsMinerId, IsPayer, StringLe;
    assert TrapFits(ts, i);
  }

  /** Main result: the identities a document commits are well formed, some, and each strictly before all the later. */
  lemma {:induction false} TrapsExactly(ts: seq<Trap>)
    ensures TrapsOk(ts) <==>
              && ts != []
              && (forall i | 0 <= i < |ts| :: IsMinerId(ts[i].minerId) && IsPayer(ts[i].address))
              && (forall i, j | 0 <= i < j < |ts| :: IdBefore(ts[i].minerId, ts[j].minerId))
  {
    hide IsPayer, StringLe, IdBefore;
    if TrapsOk(ts) {
      forall i, j | 0 <= i < j < |ts| ensures IdBefore(ts[i].minerId, ts[j].minerId) { Ascending(ts, i, j); }
      forall i | 0 <= i < |ts| ensures IsMinerId(ts[i].minerId) && IsPayer(ts[i].address) {
        TrapAt(ts, i);
      }
    }
    if ts != [] && (forall i | 0 <= i < |ts| :: IsMinerId(ts[i].minerId) && IsPayer(ts[i].address))
       && (forall i, j | 0 <= i < j < |ts| :: IdBefore(ts[i].minerId, ts[j].minerId)) {
      forall i | 0 <= i < |ts| ensures TrapFits(ts, i) {
        if i == 0 { NotEmptyAfter(ts[0].minerId); } else { NotAfter(ts[i - 1].minerId, ts[i].minerId); }
      }
    }
  }

  lemma {:induction false} NotEmptyAfter(s: string)
    requires s != ""
    ensures !StringLe(s, "")
  {
  }

  /** Each identity is there once, with its own address. */
  lemma {:induction false} TrapMapExactly(ts: seq<Trap>, id: string)
    requires forall i, j | 0 <= i < j < |ts| :: ts[i].minerId != ts[j].minerId
    ensures id in TrapMap(ts) <==> exists i | 0 <= i < |ts| :: ts[i].minerId == id
    ensures forall i | 0 <= i < |ts| && ts[i].minerId == id :: id in TrapMap(ts) && TrapMap(ts)[id] == ts[i].address
  {
    if ts != [] {
      var pre, last := ts[..|ts| - 1], ts[|ts| - 1];
      TrapMapExactly(pre, id);
      assert forall i | 0 <= i < |pre| :: pre[i] == ts[i];
      if last.minerId != id && id in TrapMap(pre) {
        var i :| 0 <= i < |pre| && pre[i].minerId == id;
        assert ts[i].minerId == id;
      }
    }
  }

  // ---------------------------------------------------------------- the whole reveal

  /** The document, in plain terms. */
  ghost predicate DocMeans(p: Period, d: Doc) {
    && d.version == 1 && d.fromDay == p.fromDay && d.toDay == p.toDay && 1 <= d.faultBps && d.faultBps <= 10_000
    && d.classes in CLASS_LISTS && |d.seedSha| == 64 && IsHex(d.seedSha) && |d.nonce| == 64 && IsHex(d.nonce)
    && d.traps != []
    && (forall i | 0 <= i < |d.traps| :: IsMinerId(d.traps[i].minerId) && IsPayer(d.traps[i].address))
    && (forall i, j | 0 <= i < j < |d.traps| :: IdBefore(d.traps[i].minerId, d.traps[j].minerId))
  }

  lemma {:induction false} Hex64Exactly(s: string)
    ensures IsHex64(s) <==> |s| == 64 && IsHex(s)
  {
    if IsHex64(s) { Hex64IsHex(s); }
    if IsHex(s) {
      forall ch | ch in s ensures HexChar(ch) {
        var i :| 0 <= i < |s| && s[i] == ch;
      }
    }
  }

  lemma {:induction false} DocExactly(p: Period, d: Doc)
    ensures DocOk(p, d) <==> DocMeans(p, d)
  {
    hide ClassesOk, CLASS_LISTS, TrapsOk, IsHex64, IsHex, IsMinerId, IsPayer, IdBefore;
    ClassesExactly(d.classes);
    TrapsExactly(d.traps);
    Hex64Exactly(d.seedSha);
    Hex64Exactly(d.nonce);
  }

  /** One entry, in plain terms: a job of a committed identity, drawn, and in the class drawn. */
  ghost predicate EntryMeans(c: Codecs, d: Doc, seed: Bytes, e: Entry)
    requires Sound(c) && d.classes != []
  {
    var n := Digest(c, seed, e.jobId);
    && IsJobId(e.jobId) && (exists i | 0 <= i < |d.traps| :: d.traps[i].minerId == e.minerId)
    && Number(n, 0) % 10_000 < d.faultBps && e.cls == d.classes[Number(n, 8) % |d.classes|]
  }

  lemma {:induction false} EntryExactly(c: Codecs, d: Doc, seed: Bytes, e: Entry)
    requires Sound(c) && d.classes != []
    requires forall i, j | 0 <= i < j < |d.traps| :: d.traps[i].minerId != d.traps[j].minerId
    ensures EntryOk(c, d, seed, e) <==> EntryMeans(c, d, seed, e)
  {
    hide IsJobId, FaultDraw, Number, Digest;
    DrawExactly(c, seed, e.jobId, d.faultBps, d.classes);
    TrapMapExactly(d.traps, e.minerId);
  }

  /** Main result: a reveal is accepted exactly when the document's digest is the commitment of the period and the
      reveal, the document is canonical and sound, the seed's digest is the one committed, and every entry is a drawn
      job of a committed identity in its drawn class, no job twice. */
  lemma {:induction false} AcceptedExactly(c: Codecs, p: Period, doc: Bytes, r: Reveal)
    requires Sound(c)
    ensures Acceptable(c, p, doc, r) <==>
              && Hex(c.sha256(doc)) == p.commitment == r.commitment && r.version == 1
              && c.parse(doc).Some? && c.canonical(c.parse(doc).value) == doc && DocMeans(p, c.parse(doc).value)
              && |r.seed| == 64 && IsHex(r.seed) && Hex(c.sha256(FromHex(r.seed))) == c.parse(doc).value.seedSha
              && c.parse(doc).value.classes != []
              && (forall i | 0 <= i < |r.faults| ::
                    EntryMeans(c, c.parse(doc).value, FromHex(r.seed), r.faults[i]))
              && (forall i, j | 0 <= i < j < |r.faults| :: r.faults[i].jobId != r.faults[j].jobId)
  {
    hide EntryOk, EntryMeans, IsHex64, IsHex, Hex, FromHex;
    Hex64Exactly(r.seed);
    if c.parse(doc).Some? {
      var d := c.parse(doc).value;
      DocExactly(p, d);
      if DocOk(p, d) && IsHex(r.seed) {
        ClassesSome(d.classes);
        OneEach(p, d);
        hide DocOk, DocMeans;
        forall e ensures EntryOk(c, d, FromHex(r.seed), e) <==> EntryMeans(c, d, FromHex(r.seed), e) {
          EntryExactly(c, d, FromHex(r.seed), e);
        }
      }
    }
  }

  lemma {:induction false} OneEach(p: Period, d: Doc)
    requires DocMeans(p, d)
    ensures forall i, j | 0 <= i < j < |d.traps| :: d.traps[i].minerId != d.traps[j].minerId
  {
  }

  // ---------------------------------------------------------------- the requests left out

  /** The job is a programme request of a committed identity settled within the blocks, drawn and not listed. */
  ghost predicate DrawnAndMissing(c: Codecs, k: Checked, s: Scope, j: Job)
    requires Sound(c) && k.document.classes != []
  {
    && j.client == s.generator && j.minerId in k.traps && j.id !in k.faults
    && j.id in s.settle && s.settle[j.id] >= s.first && s.settle[j.id] <= s.last
    && Number(Digest(c, k.seed, j.id), 0) % 10_000 < k.document.faultBps
  }

  lemma {:induction false} LeftOutIs(c: Codecs, k: Checked, s: Scope, j: Job)
    requires Sound(c) && k.document.classes != []
    ensures LeftOut(c, k, s, j) <==> DrawnAndMissing(c, k, s, j)
  {
    hide FaultDraw, Number, Digest;
    DrawExactly(c, k.seed, j.id, k.document.faultBps, k.document.classes);
  }

  /** Main result: what is reported left out is exactly the drawn and missing requests of the jobs given. */
  lemma {:induction false} LeftOutExactly(c: Codecs, k: Checked, s: Scope, jobs: seq<Job>, m: Missing)
    requires Sound(c) && k.document.classes != []
    ensures m in LeftOutOf(c, k, s, jobs) <==>
              exists j | j in jobs :: DrawnAndMissing(c, k, s, j) && m.jobId == j.id && m.minerId == j.minerId
                                      && DrawnFor(c, k, j.id) == Some(m.cls)
  {
    hide LeftOut, DrawnAndMissing, DrawnFor;
    if jobs != [] {
      var pre, last := jobs[..|jobs| - 1], jobs[|jobs| - 1];
      LeftOutExactly(c, k, s, pre, m);
      LeftOutIs(c, k, s, last);
      assert forall x :: x in jobs <==> x in pre || x == last;
      LeftOutNext(c, k, s, jobs);
      hide LeftOutOf;
    }
  }

  lemma {:induction false} LeftOutNext(c: Codecs, k: Checked, s: Scope, jobs: seq<Job>)
    requires Sound(c) && k.document.classes != [] && jobs != []
    ensures var pre, j := LeftOutOf(c, k, s, jobs[..|jobs| - 1]), jobs[|jobs| - 1];
            if LeftOut(c, k, s, j)
            then DrawnFor(c, k, j.id).Some? &&
                 LeftOutOf(c, k, s, jobs) == pre + [Missing(j.id, j.minerId, DrawnFor(c, k, j.id).value)]
            else LeftOutOf(c, k, s, jobs) == pre
  {
    hide DrawnFor;
  }

  lemma {:induction false} ByJobPreorder()
    ensures Preorder(ByJob())
  {
    forall a, b ensures ByJob()(a, b) || ByJob()(b, a) { StringLeTotal(a.id, b.id); }
    forall a, b, c | ByJob()(a, b) && ByJob()(b, c) ensures ByJob()(a, c) { StringLeTransitive(a.id, b.id, c.id); }
  }

  lemma {:induction false} LeftOutFollows(c: Codecs, k: Checked, s: Scope, jobs: seq<Job>)
    requires Sound(c) && k.document.classes != []
    requires forall m, n | 0 <= m < n < |jobs| :: StringLe(jobs[m].id, jobs[n].id)
    ensures var out := LeftOutOf(c, k, s, jobs);
            && (forall m | 0 <= m < |out| :: exists n | 0 <= n < |jobs| :: out[m].jobId == jobs[n].id)
            && forall m, n | 0 <= m < n < |out| :: StringLe(out[m].jobId, out[n].jobId)
  {
    hide LeftOut, DrawnFor, StringLe;
    if jobs != [] {
      var pre, last := jobs[..|jobs| - 1], jobs[|jobs| - 1];
      LeftOutFollows(c, k, s, pre);
      LeftOutNext(c, k, s, jobs);
      hide LeftOutOf;
      var had, out := LeftOutOf(c, k, s, pre), LeftOutOf(c, k, s, jobs);
      forall m | 0 <= m < |had|
        ensures StringLe(had[m].jobId, last.id) && exists n | 0 <= n < |jobs| :: had[m].jobId == jobs[n].id
      {
        var n :| 0 <= n < |pre| && had[m].jobId == pre[n].id;
        assert pre[n] == jobs[n];
      }
    }
  }

  /** The requests left out are reported in the order of their ids. */
  lemma {:induction false} LeftOutInOrder(c: Codecs, k: Checked, s: Scope, jobs: seq<Job>)
    requires Sound(c) && k.document.classes != []
    ensures var out := LeftOutOf(c, k, s, Sort(jobs, ByJob()));
            forall m, n | 0 <= m < n < |out| :: StringLe(out[m].jobId, out[n].jobId)
  {
    hide LeftOutOf, StringLe, Sort;
    var sorted := Sort(jobs, ByJob());
    ByJobPreorder();
    SortSorts(jobs, ByJob());
    forall m, n | 0 <= m < n < |sorted| ensures StringLe(sorted[m].id, sorted[n].id) {
      assert ByJob()(sorted[m], sorted[n]);
    }
    LeftOutFollows(c, k, s, sorted);
  }
}
