/** The reveal of a period of controlled-fault requests, checked against the commitment the rule set fixed, and the
    requests its seed draws that it does not list. */
module FaultReveal {
  import opened Wrappers
  import opened SeasonRules
  import opened JobStates
  import opened Ordering

  type byte = x: int | 0 <= x < 256
  type Bytes = seq<byte>

  const FAULT_CLASSES := ["incoherent_answer", "plausible_false_fact", "no_reveal"]
  const FAULT_DOC_VERSION := 1

  datatype Trap = Trap(minerId: string, address: string)

  /** The committed document. */
  datatype Doc = Doc(version: int, fromDay: int, toDay: int, faultBps: int, classes: seq<string>, nonce: string,
                     seedSha: string, traps: seq<Trap>)

  datatype Entry = Entry(jobId: string, minerId: string, cls: string, question: string, answer: string, faulted: bool)

  datatype Reveal = Reveal(version: int, commitment: string, seed: string, faults: seq<Entry>)

  datatype Checked = Checked(document: Doc, seed: Bytes, traps: map<string, string>, faults: map<string, Entry>)

  /** What the check rests on: sha256, UTF-8, and the JSON form of a document; `Parse` gives nothing for bytes that are
      not a JSON document with exactly its keys, each of its type. */
  datatype Codecs = Codecs(sha256: Bytes -> Bytes, utf8: string -> Bytes, parse: Bytes -> Option<Doc>,
                           canonical: Doc -> Bytes)

  ghost predicate Sound(c: Codecs) { forall b: Bytes :: |c.sha256(b)| == 32 }

  // ---------------------------------------------------------------- the draw

  function HexDigit(n: int): char
    requires 0 <= n < 16
  {
    "0123456789abcdef"[n]
  }

  function Hex(b: Bytes): string {
    if b == [] then [] else [HexDigit(b[0] / 16), HexDigit(b[0] % 16)] + Hex(b[1..])
  }

  function HexValue(c: char): int { if '0' <= c <= '9' then c as int - '0' as int else c as int - 'a' as int + 10 }

  predicate HexChar(c: char) { '0' <= c <= '9' || 'a' <= c <= 'f' }

  predicate IsHex(s: string) { forall i | 0 <= i < |s| :: HexChar(s[i]) }

  function FromHex(s: string): Bytes
    requires IsHex(s)
  {
    if |s| < 2 then [] else [HexValue(s[0]) * 16 + HexValue(s[1])] + FromHex(s[2..])
  }

  /** A hexadecimal name stands for one sequence of bytes. */
  lemma {:induction false} HexRoundTrip(b: Bytes)
    ensures IsHex(Hex(b)) && FromHex(Hex(b)) == b
  {
    if b != [] {
      HexRoundTrip(b[1..]);
      HexNibble(b[0] / 16);
      HexNibble(b[0] % 16);
      assert Hex(b)[2..] == Hex(b[1..]);
      assert b == [b[0]] + b[1..];
    }
  }

  lemma {:induction false} HexNibble(n: int)
    requires 0 <= n < 16
    ensures HexChar(HexDigit(n)) && HexValue(HexDigit(n)) == n
  {
  }

  function BigEndian(b: Bytes): nat { if b == [] then 0 else BigEndian(b[..|b| - 1]) * 256 + b[|b| - 1] }

  /** The class the seed draws for a request, or none when it is served honestly. */
  function FaultDraw(c: Codecs, seed: Bytes, jobId: string, bps: int, classes: seq<string>): Option<string>
    requires Sound(c) && classes != []
  {
    var d := c.sha256(seed + c.utf8(jobId));
    if BigEndian(d[0..8]) % 10_000 >= bps then None
    else Some(classes[BigEndian(d[8..16]) % |classes|])
  }

  // ---------------------------------------------------------------- the document and the reveal

  predicate Alnum(c: char) { '0' <= c <= '9' || 'a' <= c <= 'z' || 'A' <= c <= 'Z' }

  predicate IsMinerId(s: string) {
    1 <= |s| <= 64 && Alnum(s[0]) && forall i | 1 <= i < |s| :: Alnum(s[i]) || s[i] in "_.-"
  }

  predicate IsJobId(s: string) { 1 <= |s| <= 128 && forall i | 0 <= i < |s| :: Alnum(s[i]) || s[i] in "_.:-" }

  predicate TrapOk(t: Trap, prev: string) {
    IsMinerId(t.minerId) && IsPayer(t.address) && !StringLe(t.minerId, prev)
  }

  /** The identity at `i` is well formed and comes after the one before it. */
  predicate TrapFits(ts: seq<Trap>, i: nat)
    requires i < |ts|
  {
    TrapOk(ts[i], if i == 0 then "" else ts[i - 1].minerId)
  }

  /** The identities are well formed and in strictly increasing order. */
  predicate TrapsOk(ts: seq<Trap>) {
    ts != [] && forall i | 0 <= i < |ts| :: TrapFits(ts, i)
  }

  function Keep(all: seq<string>, some: seq<string>): seq<string> {
    if all == [] then [] else (if all[0] in some then [all[0]] else []) + Keep(all[1..], some)
  }

  /** A list of known classes, at least one, each once, in their own order. */
  predicate ClassesOk(classes: seq<string>) {
    classes != [] && Distinct(classes) && classes == Keep(FAULT_CLASSES, classes)
  }

  predicate DocOk(p: Period, d: Doc) {
    && d.version == FAULT_DOC_VERSION && d.fromDay == p.fromDay && d.toDay == p.toDay
    && 0 < d.faultBps <= 10_000 && ClassesOk(d.classes) && IsHex64(d.seedSha) && IsHex64(d.nonce) && TrapsOk(d.traps)
  }

  function TrapMap(ts: seq<Trap>): map<string, string> {
    if ts == [] then map[] else TrapMap(ts[..|ts| - 1])[ts[|ts| - 1].minerId := ts[|ts| - 1].address]
  }

  ghost predicate EntryOk(c: Codecs, d: Doc, seed: Bytes, e: Entry)
    requires Sound(c) && d.classes != []
  {
    && IsJobId(e.jobId) && e.minerId in TrapMap(d.traps) && e.cls in d.classes
    && FaultDraw(c, seed, e.jobId, d.faultBps, d.classes) == Some(e.cls)
  }

  /** Every entry is a committed identity's, in the class its seed draws, and no job is listed twice. */
  ghost predicate EntriesOk(c: Codecs, d: Doc, seed: Bytes, es: seq<Entry>)
    requires Sound(c) && d.classes != []
  {
    && (forall i | 0 <= i < |es| :: EntryOk(c, d, seed, es[i]))
    && (forall i, j | 0 <= i < j < |es| :: es[i].jobId != es[j].jobId)
  }

  lemma {:induction false} Hex64IsHex(s: string)
    requires IsHex64(s)
    ensures IsHex(s)
  {
    forall i | 0 <= i < |s| ensures HexChar(s[i]) { assert s[i] in s; }
  }

  /** The commitment, the document and the seed hold together. */
  ghost predicate Opens(c: Codecs, p: Period, doc: Bytes, r: Reveal) {
    && Hex(c.sha256(doc)) == p.commitment
    && c.parse(doc).Some? && c.canonical(c.parse(doc).value) == doc && DocOk(p, c.parse(doc).value)
    && r.version == FAULT_DOC_VERSION && r.commitment == p.commitment && IsHex64(r.seed) && IsHex(r.seed)
    && Hex(c.sha256(FromHex(r.seed))) == c.parse(doc).value.seedSha
  }

  /** The reveal is the one the period committed: every entry a committed identity's, in the class its seed draws. */
  ghost predicate Acceptable(c: Codecs, p: Period, doc: Bytes, r: Reveal)
    requires Sound(c)
  {
    Opens(c, p, doc, r) && EntriesOk(c, c.parse(doc).value, FromHex(r.seed), r.faults)
  }

  function FaultMap(es: seq<Entry>): map<string, Entry> {
    if es == [] then map[] else FaultMap(es[..|es| - 1])[es[|es| - 1].jobId := es[|es| - 1]]
  }

  ghost function CheckedOf(c: Codecs, doc: Bytes, r: Reveal): Checked
    requires c.parse(doc).Some? && IsHex(r.seed)
  {
    Checked(c.parse(doc).value, FromHex(r.seed), TrapMap(c.parse(doc).value.traps), FaultMap(r.faults))
  }

  method CheckTraps(ts: seq<Trap>) returns (r: Result<map<string, string>>)
    ensures r == if TrapsOk(ts) then Ok(TrapMap(ts)) else Refused
  {
    hide TrapOk;
    if ts == [] {
      return Refused;
    }
    var traps, prev: string := map[], "";
    for n := 0 to |ts|
      invariant forall i | 0 <= i < n :: TrapFits(ts, i)
      invariant traps == TrapMap(ts[..n]) && prev == if n == 0 then "" else ts[n - 1].minerId
    {
      assert TrapFits(ts, n) <==> TrapOk(ts[n], prev);
      if !TrapOk(ts[n], prev) {
        return Refused;
      }
      assert ts[..n + 1][..n] == ts[..n];
      traps, prev := traps[ts[n].minerId := ts[n].address], ts[n].minerId;
    }
    assert ts[..|ts|] == ts;
    return Ok(traps);
  }

  /** The dictionary of the entries holds each of them under its job, and nothing else. */
  lemma {:induction false} FaultMapHolds(es: seq<Entry>, id: string)
    requires forall i, j | 0 <= i < j < |es| :: es[i].jobId != es[j].jobId
    ensures id in FaultMap(es) <==> exists i | 0 <= i < |es| :: es[i].jobId == id
    ensures forall i | 0 <= i < |es| && es[i].jobId == id :: id in FaultMap(es) && FaultMap(es)[id] == es[i]
  {
    if es != [] {
      var pre, last := es[..|es| - 1], es[|es| - 1];
      FaultMapHolds(pre, id);
      assert forall i | 0 <= i < |pre| :: pre[i] == es[i];
      if last.jobId != id && id in FaultMap(pre) {
        var i :| 0 <= i < |pre| && pre[i].jobId == id;
        assert es[i].jobId == id;
      }
    }
  }

  lemma {:induction false} EntriesNext(c: Codecs, d: Doc, seed: Bytes, es: seq<Entry>, n: nat)
    requires Sound(c) && d.classes != [] && n < |es| && EntriesOk(c, d, seed, es[..n])
    ensures EntriesOk(c, d, seed, es[..n + 1]) <==> EntryOk(c, d, seed, es[n]) && es[n].jobId !in FaultMap(es[..n])
  {
    hide EntryOk;
    FaultMapHolds(es[..n], es[n].jobId);
    hide FaultMap;
    var pre, all := es[..n], es[..n + 1];
    assert forall i | 0 <= i < n :: pre[i] == all[i];
    assert all[n] == es[n];
  }

  lemma {:induction false} EntriesShrink(c: Codecs, d: Doc, seed: Bytes, es: seq<Entry>, n: nat)
    requires Sound(c) && d.classes != [] && n <= |es| && EntriesOk(c, d, seed, es)
    ensures EntriesOk(c, d, seed, es[..n])
  {
    hide EntryOk;
  }

  /** The entries of the reveal, one by one. */
  method CheckEntries(c: Codecs, d: Doc, seed: Bytes, traps: map<string, string>, es: seq<Entry>)
      returns (r: Result<map<string, Entry>>)
    requires Sound(c) && d.classes != [] && traps == TrapMap(d.traps)
    ensures r.Ok? <==> EntriesOk(c, d, seed, es)
    ensures r.Ok? ==> r.value == FaultMap(es)
  {
    hide IsJobId, FaultDraw, EntriesOk;
    var faults: map<string, Entry> := map[];
    NoEntries(c, d, seed, es);
    for n := 0 to |es|
      invariant EntriesOk(c, d, seed, es[..n]) && faults == FaultMap(es[..n])
    {
      var e := es[n];
      EntriesNext(c, d, seed, es, n);
      var ok := IsJobId(e.jobId) && e.jobId !in faults && e.minerId in traps && e.cls in d.classes
                && FaultDraw(c, seed, e.jobId, d.faultBps, d.classes) == Some(e.cls);
      if !ok {
        if EntriesOk(c, d, seed, es) { EntriesShrink(c, d, seed, es, n + 1); }
        return Refused;
      }
      assert es[..n + 1][..n] == es[..n];
      faults := faults[e.jobId := e];
    }
    assert es[..|es|] == es;
    return Ok(faults);
  }

  lemma {:induction false} NoEntries(c: Codecs, d: Doc, seed: Bytes, es: seq<Entry>)
    requires Sound(c) && d.classes != []
    ensures EntriesOk(c, d, seed, es[..0]) && FaultMap(es[..0]) == map[]
  {
  }

  /** Checks the reveal of a period: accepted exactly when it is the one committed, and then given as it was read. */
  method CheckFaultReveal(c: Codecs, p: Period, doc: Bytes, shown: Reveal) returns (r: Result<Checked>)
    requires Sound(c)
    ensures r.Ok? <==> Acceptable(c, p, doc, shown)
    ensures r.Ok? ==> r.value == CheckedOf(c, doc, shown)
  {
    hide EntriesOk, TrapsOk, ClassesOk, FaultMap, TrapMap, IsHex64;
    if Hex(c.sha256(doc)) != p.commitment {
      return Refused;
    }
    var parsed := c.parse(doc);
    if parsed.None? || c.canonical(parsed.value) != doc {
      return Refused;
    }
    var d := parsed.value;
    if d.version != FAULT_DOC_VERSION || d.fromDay != p.fromDay || d.toDay != p.toDay {
      return Refused;
    }
    if !(0 < d.faultBps <= 10_000) || !ClassesOk(d.classes) || !IsHex64(d.seedSha) || !IsHex64(d.nonce) {
      return Refused;
    }
    var traps := CheckTraps(d.traps);
    if traps.Refused? || shown.version != FAULT_DOC_VERSION || shown.commitment != p.commitment ||
      !IsHex64(shown.seed) {
      return Refused;
    }
    Hex64IsHex(shown.seed);
    if Hex(c.sha256(FromHex(shown.seed))) != d.seedSha {
      return Refused;
    }
    ClassesSome(d.classes);
    var faults := CheckEntries(c, d, FromHex(shown.seed), traps.value, shown.faults);
    if faults.Refused? {
      return Refused;
    }
    return Ok(Checked(d, FromHex(shown.seed), traps.value, faults.value));
  }

  lemma {:induction false} ClassesSome(classes: seq<string>)
    requires ClassesOk(classes)
    ensures classes != []
  {
  }

  // ---------------------------------------------------------------- drawn and not listed

  datatype Missing = Missing(jobId: string, minerId: string, cls: string)

  /** The blocks and the programme a reveal is checked over. */
  datatype Scope = Scope(settle: map<string, int>, generator: string, first: int, last: int)

  predicate InScope(s: Scope, traps: map<string, string>, j: Job) {
    j.client == s.generator && j.minerId in traps && j.id in s.settle && s.first <= s.settle[j.id] <= s.last
  }

  function DrawnFor(c: Codecs, k: Checked, id: string): Option<string>
    requires Sound(c) && k.document.classes != []
  {
    FaultDraw(c, k.seed, id, k.document.faultBps, k.document.classes)
  }

  predicate LeftOut(c: Codecs, k: Checked, s: Scope, j: Job)
    requires Sound(c) && k.document.classes != []
  {
    InScope(s, k.traps, j) && DrawnFor(c, k, j.id).Some? && j.id !in k.faults
  }

  function ByJob(): (Job, Job) -> bool { (a: Job, b: Job) => StringLe(a.id, b.id) }

  function LeftOutOf(c: Codecs, k: Checked, s: Scope, jobs: seq<Job>): seq<Missing>
    requires Sound(c) && k.document.classes != []
  {
    if jobs == [] then []
    else
      var pre, j := LeftOutOf(c, k, s, jobs[..|jobs| - 1]), jobs[|jobs| - 1];
      if LeftOut(c, k, s, j) then pre + [Missing(j.id, j.minerId, DrawnFor(c, k, j.id).value)] else pre
  }

  /** The drawn requests the reveal leaves out, in the order of their ids. */
  method DrawnNotListed(c: Codecs, k: Checked, jobs: seq<Job>, s: Scope) returns (out: seq<Missing>)
    requires Sound(c) && k.document.classes != []
    ensures out == LeftOutOf(c, k, s, Sort(jobs, ByJob()))
    ensures out == [] <==> Complete(c, k, s, jobs)
  {
    hide InScope, DrawnFor, Complete, Sort;
    out := [];
    var sorted := Sort(jobs, ByJob());
    for n := 0 to |sorted|
      invariant out == LeftOutOf(c, k, s, sorted[..n])
    {
      var j := sorted[n];
      assert sorted[..n + 1][..n] == sorted[..n];
      if InScope(s, k.traps, j) {
        var cls := DrawnFor(c, k, j.id);
        if cls.Some? && j.id !in k.faults {
          out := out + [Missing(j.id, j.minerId, cls.value)];
        }
      }
    }
    assert sorted[..|sorted|] == sorted;
    NothingLeftOut(c, k, s, sorted);
    SortedComplete(c, k, s, jobs);
  }

  /** The reveal lists every drawn request of the committed identities in the scope. */
  ghost predicate Complete(c: Codecs, k: Checked, s: Scope, jobs: seq<Job>)
    requires Sound(c) && k.document.classes != []
  {
    forall j | j in jobs :: InScope(s, k.traps, j) && DrawnFor(c, k, j.id).Some? ==> j.id in k.faults
  }

  lemma {:induction false} NothingLeftOut(c: Codecs, k: Checked, s: Scope, jobs: seq<Job>)
    requires Sound(c) && k.document.classes != []
    ensures LeftOutOf(c, k, s, jobs) == [] <==> Complete(c, k, s, jobs)
  {
    hide InScope, DrawnFor;
    if jobs != [] {
      var pre, j := jobs[..|jobs| - 1], jobs[|jobs| - 1];
      NothingLeftOut(c, k, s, pre);
      assert j in jobs;
      assert forall x :: x in jobs <==> x in pre || x == j;
    }
  }

  lemma {:induction false} SortedComplete(c: Codecs, k: Checked, s: Scope, jobs: seq<Job>)
    requires Sound(c) && k.document.classes != []
    ensures Complete(c, k, s, Sort(jobs, ByJob())) <==> Complete(c, k, s, jobs)
  {
    hide InScope, DrawnFor;
    SortPermutes(jobs, ByJob());
    forall j ensures j in Sort(jobs, ByJob()) <==> j in jobs {
      assert j in multiset(Sort(jobs, ByJob())) <==> j in multiset(jobs);
    }
  }

  // ---------------------------------------------------------------- what an accepted reveal says

  lemma {:induction false} ListedIsDrawn(c: Codecs, p: Period, doc: Bytes, r: Reveal, id: string)
    requires Sound(c) && Acceptable(c, p, doc, r) && id in CheckedOf(c, doc, r).faults
    ensures var k := CheckedOf(c, doc, r);
            k.document.classes != [] && DrawnFor(c, k, id) == Some(k.faults[id].cls) && k.faults[id].minerId in k.traps
  {
    FaultMapHolds(r.faults, id);
    hide FaultMap, Opens, IsJobId, FaultDraw;
    var i :| 0 <= i < |r.faults| && r.faults[i].jobId == id;
    assert EntryOk(c, c.parse(doc).value, FromHex(r.seed), r.faults[i]);
  }

  /** Main result: an accepted reveal that leaves nothing out lists exactly the drawn requests of the committed
      identities in the scope, each in its drawn class. */
  lemma {:induction false} ListsExactlyTheDrawn(c: Codecs, p: Period, doc: Bytes, r: Reveal, jobs: seq<Job>, s: Scope,
                                                j: Job)
    requires Sound(c) && Acceptable(c, p, doc, r)
    requires Complete(c, CheckedOf(c, doc, r), s, jobs) && j in jobs && InScope(s, CheckedOf(c, doc, r).traps, j)
    ensures var k := CheckedOf(c, doc, r);
            && (j.id in k.faults <==> DrawnFor(c, k, j.id).Some?)
            && (j.id in k.faults ==> DrawnFor(c, k, j.id) == Some(k.faults[j.id].cls))
  {
    hide InScope, DrawnFor;
    if j.id in CheckedOf(c, doc, r).faults { ListedIsDrawn(c, p, doc, r, j.id); }
  }

  /** Two different inputs of sha256 with one digest. */
  predicate Collision(c: Codecs, a: Bytes, b: Bytes) { a != b && c.sha256(a) == c.sha256(b) }

  lemma {:induction false} SameHex(c: Codecs, a: Bytes, b: Bytes)
    requires Hex(c.sha256(a)) == Hex(c.sha256(b))
    ensures a == b || Collision(c, a, b)
  {
    HexRoundTrip(c.sha256(a));
    HexRoundTrip(c.sha256(b));
  }

  /** Main result: two accepted and complete reveals of one commitment list the same requests of the scope, in the same
      classes, unless they exhibit a collision of sha256. */
  lemma {:induction false} RevealsAgree(c: Codecs, p: Period, q: Period, docA: Bytes, docB: Bytes, a: Reveal, b: Reveal,
                     jobs: seq<Job>, s: Scope, j: Job)
    requires Sound(c) && p.commitment == q.commitment && Acceptable(c, p, docA, a) && Acceptable(c, q, docB, b)
    requires Complete(c, CheckedOf(c, docA, a), s, jobs) && Complete(c, CheckedOf(c, docB, b), s, jobs) && j in jobs
    ensures || Collision(c, docA, docB) || Collision(c, FromHex(a.seed), FromHex(b.seed))
            || var k, m := CheckedOf(c, docA, a), CheckedOf(c, docB, b);
               && k.document == m.document && k.seed == m.seed && k.traps == m.traps
               && (InScope(s, k.traps, j) ==> (j.id in k.faults <==> j.id in m.faults))
               && (j.id in k.faults && j.id in m.faults ==> k.faults[j.id].cls == m.faults[j.id].cls)
  {
    SameHex(c, docA, docB);
    if docA == docB { SameHex(c, FromHex(a.seed), FromHex(b.seed)); }
    if docA == docB && FromHex(a.seed) == FromHex(b.seed) {
      hide Acceptable, InScope, DrawnFor, Complete;
      var k, m := CheckedOf(c, docA, a), CheckedOf(c, docB, b);
      if InScope(s, k.traps, j) {
        ListsExactlyTheDrawn(c, p, docA, a, jobs, s, j);
        ListsExactlyTheDrawn(c, q, docB, b, jobs, s, j);
      }
      if j.id in k.faults && j.id in m.faults {
        ListedIsDrawn(c, p, docA, a, j.id);
        ListedIsDrawn(c, q, docB, b, j.id);
        SameDraw(c, k, m, j.id);
      }
    }
  }

  lemma {:induction false} SameDraw(c: Codecs, k: Checked, m: Checked, id: string)
    requires Sound(c) && k.document == m.document && k.seed == m.seed && k.document.classes != []
    ensures DrawnFor(c, k, id) == DrawnFor(c, m, id)
  {
  }

  /** What the commitment does not bind: whether a drawn request was faulted, and its words. Any of them can be changed
      in an accepted reveal. */
  lemma {:induction false} FlagsAreNotBound(c: Codecs, p: Period, doc: Bytes, r: Reveal, i: nat, question: string,
                                            answer: string, faulted: bool)
    requires Sound(c) && Acceptable(c, p, doc, r) && i < |r.faults|
    ensures var e := r.faults[i].(question := question, answer := answer, faulted := faulted);
            Acceptable(c, p, doc, r.(faults := r.faults[i := e]))
  {
    hide FaultDraw, IsJobId, DocOk;
    var e := r.faults[i].(question := question, answer := answer, faulted := faulted);
    assert EntryOk(c, c.parse(doc).value, FromHex(r.seed), r.faults[i]);
    assert EntryOk(c, c.parse(doc).value, FromHex(r.seed), e);
  }
}
