/** The evidence log: one append-only file of lines per day, written under a crash that may stop the append at
    any byte, and read back as the records it holds plus a marker for the lines it cannot read. */
module Evidence {

  /** The encoder writes ASCII only, so a byte of the file is one character. */
  type Byte = char

  const NEWLINE: Byte := '\n'

  /** What one line reads as once stripped: nothing, a record, or no record. */
  datatype LineRead<T> = Blank | Good(rec: T) | Bad

  /** The encoder and the parser of a line. They stand for `json.dumps` and `json.loads`. */
  datatype Codec<!T> = Codec(encode: T -> seq<Byte>, parse: seq<Byte> -> LineRead<T>)

  /** What the append and the read need of the encoding of an object: one line, read back whole, and a
      beginning of it is not a record. */
  ghost predicate SoundAt<T>(c: Codec<T>, r: T) {
    var e := c.encode(r);
    && e != [] && NEWLINE !in e && c.parse(e) == Good(r)
    && (forall k: int | 0 < k < |e| :: c.parse(e[..k]).Bad?)
  }

  ghost predicate Sound<T(!new)>(c: Codec<T>) {
    && c.parse([]).Blank?
    && (forall r: T :: SoundAt(c, r))
  }

  /** A line of the file as `read` returns it. */
  datatype Line<T> = Known(rec: T) | UnreadableLines(day: int, count: nat)

  // ---------------------------------------------------------------- the bytes

  predicate Open(f: seq<Byte>) { f != [] && f[|f| - 1] != NEWLINE }

  /** What an append of the line `e` writes: a torn last line is closed first. */
  function Payload(f: seq<Byte>, e: seq<Byte>): seq<Byte> {
    (if Open(f) then [NEWLINE] else []) + e + [NEWLINE]
  }

  function WrittenBytes(f: seq<Byte>, e: seq<Byte>, n: nat): seq<Byte> {
    var p := Payload(f, e);
    f + if n <= |p| then p[..n] else p
  }

  /** Bytes of the line itself that reached the file. */
  function Reached(f: seq<Byte>, e: seq<Byte>, n: nat): (k: nat)
    ensures k <= |e|
  {
    var k := n - (if Open(f) then 1 else 0);
    if k < 0 then 0 else if k > |e| then |e| else k
  }

  /** An append that stopped after `bytes` bytes, or ran to its end. */
  datatype Attempt<T> = Attempt(rec: T, bytes: nat)

  function FileOf<T>(c: Codec<T>, attempts: seq<Attempt<T>>): seq<Byte> {
    if attempts == [] then []
    else
      var a := attempts[|attempts| - 1];
      WrittenBytes(FileOf(c, attempts[..|attempts| - 1]), c.encode(a.rec), a.bytes)
  }

  datatype Status = Completed | Torn | Nothing

  function StatusOf<T>(c: Codec<T>, f: seq<Byte>, a: Attempt<T>): Status {
    var e := c.encode(a.rec);
    var k := Reached(f, e, a.bytes);
    if k == |e| then Completed else if k > 0 then Torn else Nothing
  }

  function Statuses<T>(c: Codec<T>, attempts: seq<Attempt<T>>): (r: seq<Status>)
    ensures |r| == |attempts|
  {
    if attempts == [] then []
    else
      var pre := attempts[..|attempts| - 1];
      Statuses(c, pre) + [StatusOf(c, FileOf(c, pre), attempts[|attempts| - 1])]
  }

  // ---------------------------------------------------------------- reading

  /** The lines closed so far and the bytes since the last newline. */
  datatype Split = Split(closed: seq<seq<Byte>>, rest: seq<Byte>)

  function SplitLines(f: seq<Byte>): (r: Split)
    ensures r.rest != [] <==> Open(f)
  {
    if f == [] then Split([], [])
    else
      var s, b := SplitLines(f[..|f| - 1]), f[|f| - 1];
      if b == NEWLINE then Split(s.closed + [s.rest], []) else Split(s.closed, s.rest + [b])
  }

  /** The lines a text file iterates over; what follows the last newline is a line when it is not empty. */
  function LinesOf(f: seq<Byte>): seq<seq<Byte>> {
    var s := SplitLines(f);
    if s.rest == [] then s.closed else s.closed + [s.rest]
  }

  function Records<T>(c: Codec<T>, lines: seq<seq<Byte>>): seq<T> {
    if lines == [] then []
    else Records(c, lines[..|lines| - 1]) +
         (match c.parse(lines[|lines| - 1]) case Good(r) => [r] case _ => [])
  }

  function BadLines<T>(c: Codec<T>, lines: seq<seq<Byte>>): nat {
    if lines == [] then 0
    else BadLines(c, lines[..|lines| - 1]) + (if c.parse(lines[|lines| - 1]).Bad? then 1 else 0)
  }

  function KnownLines<T>(recs: seq<T>): seq<Line<T>> {
    seq(|recs|, i requires 0 <= i < |recs| => Known(recs[i]))
  }

  /** The records of a day in file order, then the marker when a line could not be read. */
  function ReadBack<T>(day: int, recs: seq<T>, bad: nat): seq<Line<T>> {
    KnownLines(recs) + (if bad > 0 then [UnreadableLines(day, bad)] else [])
  }

  // ---------------------------------------------------------------- what a crash leaves

  function CompletedRecords<T>(attempts: seq<Attempt<T>>, st: seq<Status>): seq<T>
    requires |st| == |attempts|
  {
    if attempts == [] then []
    else
      var n := |attempts| - 1;
      CompletedRecords(attempts[..n], st[..n]) + (if st[n].Completed? then [attempts[n].rec] else [])
  }

  function TornCount(st: seq<Status>): nat {
    if st == [] then 0 else TornCount(st[..|st| - 1]) + (if st[|st| - 1].Torn? then 1 else 0)
  }

  lemma {:induction false} SplitByte(f: seq<Byte>, b: Byte)
    ensures SplitLines(f + [b]) ==
            var s := SplitLines(f);
            if b == NEWLINE then Split(s.closed + [s.rest], []) else Split(s.closed, s.rest + [b])
  {
    assert (f + [b])[..|f + [b]| - 1] == f;
  }

  lemma {:induction false} SnocAssoc(f: seq<Byte>, e: seq<Byte>, b: Byte)
    ensures f + (e + [b]) == (f + e) + [b]
  {
  }

  lemma {:induction false} SplitText(f: seq<Byte>, e: seq<Byte>)
    requires NEWLINE !in e
    ensures SplitLines(f + e).closed == SplitLines(f).closed
    ensures SplitLines(f + e).rest == SplitLines(f).rest + e
  {
    if e == [] {
      assert f + e == f;
    } else {
      var pre, b := e[..|e| - 1], e[|e| - 1];
      assert pre + [b] == e;
      SplitText(f, pre);
      SnocAssoc(f, pre, b);
      SplitByte(f + pre, b);
      SnocAssoc(SplitLines(f).rest, pre, b);
    }
  }

  /** Text after a closed line is a line of its own. */
  lemma {:induction false} LinesAfterClosed(f: seq<Byte>, e: seq<Byte>)
    requires !Open(f) && e != [] && NEWLINE !in e
    ensures LinesOf(f + e) == LinesOf(f) + [e] && Open(f + e)
  {
    SplitText(f, e);
    assert SplitLines(f).rest == [];
    assert SplitLines(f).rest + e == e;
  }

  /** Closing a torn or complete last line changes no line. */
  lemma {:induction false} LinesClosing(f: seq<Byte>)
    requires Open(f)
    ensures LinesOf(f + [NEWLINE]) == LinesOf(f) && !Open(f + [NEWLINE])
  {
    SplitByte(f, NEWLINE);
  }

  /** The file with its torn last line, if any, closed. */
  function Closed(f: seq<Byte>): seq<Byte> { if Open(f) then f + [NEWLINE] else f }

  /** The bytes an append adds before its record: the newline that closes a torn line, or none. */
  function Opening(f: seq<Byte>): seq<Byte> { if Open(f) then [NEWLINE] else [] }

  lemma {:induction false} PayloadParts(f: seq<Byte>, e: seq<Byte>)
    ensures Payload(f, e) == Opening(f) + e + [NEWLINE] && Closed(f) == f + Opening(f)
  {
  }

  lemma {:induction false} CutBefore(a: seq<Byte>, e: seq<Byte>, n: nat)
    requires n <= |a|
    ensures (a + e + [NEWLINE])[..n] == a[..n]
  {
  }

  lemma {:induction false} CutInside(a: seq<Byte>, e: seq<Byte>, n: nat)
    requires |a| <= n <= |a| + |e|
    ensures (a + e + [NEWLINE])[..n] == a + e[..n - |a|]
  {
  }

  /** The append stopped before its record. */
  lemma {:induction false} WrittenNothing(f: seq<Byte>, e: seq<Byte>, n: nat)
    requires n <= |Opening(f)|
    ensures Reached(f, e, n) == 0 && (WrittenBytes(f, e, n) == f || WrittenBytes(f, e, n) == Closed(f))
  {
    PayloadParts(f, e);
    CutBefore(Opening(f), e, n);
    hide Payload;
    assert n == 0 ==> f + Opening(f)[..0] == f;
    assert n == |Opening(f)| ==> Opening(f)[..n] == Opening(f);
  }

  /** The append stopped in its record, or before the newline that ends it. */
  lemma {:induction false} WrittenPart(f: seq<Byte>, e: seq<Byte>, n: nat)
    requires |Opening(f)| < n <= |Opening(f)| + |e|
    ensures Reached(f, e, n) == n - |Opening(f)| && WrittenBytes(f, e, n) == Closed(f) + e[..Reached(f, e, n)]
  {
    PayloadParts(f, e);
    CutInside(Opening(f), e, n);
    var k := n - |Opening(f)|;
    hide Payload, Closed;
    assert f + (Opening(f) + e[..k]) == (f + Opening(f)) + e[..k];
  }

  /** The append ran to its end. */
  lemma {:induction false} WrittenWhole(f: seq<Byte>, e: seq<Byte>, n: nat)
    requires n > |Opening(f)| + |e|
    ensures Reached(f, e, n) == |e| && WrittenBytes(f, e, n) == (Closed(f) + e) + [NEWLINE]
  {
    PayloadParts(f, e);
    var p := Opening(f) + e + [NEWLINE];
    hide Payload, Closed;
    assert p[..|p|] == p;
    assert f + p == ((f + Opening(f)) + e) + [NEWLINE];
  }

  lemma {:induction false} WrittenShape(f: seq<Byte>, e: seq<Byte>, n: nat)
    requires e != []
    ensures var k, w := Reached(f, e, n), WrittenBytes(f, e, n);
            if k == 0 then w == f || w == Closed(f)
            else w == Closed(f) + e[..k] || w == (Closed(f) + e[..k]) + [NEWLINE]
  {
    hide WrittenBytes, Closed, Reached;
    if n <= |Opening(f)| {
      WrittenNothing(f, e, n);
    } else if n <= |Opening(f)| + |e| {
      WrittenPart(f, e, n);
    } else {
      WrittenWhole(f, e, n);
      assert e[..|e|] == e;
    }
  }

  /** One append, stopped anywhere: the lines of the file are those it had and at most one more, the part of
      the record that reached it. */
  lemma {:induction false} AppendLines(f: seq<Byte>, e: seq<Byte>, n: nat)
    requires e != [] && NEWLINE !in e
    ensures var k := Reached(f, e, n);
            LinesOf(WrittenBytes(f, e, n)) == if k == 0 then LinesOf(f) else LinesOf(f) + [e[..k]]
  {
    WrittenShape(f, e, n);
    var k := Reached(f, e, n);
    if Open(f) { LinesClosing(f); }
    if k > 0 {
      LinesAfterClosed(Closed(f), e[..k]);
      LinesClosing(Closed(f) + e[..k]);
    }
  }

  lemma {:induction false} StepRecords<T>(c: Codec<T>, lines: seq<seq<Byte>>, more: seq<Byte>)
    ensures Records(c, lines + [more]) == Records(c, lines) + (match c.parse(more) case Good(r) => [r] case _ => [])
    ensures BadLines(c, lines + [more]) == BadLines(c, lines) + (if c.parse(more).Bad? then 1 else 0)
  {
    assert (lines + [more])[..|lines + [more]| - 1] == lines;
  }

  /** What one append adds to a read, by how far it went. */
  lemma {:induction false} AppendReads<T>(c: Codec<T>, f: seq<Byte>, a: Attempt<T>)
    requires SoundAt(c, a.rec)
    ensures var st, lines := StatusOf(c, f, a), LinesOf(WrittenBytes(f, c.encode(a.rec), a.bytes));
            && Records(c, lines) == Records(c, LinesOf(f)) + (if st.Completed? then [a.rec] else [])
            && BadLines(c, lines) == BadLines(c, LinesOf(f)) + (if st.Torn? then 1 else 0)
  {
    var e := c.encode(a.rec);
    AppendLines(f, e, a.bytes);
    assert e[..|e|] == e;
    StepRecords(c, LinesOf(f), e[..Reached(f, e, a.bytes)]);
  }

  /** Main result: whatever the attempts and wherever each stopped, a read of the file gives exactly the records
      that reached it whole, in order, and counts exactly the ones that reached it in part. */
  lemma {:induction false} CrashLeavesCompleted<T(!new)>(c: Codec<T>, attempts: seq<Attempt<T>>)
    requires Sound(c)
    ensures Records(c, LinesOf(FileOf(c, attempts))) == CompletedRecords(attempts, Statuses(c, attempts))
    ensures BadLines(c, LinesOf(FileOf(c, attempts))) == TornCount(Statuses(c, attempts))
  {
    if attempts != [] {
      var n := |attempts| - 1;
      CrashLeavesCompleted(c, attempts[..n]);
      AppendReads(c, FileOf(c, attempts[..n]), attempts[n]);
      assert Statuses(c, attempts)[..n] == Statuses(c, attempts[..n]);
    }
  }

  /** Records that are lists of flags, framed by braces: the least codec the rules above admit. */
  function FlagsCodec(): Codec<seq<bool>> {
    Codec((r: seq<bool>) => "{" + seq(|r|, i requires 0 <= i < |r| => if r[i] then '1' else '0') + "}",
          (l: seq<Byte>) =>
            if l == [] then Blank
            else if |l| >= 2 && l[0] == '{' && l[|l| - 1] == '}' && forall i | 1 <= i < |l| - 1 :: l[i] in "01"
            then Good(seq(|l| - 2, i requires 0 <= i < |l| - 2 => l[i + 1] == '1'))
            else Bad)
  }

  /** The rules asked of an encoding can be met. */
  lemma {:induction false} FlagsCodecSound()
    ensures Sound(FlagsCodec())
  {
    var c := FlagsCodec();
    forall r: seq<bool> ensures SoundAt(c, r) {
      var e := c.encode(r);
      assert forall i | 1 <= i < |e| - 1 :: e[i] in "01";
      assert c.parse(e).Good? && c.parse(e).rec == r;
      forall k: int | 0 < k < |e| ensures c.parse(e[..k]).Bad? {
        assert e[..k][k - 1] == e[k - 1];
      }
    }
  }

  class DayFile<T> {
    const codec: Codec<T>
    var bytes: seq<Byte>

    constructor (codec: Codec<T>)
      ensures this.codec == codec && bytes == []
    {
      this.codec := codec;
      bytes := [];
    }

    /** Appends a record, or the first `budget` bytes of what the append writes when the process dies there. */
    method Append(rec: T, budget: nat)
      modifies this
      ensures bytes == WrittenBytes(old(bytes), codec.encode(rec), budget)
    {
      var out: seq<Byte> := [];
      if |bytes| > 0 {
        if bytes[|bytes| - 1] != NEWLINE {
          out := out + [NEWLINE];
        }
      }
      out := out + (codec.encode)(rec) + [NEWLINE];
      assert out == Payload(bytes, (codec.encode)(rec));
      bytes := bytes + if budget <= |out| then out[..budget] else out;
    }

    /** The records of the day, unreadable lines skipped and said. */
    method Read(day: int) returns (out: seq<Line<T>>)
      ensures var lines := LinesOf(bytes);
              out == ReadBack(day, Records(codec, lines), BadLines(codec, lines))
    {
      var lines := LinesOf(bytes);
      var bad := 0;
      out := [];
      for i := 0 to |lines|
        invariant out == KnownLines(Records(codec, lines[..i]))
        invariant bad == BadLines(codec, lines[..i])
      {
        assert lines[..i + 1][..i] == lines[..i];
        match (codec.parse)(lines[i])
        case Blank =>
        case Good(r) => out := out + [Known(r)];
        case Bad => bad := bad + 1;
      }
      assert lines[..|lines|] == lines;
      if bad > 0 {
        out := out + [UnreadableLines(day, bad)];
      }
    }
  }
}
