/** What the counted verdicts mean on the chain: a tally that replays the blocks, transactions first and then the end of
    the block, and what the verdicts paid and the jurors contradicted are in plain terms. */
module VerdictTally {
  import opened Wrappers
  import opened Verdicts

  // ---------------------------------------------------------------- the tally of one audit, replayed

  /** What a transaction does to one audit: a juror commits its verdict, or the audit is adjudicated. */
  datatype Tx = Commit(juror: string, vote: string) | Adjudicate

  /** One block: its transactions in order, and whether the audit's deadline falls at its end. */
  datatype Block = Block(txs: seq<Tx>, deadline: bool)

  /** The verdicts read so far; once closed, those the audit was resolved on. */
  datatype Audit = Audit(open: bool, read: map<string, string>)

  function ReadTx(a: Audit, tx: Tx): Audit {
    if !a.open then a
    else if tx.Adjudicate? then a.(open := false)
    else if tx.juror in a.read then a
    else a.(read := a.read[tx.juror := tx.vote])
  }

  function ReadTxs(a: Audit, txs: seq<Tx>): Audit
    decreases |txs|
  {
    if txs == [] then a else ReadTxs(ReadTx(a, txs[0]), txs[1..])
  }

  function ReadBlock(a: Audit, b: Block): Audit {
    var c := ReadTxs(a, b.txs);
    if b.deadline then c.(open := false) else c
  }

  /** The audit after the first `n` blocks. */
  function Replay(blocks: seq<Block>, n: nat): Audit
    requires n <= |blocks|
  {
    if n == 0 then Audit(true, map[]) else ReadBlock(Replay(blocks, n - 1), blocks[n - 1])
  }

  predicate Has(a: Audit, juror: string, vote: string) { juror in a.read && a.read[juror] == vote }

  predicate Resolves(b: Block) { b.deadline || Adjudicate in b.txs }

  /** The chain committed the juror's verdict in block `h` and nowhere else, and resolved the audit where `r` says for
      the first time. */
  ghost predicate Shows(blocks: seq<Block>, juror: string, vote: string, h: nat, r: Resolution) {
    && h < |blocks| && 0 <= r.height < |blocks|
    && Commit(juror, vote) in blocks[h].txs
    && (forall i, tx | 0 <= i < |blocks| && tx in blocks[i].txs && tx.Commit? && tx.juror == juror ::
          i == h && tx.vote == vote)
    && (forall i | 0 <= i < r.height :: !Resolves(blocks[i]))
    && (if r.where.InTx? then Adjudicate in blocks[r.height].txs
        else Adjudicate !in blocks[r.height].txs && blocks[r.height].deadline)
  }

  lemma {:induction false} KeepsRead(a: Audit, txs: seq<Tx>, juror: string, vote: string)
    requires Has(a, juror, vote)
    ensures Has(ReadTxs(a, txs), juror, vote)
    decreases |txs|
  {
    if txs != [] { KeepsRead(ReadTx(a, txs[0]), txs[1..], juror, vote); }
  }

  lemma {:induction false} StaysOpen(a: Audit, txs: seq<Tx>)
    requires a.open && Adjudicate !in txs
    ensures ReadTxs(a, txs).open
    decreases |txs|
  {
    if txs != [] {
      assert txs[0] in txs;
      StaysOpen(ReadTx(a, txs[0]), txs[1..]);
    }
  }

  lemma {:induction false} ReadsCommit(a: Audit, txs: seq<Tx>, juror: string, vote: string)
    requires a.open && Adjudicate !in txs && Commit(juror, vote) in txs
    requires juror in a.read ==> a.read[juror] == vote
    requires forall tx | tx in txs && tx.Commit? && tx.juror == juror :: tx.vote == vote
    ensures Has(ReadTxs(a, txs), juror, vote)
    decreases |txs|
  {
    assert txs[0] in txs;
    if txs[0] == Commit(juror, vote) {
      KeepsRead(ReadTx(a, txs[0]), txs[1..], juror, vote);
    } else {
      assert Commit(juror, vote) in txs[1..];
      ReadsCommit(ReadTx(a, txs[0]), txs[1..], juror, vote);
    }
  }

  lemma {:induction false} NeverCommitted(a: Audit, txs: seq<Tx>, juror: string)
    requires juror !in a.read && forall tx | tx in txs && tx.Commit? :: tx.juror != juror
    ensures juror !in ReadTxs(a, txs).read
    decreases |txs|
  {
    if txs != [] {
      assert txs[0] in txs;
      NeverCommitted(ReadTx(a, txs[0]), txs[1..], juror);
    }
  }

  lemma {:induction false} ClosedStays(a: Audit, txs: seq<Tx>)
    requires !a.open
    ensures ReadTxs(a, txs) == a
    decreases |txs|
  {
    if txs != [] { ClosedStays(a, txs[1..]); }
  }

  /** Before its first resolution the audit is open, and the juror is not read before its commit. */
  lemma {:induction false} OpenBefore(blocks: seq<Block>, juror: string, vote: string, h: nat, r: Resolution, n: nat)
    requires Shows(blocks, juror, vote, h, r) && n <= r.height
    ensures Replay(blocks, n).open && (n <= h ==> juror !in Replay(blocks, n).read)
  {
    if n > 0 {
      OpenBefore(blocks, juror, vote, h, r, n - 1);
      assert !Resolves(blocks[n - 1]);
      StaysOpen(Replay(blocks, n - 1), blocks[n - 1].txs);
      if n <= h { NeverCommitted(Replay(blocks, n - 1), blocks[n - 1].txs, juror); }
    }
  }

  lemma {:induction false} KeptAfter(blocks: seq<Block>, juror: string, vote: string, m: nat, n: nat)
    requires m <= n <= |blocks| && Has(Replay(blocks, m), juror, vote)
    ensures Has(Replay(blocks, n), juror, vote)
  {
    if m < n {
      KeptAfter(blocks, juror, vote, m, n - 1);
      KeepsRead(Replay(blocks, n - 1), blocks[n - 1].txs, juror, vote);
    }
  }

  /** A verdict that precedes the resolution is read by the tally of every chain that shows the two. */
  lemma {:induction false} PrecedingIsRead(blocks: seq<Block>, juror: string, vote: string, h: nat, r: Resolution)
    requires Shows(blocks, juror, vote, h, r) && Precedes(h, r)
    ensures Has(Replay(blocks, |blocks|), juror, vote)
  {
    OpenBefore(blocks, juror, vote, h, r, h);
    assert Adjudicate !in blocks[h].txs by {
      if h < r.height { assert !Resolves(blocks[h]); }
    }
    ReadsCommit(Replay(blocks, h), blocks[h].txs, juror, vote);
    KeptAfter(blocks, juror, vote, h + 1, |blocks|);
  }

  // ---------------------------------------------------------------- a chain whose tally does not read it

  /** The transactions of the chain: the adjudication first, where it is one. */
  function TxsAt(i: nat, juror: string, vote: string, h: nat, r: Resolution): seq<Tx> {
    (if r.where.InTx? && i == r.height then [Adjudicate] else []) + (if i == h then [Commit(juror, vote)] else [])
  }

  function BlockAt(juror: string, vote: string, h: nat, r: Resolution): nat -> Block {
    (i: nat) => Block(TxsAt(i, juror, vote, h, r), r.where.EndBlock? && i == r.height)
  }

  function LateChain(juror: string, vote: string, h: nat, r: Resolution): seq<Block> {
    seq(h + 1, BlockAt(juror, vote, h, r))
  }

  lemma {:induction false} LateShows(juror: string, vote: string, h: nat, r: Resolution)
    requires 0 <= r.height && !Precedes(h, r)
    ensures Shows(LateChain(juror, vote, h, r), juror, vote, h, r)
  {
    var blocks := LateChain(juror, vote, h, r);
    assert forall i | 0 <= i < |blocks| ::
           blocks[i] == Block(TxsAt(i, juror, vote, h, r), r.where.EndBlock? && i == r.height);
    forall i, tx | 0 <= i < |blocks| && tx in blocks[i].txs && tx.Commit? && tx.juror == juror
      ensures i == h && tx.vote == vote
    {
    }
    assert blocks[h].txs == TxsAt(h, juror, vote, h, r);
  }

  /** The chain has resolved the audit, and read nothing. */
  lemma {:induction false} LateReadsNothing(juror: string, vote: string, h: nat, r: Resolution, n: nat)
    requires 0 <= r.height && !Precedes(h, r) && n <= h + 1
    ensures Replay(LateChain(juror, vote, h, r), n) == Audit(n <= r.height, map[])
  {
    if n > 0 {
      LateReadsNothing(juror, vote, h, r, n - 1);
      var blocks := LateChain(juror, vote, h, r);
      var a, txs := Replay(blocks, n - 1), TxsAt(n - 1, juror, vote, h, r);
      assert blocks[n - 1] == Block(txs, r.where.EndBlock? && n - 1 == r.height);
      if n - 1 > r.height {
        ClosedStays(a, txs);
      } else if n - 1 == r.height && r.where.InTx? {
        assert ReadTx(a, txs[0]) == Audit(false, map[]);
        ClosedStays(Audit(false, map[]), txs[1..]);
      } else {
        assert txs == [];
      }
    }
  }

  /** Main result: a verdict committed in block `h` precedes the resolution exactly when the tally of every chain that
      shows the two has read it. */
  lemma {:induction false} PrecedesExactly(juror: string, vote: string, h: nat, r: Resolution)
    requires 0 <= r.height
    ensures Precedes(h, r) <==>
              forall blocks | Shows(blocks, juror, vote, h, r) :: Has(Replay(blocks, |blocks|), juror, vote)
  {
    if Precedes(h, r) {
      forall blocks | Shows(blocks, juror, vote, h, r) ensures Has(Replay(blocks, |blocks|), juror, vote) {
        PrecedingIsRead(blocks, juror, vote, h, r);
      }
    } else {
      LateShows(juror, vote, h, r);
      LateReadsNothing(juror, vote, h, r, h + 1);
    }
  }

  /** The tally of every chain that shows the commit and the resolution has read the verdict. */
  ghost predicate AlwaysRead(juror: string, vote: string, d: Dated, res: Option<Resolution>) {
    && d.At? && res.Some? && d.height >= 0
    && forall blocks | Shows(blocks, juror, vote, d.height, res.value) :: Has(Replay(blocks, |blocks|), juror, vote)
  }

  ghost predicate OnChain(d: Dated, res: Option<Resolution>) {
    (d.At? ==> d.height >= 0) && (res.Some? ==> res.value.height >= 0)
  }

  /** Main result: the verdicts counted are those of the day whose commit and resolution were both dated and that the
      tally of every chain showing them has read, each with its own vote. */
  lemma {:induction false} CountedExactly(commits: Votes, rs: Resolutions, ds: Dates, j: string, k: string)
    requires AllDated(commits, rs, ds)
    requires j in commits && k in commits[j] ==> OnChain(ds[j][k], rs[j])
    ensures var out := CountedVotes(commits, rs, ds);
            && (j in out && k in out[j] <==>
                  j in commits && k in commits[j] && AlwaysRead(k, commits[j][k], ds[j][k], rs[j]))
            && (j in out && k in out[j] ==> out[j][k] == commits[j][k])
  {
    hide AlwaysRead, Shows, Precedes, Replay;
    if j in commits && k in commits[j] {
      TimelyExactly(k, commits[j][k], ds[j][k], rs[j]);
      assert Timely(ds[j][k], rs[j]) ==> k in CountedOn(commits[j], rs[j], DatesOn(ds, j));
    }
    hide Timely;
  }

  lemma {:induction false} TimelyExactly(juror: string, vote: string, d: Dated, res: Option<Resolution>)
    requires OnChain(d, res)
    ensures Timely(d, res) <==> AlwaysRead(juror, vote, d, res)
  {
    hide Shows, Precedes, Replay;
    if d.At? && res.Some? { PrecedesExactly(juror, vote, d.height, res.value); }
  }

  /** The record of the day: a verdict is listed exactly when its commit is not known to be outside the window, with its
      vote, its block and, when it is not counted, what was unknown first: its date, then the resolution. */
  lemma {:induction false} ListedExactly(commits: Votes, rs: Resolutions, ds: Dates, j: string, k: string)
    requires AllDated(commits, rs, ds) && j in commits
    ensures var p := Proof(commits, rs, ds);
            && j in p && p[j].resolved == rs[j]
            && (k in p[j].jurors <==> k in commits[j] && !ds[j][k].NotThere?)
            && (k in p[j].jurors ==>
                  var e, d := p[j].jurors[k], ds[j][k];
                  && e.vote == commits[j][k] && (e.committedAt == if d.At? then Some(d.height) else None)
                  && (e.why == CommitNotDated <==> d.NotDated?)
                  && (e.why == ResolutionNotIndexed <==> d.At? && rs[j].None?)
                  && (e.why == Counted <==>
                        j in CountedVotes(commits, rs, ds) && k in CountedVotes(commits, rs, ds)[j]))
  {
    hide Precedes;
    if k in commits[j] {
      assert Timely(ds[j][k], rs[j]) ==> k in CountedOn(commits[j], rs[j], DatesOn(ds, j));
    }
  }

  // ---------------------------------------------------------------- the verdicts paid

  /** Main result: a verdict read is paid exactly when its juror is not the miner audited, a reveal sealed to that juror
      was recorded, and the block of the commit is dated strictly later than the record. */
  lemma {:induction false} PaidExactly(votes: Votes, x: Reads, j: string, k: string)
    requires AllRead(votes, x) && j in votes && k in votes[j]
    ensures j in PaidOn(votes, x, k) <==>
              && k != x.primaries[j]
              && x.arrivals[j + "__" + k + "__" + x.primaries[j]].Arrived?
              && x.times[x.committed[j][k]] > x.arrivals[j + "__" + k + "__" + x.primaries[j]].time
    ensures j in PaidOn(votes, x, k) ==> PaidProof(votes[j], x, j)[k] == AfterReveal
  {
    assert VerdictRead(x, j, k);
  }

  /** Why a verdict of another juror is not paid, as the record says it. */
  lemma {:induction false} NotPaidExactly(votes: Votes, x: Reads, j: string, k: string)
    requires AllRead(votes, x) && j in votes && k in votes[j] && k != x.primaries[j]
    ensures var arrival := x.arrivals[j + "__" + k + "__" + x.primaries[j]];
            var why := PaidProof(votes[j], x, j)[k];
            && (why == NoRevealSealed <==> arrival == NoReveal)
            && (why == StoreNotRead <==> arrival == StoreUnread)
            && (why == BeforeReveal <==> arrival.Arrived? && x.times[x.committed[j][k]] <= arrival.time)
  {
    assert VerdictRead(x, j, k);
  }

  // ---------------------------------------------------------------- the jurors contradicted

  /** Main result: of the votes recorded on a fault, a "1" is held against its juror on an incoherent answer, and on a
      missing reveal when the relay has no reveal sealed to that juror; nothing else is. */
  lemma {:induction false} HeldExactly(faults: map<string, string>, proof: map<string, JobProof>, x: Reads, j: string,
                                       k: string)
    requires FaultsRead(faults, proof, x) && j in faults && j in proof && k in proof[j].jurors
    ensures var vote, record := proof[j].jurors[k].vote, FaultRecord(faults, proof, x);
            && j in record && record[j].cls == faults[j]
            && k in record[j].votes && record[j].votes[k].0 == vote
            && (record[j].votes[k].1 == Contradicted <==>
                  && vote == "1"
                  && (faults[j] == "incoherent_answer" ||
                      (faults[j] == "no_reveal" && x.arrivals[j + "__" + k + "__" + x.primaries[j]] == NoReveal)))
            && (record[j].votes[k].1 == NotAgainst <==> vote != "1")
            && (record[j].votes[k].1 == ClassContradictsNobody <==>
                  vote == "1" && faults[j] != "incoherent_answer" && faults[j] != "no_reveal")
            && (record[j].votes[k].1 == ArrivalUnread <==>
                  vote == "1" && faults[j] == "no_reveal" &&
                  x.arrivals[j + "__" + k + "__" + x.primaries[j]] == StoreUnread)
            && (record[j].votes[k].1 == Contradicted ==> VotedForFault(faults, proof, x, k))
  {
    assert FaultRead(faults[j], JurorsOn(proof, j), x, j);
    SanctionMeans(faults[j], JurorsOn(proof, j), x, j, k);
    FaultClasses(faults[j]);
    hide SanctionsOn, FaultRead;
    assert FaultRecord(faults, proof, x)[j].votes == SanctionsOn(faults[j], JurorsOn(proof, j), x, j);
  }

  lemma {:induction false} FaultClasses(cls: string)
    ensures cls in CONTRADICTING_CLASSES <==> cls == "incoherent_answer" || cls == "no_reveal"
  {
    assert CONTRADICTING_CLASSES[0] == "incoherent_answer" && CONTRADICTING_CLASSES[1] == "no_reveal";
  }
}
