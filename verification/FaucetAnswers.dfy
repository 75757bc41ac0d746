/** What the faucet answers, read from the log of drips alone: on every run whose state file is never damaged the
    counters hold exactly what the log says, so a request is refused when the log says so and granted otherwise. */
module FaucetAnswers {
  import opened Faucet

  // ---------------------------------------------------------------- counters that say what the log says

  ghost predicate ExactDay(c: Counters, log: seq<Mark>, clock: real) {
    forall cut: real | cut >= clock - DAY :: CountAfter(DripTimes(log), cut) == CountAfter(c.globalHits, cut)
  }

  ghost predicate ExactIp(c: Counters, log: seq<Mark>, clock: real) {
    forall ip: string, cut: real | cut >= clock - DAY ::
      CountAfter(IpTimes(log, ip), cut) == CountAfter(Hits(c, ip), cut)
  }

  /** The drip at `i` is one of `addr`, not given back and younger than the cooldown at `now`. */
  ghost predicate Holding(cfg: Config, log: seq<Mark>, addr: string, now: real, i: nat)
    requires i < |log|
  {
    Live(log, i) && log[i].addr == addr && now - log[i].at < cfg.addrCooldown as real
  }

  ghost predicate Held(cfg: Config, log: seq<Mark>, addr: string, now: real) {
    exists i | 0 <= i < |log| :: Holding(cfg, log, addr, now, i)
  }

  predicate Cooling(cfg: Config, c: Counters, addr: string, now: real) {
    addr in c.addrLast && now - c.addrLast[addr] < cfg.addrCooldown as real
  }

  ghost predicate ExactAddr(cfg: Config, c: Counters, log: seq<Mark>, clock: real) {
    forall a: string, now: real | now >= clock :: Cooling(cfg, c, a, now) <==> Held(cfg, log, a, now)
  }

  /** `addrs` says whether the addresses are followed too: they are when every refund was saved. */
  ghost predicate Exact(cfg: Config, c: Counters, log: seq<Mark>, clock: real, addrs: bool) {
    && ExactDay(c, log, clock) && ExactIp(c, log, clock) && (addrs ==> ExactAddr(cfg, c, log, clock))
    && forall a | a in c.addrLast :: 0.0 <= c.addrLast[a] <= clock
  }

  ghost predicate InStep(cfg: Config, s: Service, log: seq<Mark>, clock: real, addrs: bool) {
    && Exact(cfg, s.mem, log, clock, addrs) && LogPast(log, clock) && clock >= 0.0
    && (cfg.persistent ==> match s.file
          case NoFile => Exact(cfg, NOTHING, log, clock, addrs)
          case Saved(c) => Exact(cfg, c, log, clock, addrs)
          case Unreadable => false)
  }

  lemma {:induction false} InStepLater(cfg: Config, s: Service, log: seq<Mark>, clock: real, later: real, addrs: bool)
    requires InStep(cfg, s, log, clock, addrs) && clock <= later
    ensures InStep(cfg, s, log, later, addrs)
  {
    hide Held, Cooling, CountAfter, DripTimes, IpTimes, Hits;
  }

  // ---------------------------------------------------------------- pruning, granting, giving back

  /** `p` is `c` pruned at `now`. */
  ghost predicate Pruned(cfg: Config, c: Counters, p: Counters, now: real) {
    && p.globalHits == Recent(c.globalHits, now, DAY)
    && (forall ip: string :: Hits(p, ip) == Hits(c, ip) || Hits(p, ip) == Recent(Hits(c, ip), now, DAY))
    && p.addrLast.Keys <= c.addrLast.Keys && (forall a | a in p.addrLast :: p.addrLast[a] == c.addrLast[a])
    && forall a | Cooling(cfg, c, a, now) :: a in p.addrLast
  }

  lemma {:induction false} PrunedExact(cfg: Config, c: Counters, p: Counters, log: seq<Mark>, now: real, addrs: bool)
    requires Exact(cfg, c, log, now, addrs) && Pruned(cfg, c, p, now)
    ensures Exact(cfg, p, log, now, addrs)
  {
    forall cut: real | cut >= now - DAY
      ensures CountAfter(p.globalHits, cut) == CountAfter(c.globalHits, cut)
    {
      RecentCounts(c.globalHits, now, cut);
    }
    forall ip: string, cut: real | cut >= now - DAY
      ensures CountAfter(Hits(p, ip), cut) == CountAfter(Hits(c, ip), cut)
    {
      RecentCounts(Hits(c, ip), now, cut);
    }
    hide CountAfter, Recent, Hits, DripTimes, IpTimes, Held;
    forall a: string, later: real | later >= now ensures Cooling(cfg, p, a, later) <==> Cooling(cfg, c, a, later) {
      assert Cooling(cfg, c, a, later) ==> Cooling(cfg, c, a, now);
    }
  }

  lemma {:induction false} KeptIsPruned(cfg: Config, c: Counters, now: real)
    ensures Pruned(cfg, c, Kept(cfg, c, now), now) && Pruned(cfg, c, Loaded(cfg, c, now), now)
    ensures Pruned(cfg, c, c.(globalHits := Recent(c.globalHits, now, DAY)), now)
  {
  }

  lemma {:induction false} GrantExactCounts(c: Counters, log: seq<Mark>, addr: string, ip: string, now: real)
    requires ExactDay(c, log, now) && ExactIp(c, log, now)
    ensures var d, l := Recorded(c, addr, ip, now), log + [Drip(addr, ip, now)];
            ExactDay(d, l, now) && ExactIp(d, l, now)
  {
    var d, l := Recorded(c, addr, ip, now), log + [Drip(addr, ip, now)];
    forall cut: real | cut >= now - DAY ensures CountAfter(DripTimes(l), cut) == CountAfter(d.globalHits, cut) {
      DripTimesExtend(log, Drip(addr, ip, now), ip);
      CountAfterAppend(DripTimes(log), [now], cut);
      RecentCounts(c.globalHits, now, cut);
      CountAfterAppend(Recent(c.globalHits, now, DAY), [now], cut);
    }
    forall p: string, cut: real | cut >= now - DAY
      ensures CountAfter(IpTimes(l, p), cut) == CountAfter(Hits(d, p), cut)
    {
      GrantExactIp(c, log, addr, ip, now, p, cut);
    }
  }

  lemma {:induction false} GrantExactIp(c: Counters, log: seq<Mark>, addr: string, ip: string, now: real, p: string,
                                        cut: real)
    requires ExactIp(c, log, now) && cut >= now - DAY
    ensures CountAfter(IpTimes(log + [Drip(addr, ip, now)], p), cut) ==
            CountAfter(Hits(Recorded(c, addr, ip, now), p), cut)
  {
    DripTimesExtend(log, Drip(addr, ip, now), p);
    var hits := Hits(c, p);
    assert Hits(Recorded(c, addr, ip, now), p) == if p == ip then Recent(hits, now, DAY) + [now] else hits;
    hide CountAfter, Recent, IpTimes, Hits;
    if p == ip {
      RecentCounts(hits, now, cut);
      CountAfterAppend(IpTimes(log, p), [now], cut);
      CountAfterAppend(Recent(hits, now, DAY), [now], cut);
    } else {
      assert IpTimes(log, p) + [] == IpTimes(log, p);
    }
  }

  /** A mark about another address, or a drip, leaves the drips that were not given back. */
  lemma {:induction false} LiveKept(log: seq<Mark>, m: Mark, i: nat)
    requires i < |log|
    ensures Live(log + [m], i) <==> Live(log, i) && m != Refunded(log[i].addr)
    ensures (log + [m])[i] == log[i]
  {
    var l := log + [m];
    assert forall k | 0 <= k < |log| :: l[k] == log[k];
    assert l[|log|] == m;
  }

  lemma {:induction false} HeldNext(cfg: Config, log: seq<Mark>, m: Mark, a: string, now: real)
    ensures Held(cfg, log + [m], a, now) <==>
              || (m.Drip? && m.addr == a && now - m.at < cfg.addrCooldown as real)
              || (m != Refunded(a) && Held(cfg, log, a, now))
  {
    var l := log + [m];
    forall i | 0 <= i < |log| ensures Live(l, i) <==> Live(log, i) && m != Refunded(log[i].addr) {
      LiveKept(log, m, i);
    }
    assert forall i | 0 <= i < |log| :: l[i] == log[i];
    assert l[|log|] == m && (m.Drip? ==> Live(l, |log|));
    hide Live;
    if Held(cfg, log, a, now) && m != Refunded(a) {
      var i :| 0 <= i < |log| && Holding(cfg, log, a, now, i);
      assert Holding(cfg, l, a, now, i);
    }
    if m.Drip? && m.addr == a && now - m.at < cfg.addrCooldown as real { assert Holding(cfg, l, a, now, |log|); }
    if Held(cfg, l, a, now) {
      var i :| 0 <= i < |l| && Holding(cfg, l, a, now, i);
      if i < |log| { assert Holding(cfg, log, a, now, i); }
    }
  }

  lemma {:induction false} GrantExactAddr(cfg: Config, c: Counters, log: seq<Mark>, addr: string, ip: string, now: real)
    requires ExactAddr(cfg, c, log, now) && LogPast(log, now)
    ensures ExactAddr(cfg, Recorded(c, addr, ip, now), log + [Drip(addr, ip, now)], now)
  {
    var d, l := Recorded(c, addr, ip, now), log + [Drip(addr, ip, now)];
    forall a: string, later: real | later >= now ensures Cooling(cfg, d, a, later) <==> Held(cfg, l, a, later) {
      HeldNext(cfg, log, Drip(addr, ip, now), a, later);
      if a == addr && Held(cfg, log, a, later) {
        var i :| 0 <= i < |log| && Holding(cfg, log, a, later, i);
        assert log[i].at <= now;
      }
      hide Held, Recent;
      assert a != addr ==> (Cooling(cfg, d, a, later) <==> Cooling(cfg, c, a, later));
    }
  }

  lemma {:induction false} GrantInStep(cfg: Config, s: Service, log: seq<Mark>, e: Event, addrs: bool)
    requires e.Request? && e.now <= e.savedAt && InStep(cfg, s, log, e.now, addrs) && Answer(cfg, s, e).Granted?
    ensures InStep(cfg, Next(cfg, s, e), log + Marks(cfg, s, e), e.savedAt, addrs)
  {
    var l, c := log + [Drip(e.addr, e.ip, e.now)], Recorded(s.mem, e.addr, e.ip, e.now);
    GrantExactCounts(s.mem, log, e.addr, e.ip, e.now);
    if addrs { GrantExactAddr(cfg, s.mem, log, e.addr, e.ip, e.now); }
    assert Exact(cfg, c, l, e.now, addrs);
    assert Next(cfg, s, e) == Service(c, SavedFile(cfg, s.file, c, e.savedAt));
    ExactLater(cfg, c, l, e.now, e.savedAt, addrs);
    KeptIsPruned(cfg, c, e.savedAt);
    hide Exact, Kept, Recorded, Decide, Pruned;
    PrunedExact(cfg, c, Kept(cfg, c, e.savedAt), l, e.savedAt, addrs);
  }

  lemma {:induction false} ExactLater(cfg: Config, c: Counters, log: seq<Mark>, clock: real, later: real, addrs: bool)
    requires Exact(cfg, c, log, clock, addrs) && clock <= later
    ensures Exact(cfg, c, log, later, addrs)
  {
    hide Held, Cooling, CountAfter, DripTimes, IpTimes, Hits;
  }

  lemma {:induction false} RefundExact(cfg: Config, c: Counters, p: Counters, log: seq<Mark>, addr: string, clock: real,
                                       addrs: bool)
    requires Exact(cfg, c, log, clock, addrs) && p.ipHits == c.ipHits && p.globalHits == c.globalHits
    requires p.addrLast == c.addrLast - {addr} || (!addrs && p.addrLast == c.addrLast)
    ensures Exact(cfg, p, log + [Refunded(addr)], clock, addrs)
  {
    var l := log + [Refunded(addr)];
    assert DripTimes(l) == DripTimes(log) by { DripTimesExtend(log, Refunded(addr), ""); }
    forall ip: string ensures IpTimes(l, ip) == IpTimes(log, ip) && Hits(p, ip) == Hits(c, ip) {
      DripTimesExtend(log, Refunded(addr), ip);
    }
    hide DripTimes, IpTimes, CountAfter, Hits;
    forall a: string, now: real | addrs && now >= clock ensures Cooling(cfg, p, a, now) <==> Held(cfg, l, a, now) {
      HeldNext(cfg, log, Refunded(addr), a, now);
      hide Held;
      assert a != addr ==> (Cooling(cfg, p, a, now) <==> Cooling(cfg, c, a, now));
    }
  }

  lemma {:induction false} RefundInStep(cfg: Config, s: Service, log: seq<Mark>, e: Event, addrs: bool)
    requires e.Refund? && InStep(cfg, s, log, e.savedAt, addrs) && (addrs ==> e.saveOk || !cfg.persistent)
    ensures InStep(cfg, Next(cfg, s, e), log + Marks(cfg, s, e), e.savedAt, addrs)
  {
    var l, c := log + [Refunded(e.addr)], s.mem.(addrLast := s.mem.addrLast - {e.addr});
    RefundExact(cfg, s.mem, c, log, e.addr, e.savedAt, addrs);
    KeptIsPruned(cfg, c, e.savedAt);
    if cfg.persistent && !e.saveOk {
      match s.file
      case NoFile => RefundExact(cfg, NOTHING, NOTHING, log, e.addr, e.savedAt, addrs);
      case Saved(f) => RefundExact(cfg, f, f, log, e.addr, e.savedAt, addrs);
    }
    assert LogPast(l, e.savedAt);
    hide Exact, Kept, Pruned, LogPast;
    PrunedExact(cfg, c, Kept(cfg, c, e.savedAt), l, e.savedAt, addrs);
  }

  lemma {:induction false} RestartInStep(cfg: Config, s: Service, log: seq<Mark>, now: real, addrs: bool)
    requires InStep(cfg, s, log, now, addrs) && cfg.persistent
    ensures InStep(cfg, Next(cfg, s, Restart(now)), log, now, addrs)
  {
    hide Exact, Kept, Pruned, Loaded;
    match s.file
    case NoFile =>
    case Saved(c) =>
      KeptIsPruned(cfg, c, now);
      PrunedExact(cfg, c, Loaded(cfg, c, now), log, now, addrs);
  }

  lemma {:induction false} RefusedInStep(cfg: Config, s: Service, log: seq<Mark>, e: Event, addrs: bool)
    requires e.Request? && e.now <= e.savedAt && InStep(cfg, s, log, e.now, addrs) && !Answer(cfg, s, e).Granted?
    ensures InStep(cfg, Next(cfg, s, e), log, e.savedAt, addrs)
  {
    var p := s.mem.(globalHits := Recent(s.mem.globalHits, e.now, DAY));
    KeptIsPruned(cfg, s.mem, e.now);
    PrunedExact(cfg, s.mem, p, log, e.now, addrs);
    assert Next(cfg, s, e) == s || Next(cfg, s, e) == s.(mem := p);
    hide Exact;
    InStepLater(cfg, Next(cfg, s, e), log, e.now, e.savedAt, addrs);
  }

  /** Every event but damage keeps the counters, in memory and in the file, saying exactly what the log says. */
  lemma {:induction false} StepInStep(cfg: Config, s: Service, log: seq<Mark>, clock: real, e: Event, addrs: bool)
    requires InStep(cfg, s, log, clock, addrs) && Timely(cfg, e, clock) && !e.Damage?
    requires addrs && e.Refund? && cfg.persistent ==> e.saveOk
    ensures InStep(cfg, Next(cfg, s, e), log + Marks(cfg, s, e), Ends(e, clock), addrs)
  {
    assert log + [] == log;
    hide InStep, Next;
    match e
    case Request(_, _, now, _, _) =>
      InStepLater(cfg, s, log, clock, now, addrs);
      if Answer(cfg, s, e).Granted? {
        GrantInStep(cfg, s, log, e, addrs);
      } else {
        RefusedInStep(cfg, s, log, e, addrs);
      }
    case Refund(_, savedAt, _) =>
      InStepLater(cfg, s, log, clock, savedAt, addrs);
      RefundInStep(cfg, s, log, e, addrs);
    case Restart(now) =>
      InStepLater(cfg, s, log, clock, now, addrs);
      RestartInStep(cfg, s, log, now, addrs);
  }

  /** No refund was lost by a save that failed. */
  ghost predicate RefundsSaved(cfg: Config, es: seq<Event>) {
    cfg.persistent ==> forall e | e in es && e.Refund? :: e.saveOk
  }

  lemma {:induction false} RunInStep(cfg: Config, es: seq<Event>, addrs: bool)
    requires Legal(cfg, es) && Damage !in es && (addrs ==> RefundsSaved(cfg, es))
    ensures InStep(cfg, After(cfg, es), Log(cfg, es), Clock(es), addrs)
  {
    if es == [] {
      assert DripTimes([]) == [] && forall ip: string :: IpTimes([], ip) == [];
    } else {
      var pre, e := es[..|es| - 1], es[|es| - 1];
      assert e in es;
      RunInStep(cfg, pre, addrs);
      hide InStep, Next;
      StepInStep(cfg, After(cfg, pre), Log(cfg, pre), Clock(pre), e, addrs);
    }
  }

  // ---------------------------------------------------------------- the answers

  /** The quotas as the log gives them: drips authorised in the last day, in all and for one IP. */
  function DripsToday(log: seq<Mark>, now: real): nat { CountAfter(DripTimes(log), now - DAY) }

  function IpDripsToday(log: seq<Mark>, ip: string, now: real): nat { CountAfter(IpTimes(log, ip), now - DAY) }

  /** What the counters decide, when they say what the log says. */
  lemma {:induction false} DecidesFromTheLog(cfg: Config, c: Counters, log: seq<Mark>, addr: string, ip: string,
                                             now: real,
                                             addrs: bool)
    requires Exact(cfg, c, log, now, addrs) && now >= 0.0
    ensures addrs ==> (Decide(cfg, c, addr, ip, now).AddrCooldown? <==>
                         now < cfg.addrCooldown as real || Held(cfg, log, addr, now))
    ensures !Decide(cfg, c, addr, ip, now).AddrCooldown? ==>
              Decide(cfg, c, addr, ip, now) ==
              if IpDripsToday(log, ip, now) >= cfg.ipDaily then IpQuota
              else if DripsToday(log, now) >= cfg.dailyCap then GlobalCap
              else Granted
  {
    RecentLength(Hits(c, ip), now);
    RecentLength(c.globalHits, now);
    hide Recent, CountAfter, DripTimes, IpTimes, Hits, Held;
    assert addrs ==> (Cooling(cfg, c, addr, now) <==> Held(cfg, log, addr, now));
  }

  /** Main result: on every run whose file is never damaged, a request that comes next is answered from the log alone,
      the most specific refusal first. Its address is refused exactly when a drip of it was not given back and is
      younger than the cooldown, or the clock itself is, provided every refund was saved; then its IP exactly when the
      log holds its quota of the last day, then everybody exactly when the log holds the daily cap; otherwise it is
      granted, unless the save fails. */
  lemma {:induction false} AnswersFromTheLog(cfg: Config, es: seq<Event>, e: Event)
    requires Legal(cfg, es) && Damage !in es && e.Request? && Timely(cfg, e, Clock(es))
    ensures var v, log := Answer(cfg, After(cfg, es), e), Log(cfg, es);
            && (RefundsSaved(cfg, es) ==>
                  (v.AddrCooldown? <==> e.now < cfg.addrCooldown as real || Held(cfg, log, e.addr, e.now)))
            && (!v.AddrCooldown? ==>
                  v == if IpDripsToday(log, e.ip, e.now) >= cfg.ipDaily then IpQuota
                       else if DripsToday(log, e.now) >= cfg.dailyCap then GlobalCap
                       else if cfg.persistent && !e.saveOk then SaveFailed
                       else Granted)
  {
    var addrs, s, log := RefundsSaved(cfg, es), After(cfg, es), Log(cfg, es);
    RunInStep(cfg, es, addrs);
    InStepLater(cfg, s, log, Clock(es), e.now, addrs);
    hide Exact, Decide, Held, DripsToday, IpDripsToday;
    DecidesFromTheLog(cfg, s.mem, log, e.addr, e.ip, e.now, addrs);
  }

  /** An unsaved refund is what the exception is for: lost by a restart, it leaves the address refused though the log
      holds no drip of it. */
  lemma {:induction false} LostRefundLocks(cfg: Config, addr: string, ip: string) returns (es: seq<Event>, e: Event)
    requires cfg.persistent && cfg.ipDaily > 0 && cfg.dailyCap > 0 && cfg.addrCooldown > 0
    ensures Legal(cfg, es) && Damage !in es && e.Request? && Timely(cfg, e, Clock(es)) && e.addr == addr
    ensures e.now >= cfg.addrCooldown as real && !Held(cfg, Log(cfg, es), addr, e.now)
    ensures Answer(cfg, After(cfg, es), e).AddrCooldown?
  {
    var t := cfg.addrCooldown as real;
    var r1, f := Request(addr, ip, t, t, true), Refund(addr, t, false);
    e := Request(addr, ip, t, t, true);
    es := [r1, f, Restart(t)];
    var e1, e2 := [r1], [r1, f];
    assert e1[..0] == [] && e2[..1] == e1 && es[..2] == e2;
    assert After(cfg, []) == Service(NOTHING, NoFile) && Decide(cfg, NOTHING, addr, ip, t).Granted?;
    assert e1[|e1| - 1] == r1 && e2[|e2| - 1] == f && es[|es| - 1] == Restart(t);
    assert e1[..|e1| - 1] == [] && e2[..|e2| - 1] == e1 && es[..|es| - 1] == e2;
    assert Clock(e1) == t && Legal(cfg, e1);
    assert Clock(e2) == t && Legal(cfg, e2);
    assert Clock(es) == t && Legal(cfg, es);
    var c := Recorded(NOTHING, addr, ip, t);
    assert After(cfg, e1) == Service(c, Saved(Kept(cfg, c, t)));
    assert After(cfg, e2).file == Saved(Kept(cfg, c, t));
    assert Log(cfg, e1) == [Drip(addr, ip, t)];
    assert Log(cfg, e2) == [Drip(addr, ip, t), Refunded(addr)];
    var log := Log(cfg, es);
    assert log == [Drip(addr, ip, t), Refunded(addr)];
    assert log[1] == Refunded(addr);
    assert addr in Kept(cfg, c, t).addrLast;
    assert addr in Loaded(cfg, Kept(cfg, c, t), t).addrLast;
  }
}
