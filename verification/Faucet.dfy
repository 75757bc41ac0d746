/** The faucet's anti-abuse counters: three sliding-window caps kept in memory, mirrored in a state file,
    rolled back when the file cannot be written, given back in part after a failed transfer, and reloaded at
    start, failing closed on a file that cannot be read. */
module Faucet {

  const DAY: real := 86400.0

  /** The settings, any integers the environment names. `persistent` is a non-empty STATE_FILE. */
  datatype Config = Config(addrCooldown: int, ipDaily: int, dailyCap: int, persistent: bool)

  datatype Counters = Counters(addrLast: map<string, real>, ipHits: map<string, seq<real>>, globalHits: seq<real>)

  datatype StateFile = NoFile | Saved(counters: Counters) | Unreadable

  datatype Service = Service(mem: Counters, file: StateFile)

  datatype Verdict = Granted | AddrCooldown | IpQuota | GlobalCap | SaveFailed

  const NOTHING := Counters(map[], map[], [])

  function Cap(n: int): nat { if n < 0 then 0 else n }

  // ---------------------------------------------------------------- the operations, on values

  /** The comprehension `[t for t in ts if now - t < span]`. */
  function Recent(ts: seq<real>, now: real, span: real): seq<real> {
    if ts == [] then []
    else (if now - ts[0] < span then [ts[0]] else []) + Recent(ts[1..], now, span)
  }

  function Hits(c: Counters, ip: string): seq<real> {
    if ip in c.ipHits then c.ipHits[ip] else []
  }

  /** What a save at `now` writes. */
  function Kept(cfg: Config, c: Counters, now: real): Counters {
    Counters(
      map a | a in c.addrLast && now - c.addrLast[a] < cfg.addrCooldown as real :: c.addrLast[a],
      map ip | ip in c.ipHits :: Recent(c.ipHits[ip], now, DAY),
      Recent(c.globalHits, now, DAY))
  }

  /** What a start at `now` takes back from a readable file. */
  function Loaded(cfg: Config, c: Counters, now: real): Counters {
    Counters(
      map a | a in c.addrLast && now - c.addrLast[a] < cfg.addrCooldown as real :: c.addrLast[a],
      map ip | ip in c.ipHits && Recent(c.ipHits[ip], now, DAY) != [] :: Recent(c.ipHits[ip], now, DAY),
      Recent(c.globalHits, now, DAY))
  }

  function FailClosed(cfg: Config, now: real): Counters {
    Counters(map[], map[], seq(Cap(cfg.dailyCap), _ => now))
  }

  function Started(cfg: Config, file: StateFile, now: real): Counters {
    match file
    case NoFile => NOTHING
    case Saved(c) => Loaded(cfg, c, now)
    case Unreadable => FailClosed(cfg, now)
  }

  function Decide(cfg: Config, c: Counters, addr: string, ip: string, now: real): Verdict {
    if now - (if addr in c.addrLast then c.addrLast[addr] else 0.0) < cfg.addrCooldown as real then AddrCooldown
    else if |Recent(Hits(c, ip), now, DAY)| >= cfg.ipDaily then IpQuota
    else if |Recent(c.globalHits, now, DAY)| >= cfg.dailyCap then GlobalCap
    else Granted
  }

  function Recorded(c: Counters, addr: string, ip: string, now: real): Counters {
    Counters(c.addrLast[addr := now], c.ipHits[ip := Recent(Hits(c, ip), now, DAY) + [now]],
             Recent(c.globalHits, now, DAY) + [now])
  }

  function SavedFile(cfg: Config, file: StateFile, c: Counters, now: real): StateFile {
    if cfg.persistent then Saved(Kept(cfg, c, now)) else file
  }

  /** What can happen to the service. `savedAt` is the clock read inside the save and `saveOk` whether the
      atomic write went through. A process that dies inside a request is a request followed by a restart
      (counted as granted when the file was already replaced) or a restart alone. */
  datatype Event =
    | Request(addr: string, ip: string, now: real, savedAt: real, saveOk: bool)
    | Refund(addr: string, savedAt: real, saveOk: bool)
    | Restart(now: real)
    | Damage

  function Answer(cfg: Config, s: Service, e: Event): Verdict
    requires e.Request?
  {
    var v := Decide(cfg, s.mem, e.addr, e.ip, e.now);
    if v.Granted? && cfg.persistent && !e.saveOk then SaveFailed else v
  }

  function Next(cfg: Config, s: Service, e: Event): Service {
    match e
    case Request(addr, ip, now, savedAt, _) =>
      (match Answer(cfg, s, e)
       case AddrCooldown => s
       case IpQuota => s
       case Granted =>
         var c := Recorded(s.mem, addr, ip, now);
         Service(c, SavedFile(cfg, s.file, c, savedAt))
       case _ => s.(mem := s.mem.(globalHits := Recent(s.mem.globalHits, now, DAY))))
    case Refund(addr, savedAt, saveOk) =>
      var c := s.mem.(addrLast := s.mem.addrLast - {addr});
      Service(c, if saveOk then SavedFile(cfg, s.file, c, savedAt) else s.file)
    case Restart(now) => s.(mem := Started(cfg, s.file, now))
    case Damage => s.(file := Unreadable)
  }

  // ---------------------------------------------------------------- runs and their log

  datatype Mark = Drip(addr: string, ip: string, at: real) | Refunded(addr: string)

  function Marks(cfg: Config, s: Service, e: Event): seq<Mark> {
    match e
    case Request(addr, ip, now, _, _) => if Answer(cfg, s, e).Granted? then [Drip(addr, ip, now)] else []
    case Refund(addr, _, _) => [Refunded(addr)]
    case _ => []
  }

  function After(cfg: Config, es: seq<Event>): Service {
    if es == [] then Service(NOTHING, NoFile) else Next(cfg, After(cfg, es[..|es| - 1]), es[|es| - 1])
  }

  /** Every drip authorised and every refund, in order. */
  function Log(cfg: Config, es: seq<Event>): seq<Mark> {
    if es == [] then []
    else
      var pre := es[..|es| - 1];
      Log(cfg, pre) + Marks(cfg, After(cfg, pre), es[|es| - 1])
  }

  /** The clock never goes back; only a service with a state file is restarted, and only such a file is damaged. */
  predicate Timely(cfg: Config, e: Event, clock: real) {
    match e
    case Request(_, _, now, savedAt, _) => clock <= now <= savedAt
    case Refund(_, savedAt, _) => clock <= savedAt
    case Restart(now) => clock <= now && cfg.persistent
    case Damage => cfg.persistent
  }

  function Ends(e: Event, clock: real): real {
    match e
    case Request(_, _, _, savedAt, _) => savedAt
    case Refund(_, savedAt, _) => savedAt
    case Restart(now) => now
    case Damage => clock
  }

  function Clock(es: seq<Event>): real {
    if es == [] then 0.0 else Ends(es[|es| - 1], Clock(es[..|es| - 1]))
  }

  predicate Legal(cfg: Config, es: seq<Event>) {
    es == [] || (Legal(cfg, es[..|es| - 1]) && Timely(cfg, es[|es| - 1], Clock(es[..|es| - 1])))
  }

  // ---------------------------------------------------------------- counting in time

  function CountAfter(ts: seq<real>, cut: real): nat {
    if ts == [] then 0
    else CountAfter(ts[..|ts| - 1], cut) + (if ts[|ts| - 1] > cut then 1 else 0)
  }

  /** Instants of `ts` in the half-open window (lo, hi]. */
  function CountIn(ts: seq<real>, lo: real, hi: real): nat {
    if ts == [] then 0
    else CountIn(ts[..|ts| - 1], lo, hi) + (if lo < ts[|ts| - 1] <= hi then 1 else 0)
  }

  function CountInDay(ts: seq<real>, lo: real): nat { CountIn(ts, lo, lo + DAY) }

  function DripTimes(log: seq<Mark>): seq<real> {
    if log == [] then []
    else DripTimes(log[..|log| - 1]) + (match log[|log| - 1] case Drip(_, _, t) => [t] case _ => [])
  }

  function IpTimes(log: seq<Mark>, ip: string): seq<real> {
    if log == [] then []
    else IpTimes(log[..|log| - 1], ip) +
         (match log[|log| - 1] case Drip(_, p, t) => (if p == ip then [t] else []) case _ => [])
  }

  ghost predicate NoRefundAfter(log: seq<Mark>, i: nat, to: nat, addr: string)
    requires to <= |log|
  {
    forall k | i < k < to :: log[k] != Refunded(addr)
  }

  /** What the caps promise about the drips authorised. */
  ghost predicate WindowsHold(cfg: Config, log: seq<Mark>) {
    && (forall lo: real :: CountInDay(DripTimes(log), lo) <= Cap(cfg.dailyCap))
    && (forall ip: string, lo: real :: CountInDay(IpTimes(log, ip), lo) <= Cap(cfg.ipDaily))
  }

  ghost predicate CooldownHolds(cfg: Config, log: seq<Mark>) {
    forall i, j | 0 <= i < j < |log| && log[i].Drip? && log[j].Drip? && log[i].addr == log[j].addr
                  && NoRefundAfter(log, i, j, log[i].addr) ::
      log[j].at - log[i].at >= cfg.addrCooldown as real
  }

  lemma {:induction false} CountAfterAppend(a: seq<real>, b: seq<real>, cut: real)
    ensures CountAfter(a + b, cut) == CountAfter(a, cut) + CountAfter(b, cut)
  {
    if b == [] {
      assert a + b == a;
    } else {
      CountAfterAppend(a, b[..|b| - 1], cut);
      assert (a + b)[..|a + b| - 1] == a + b[..|b| - 1];
    }
  }

  lemma {:induction false} CountAfterOne(x: real, cut: real)
    ensures CountAfter([x], cut) == if x > cut then 1 else 0
  {
    assert [x][..0] == [];
  }

  lemma {:induction false} CountAfterFalls(ts: seq<real>, cut: real, later: real)
    requires cut <= later
    ensures CountAfter(ts, later) <= CountAfter(ts, cut) <= |ts|
  {
    if ts != [] { CountAfterFalls(ts[..|ts| - 1], cut, later); }
  }

  lemma {:induction false} CountAfterAll(ts: seq<real>, cut: real)
    requires forall i | 0 <= i < |ts| :: ts[i] > cut
    ensures CountAfter(ts, cut) == |ts|
  {
    if ts != [] { CountAfterAll(ts[..|ts| - 1], cut); }
  }

  lemma {:induction false} CountAfterNone(ts: seq<real>, cut: real)
    requires forall i | 0 <= i < |ts| :: ts[i] <= cut
    ensures CountAfter(ts, cut) == 0
  {
    if ts != [] { CountAfterNone(ts[..|ts| - 1], cut); }
  }

  /** Pruning at `now` forgets nothing that a window still open at `now` can see. */
  lemma {:induction false} RecentCounts(ts: seq<real>, now: real, cut: real)
    requires now - DAY <= cut
    ensures CountAfter(Recent(ts, now, DAY), cut) == CountAfter(ts, cut)
  {
    if ts != [] {
      RecentCounts(ts[1..], now, cut);
      CountAfterAppend([ts[0]], ts[1..], cut);
      CountAfterAppend(if now - ts[0] < DAY then [ts[0]] else [], Recent(ts[1..], now, DAY), cut);
      CountAfterOne(ts[0], cut);
      assert ts == [ts[0]] + ts[1..];
    }
  }

  lemma {:induction false} RecentAllRecent(ts: seq<real>, now: real)
    ensures forall i | 0 <= i < |Recent(ts, now, DAY)| :: Recent(ts, now, DAY)[i] > now - DAY
  {
    if ts != [] { RecentAllRecent(ts[1..], now); }
  }

  lemma {:induction false} RecentLength(ts: seq<real>, now: real)
    ensures |Recent(ts, now, DAY)| == CountAfter(ts, now - DAY)
  {
    RecentAllRecent(ts, now);
    CountAfterAll(Recent(ts, now, DAY), now - DAY);
    RecentCounts(ts, now, now - DAY);
  }

  // ---------------------------------------------------------------- a bounded log of instants

  /** Non-decreasing instants, at most `cap` in the day that ends at each of them. */
  ghost predicate Bounded(ts: seq<real>, cap: nat) {
    ts == [] ||
    (&& Bounded(ts[..|ts| - 1], cap)
     && (forall i | 0 <= i < |ts| :: ts[i] <= ts[|ts| - 1])
     && CountAfter(ts, ts[|ts| - 1] - DAY) <= cap)
  }

  lemma {:induction false} CountInBelowAfter(ts: seq<real>, lo: real, hi: real)
    ensures CountIn(ts, lo, hi) <= CountAfter(ts, lo)
    ensures (forall i | 0 <= i < |ts| :: ts[i] <= hi) ==> CountIn(ts, lo, hi) == CountAfter(ts, lo)
  {
    if ts != [] { CountInBelowAfter(ts[..|ts| - 1], lo, hi); }
  }

  /** A bound on the days that end at an instant of the log is a bound on every day. */
  lemma {:induction false} BoundedWindow(ts: seq<real>, cap: nat, lo: real)
    requires Bounded(ts, cap)
    ensures CountInDay(ts, lo) <= cap
  {
    if ts != [] {
      var last := ts[|ts| - 1];
      if last <= lo + DAY {
        CountInBelowAfter(ts, lo, lo + DAY);
        CountAfterFalls(ts, last - DAY, lo);
      } else {
        BoundedWindow(ts[..|ts| - 1], cap, lo);
      }
    }
  }

  lemma {:induction false} BoundedExtend(ts: seq<real>, cap: nat, now: real)
    requires Bounded(ts, cap)
    requires forall i | 0 <= i < |ts| :: ts[i] <= now
    requires CountAfter(ts, now - DAY) < cap
    ensures Bounded(ts + [now], cap)
  {
    CountAfterAppend(ts, [now], now - DAY);
    CountAfterOne(now, now - DAY);
    assert (ts + [now])[..|ts + [now]| - 1] == ts;
  }

  // ---------------------------------------------------------------- what the counters remember of the log

  /** The drip at `i` was not given back. */
  ghost predicate Live(log: seq<Mark>, i: nat)
    requires i < |log|
  {
    log[i].Drip? && NoRefundAfter(log, i, |log|, log[i].addr)
  }

  ghost predicate CoversDay(c: Counters, log: seq<Mark>, clock: real) {
    forall cut: real | cut >= clock - DAY :: CountAfter(DripTimes(log), cut) <= CountAfter(c.globalHits, cut)
  }

  ghost predicate CoversIp(cfg: Config, c: Counters, log: seq<Mark>, clock: real) {
    forall ip: string, cut: real | cut >= clock - DAY ::
      || CountAfter(IpTimes(log, ip), cut) <= CountAfter(Hits(c, ip), cut)
      || CountAfter(c.globalHits, cut) >= cfg.dailyCap
  }

  /** The address is remembered, or the global cap stays reached for as long as it would be. */
  ghost predicate Remembers(cfg: Config, c: Counters, d: Mark)
    requires d.Drip?
  {
    || (d.addr in c.addrLast && c.addrLast[d.addr] >= d.at)
    || (cfg.addrCooldown as real <= DAY
        && forall cut: real | cut < d.at :: CountAfter(c.globalHits, cut) >= cfg.dailyCap)
  }

  ghost predicate CoversAddr(cfg: Config, c: Counters, log: seq<Mark>, clock: real) {
    forall i | 0 <= i < |log| && Live(log, i) && clock - log[i].at < cfg.addrCooldown as real ::
      Remembers(cfg, c, log[i])
  }

  /** `track` says whether the cooldown is followed too (see `Guarded`). */
  ghost predicate Covers(cfg: Config, c: Counters, log: seq<Mark>, clock: real, track: bool) {
    && CoversDay(c, log, clock)
    && CoversIp(cfg, c, log, clock)
    && (track ==> CoversAddr(cfg, c, log, clock))
  }

  ghost predicate LogPast(log: seq<Mark>, clock: real) {
    forall i | 0 <= i < |log| && log[i].Drip? :: log[i].at <= clock
  }

  /** The log is in the past and within the caps. */
  ghost predicate LogOk(cfg: Config, log: seq<Mark>, clock: real, track: bool) {
    && LogPast(log, clock)
    && Bounded(DripTimes(log), Cap(cfg.dailyCap))
    && (forall ip: string :: Bounded(IpTimes(log, ip), Cap(cfg.ipDaily)))
    && (track ==> CooldownHolds(cfg, log))
  }

  ghost predicate Inv(cfg: Config, s: Service, log: seq<Mark>, clock: real, track: bool) {
    && Covers(cfg, s.mem, log, clock, track)
    && (cfg.persistent ==> match s.file
          case NoFile => Covers(cfg, NOTHING, log, clock, track)
          case Saved(c) => Covers(cfg, c, log, clock, track)
          case Unreadable => true)
    && LogOk(cfg, log, clock, track)
  }

  lemma {:induction false} CoversLater(cfg: Config, c: Counters, log: seq<Mark>, clock: real, later: real, track: bool)
    requires Covers(cfg, c, log, clock, track) && clock <= later
    ensures Covers(cfg, c, log, later, track)
  {
  }

  lemma {:induction false} RememberedAfterPruning(cfg: Config, c: Counters, hits: seq<real>, d: Mark, now: real)
    requires d.Drip? && now - d.at < cfg.addrCooldown as real <= DAY
    requires forall cut: real | cut < d.at :: CountAfter(c.globalHits, cut) >= cfg.dailyCap
    requires hits == Recent(c.globalHits, now, DAY)
    ensures forall cut: real | cut < d.at :: CountAfter(hits, cut) >= cfg.dailyCap
  {
    forall cut: real | cut < d.at ensures CountAfter(hits, cut) >= cfg.dailyCap {
      if cut >= now - DAY {
        RecentCounts(c.globalHits, now, cut);
      } else {
        RecentCounts(c.globalHits, now, now - DAY);
        CountAfterFalls(hits, cut, now - DAY);
      }
    }
  }

  /** Counters whose lists are those of `c` pruned at `now`, and which forget no address still in its cooldown. */
  ghost predicate PrunedFrom(cfg: Config, c: Counters, p: Counters, now: real) {
    && p.globalHits == Recent(c.globalHits, now, DAY)
    && (forall ip: string :: Hits(p, ip) == Hits(c, ip) || Hits(p, ip) == Recent(Hits(c, ip), now, DAY))
    && (forall a | a in c.addrLast && now - c.addrLast[a] < cfg.addrCooldown as real ::
          a in p.addrLast && p.addrLast[a] == c.addrLast[a])
  }

  lemma {:induction false} PrunedCovers(cfg: Config, c: Counters, p: Counters, log: seq<Mark>, now: real, track: bool)
    requires Covers(cfg, c, log, now, track) && PrunedFrom(cfg, c, p, now)
    ensures Covers(cfg, p, log, now, track)
  {
    forall cut: real | cut >= now - DAY
      ensures CountAfter(p.globalHits, cut) == CountAfter(c.globalHits, cut)
    {
      RecentCounts(c.globalHits, now, cut);
    }
    forall ip: string, cut: real | cut >= now - DAY
      ensures CountAfter(Hits(p, ip), cut) == CountAfter(Hits(c, ip), cut)
    {
      RecentCounts(Hits(c, ip), now, cut);
    }
    forall i | track && 0 <= i < |log| && Live(log, i) && now - log[i].at < cfg.addrCooldown as real
      ensures Remembers(cfg, p, log[i])
    {
      assert Remembers(cfg, c, log[i]);
      if !(log[i].addr in c.addrLast && c.addrLast[log[i].addr] >= log[i].at) {
        RememberedAfterPruning(cfg, c, p.globalHits, log[i], now);
      }
    }
  }

  lemma {:induction false} SavedCovers(cfg: Config, c: Counters, log: seq<Mark>, now: real, track: bool)
    requires Covers(cfg, c, log, now, track)
    ensures Covers(cfg, Kept(cfg, c, now), log, now, track)
    ensures Covers(cfg, Loaded(cfg, c, now), log, now, track)
  {
    PrunedCovers(cfg, c, Kept(cfg, c, now), log, now, track);
    PrunedCovers(cfg, c, Loaded(cfg, c, now), log, now, track);
  }

  lemma {:induction false} TimesPast(log: seq<Mark>, ip: string, clock: real)
    requires LogPast(log, clock)
    ensures forall i | 0 <= i < |DripTimes(log)| :: DripTimes(log)[i] <= clock
    ensures forall i | 0 <= i < |IpTimes(log, ip)| :: IpTimes(log, ip)[i] <= clock
  {
    if log != [] {
      assert LogPast(log[..|log| - 1], clock);
      TimesPast(log[..|log| - 1], ip, clock);
    }
  }

  /** A start on an unreadable file: the cap reached at `now` hides whatever the lost counters held. */
  lemma {:induction false} FailClosedCovers(cfg: Config, log: seq<Mark>, now: real, track: bool)
    requires LogPast(log, now) && Bounded(DripTimes(log), Cap(cfg.dailyCap))
    requires track ==> cfg.addrCooldown as real <= DAY
    ensures Covers(cfg, FailClosed(cfg, now), log, now, track)
  {
    var c := FailClosed(cfg, now);
    forall cut: real
      ensures cut < now ==> CountAfter(c.globalHits, cut) == Cap(cfg.dailyCap)
    {
      if cut < now { CountAfterAll(c.globalHits, cut); }
    }
    forall cut: real | cut >= now - DAY
      ensures CountAfter(DripTimes(log), cut) <= CountAfter(c.globalHits, cut)
    {
      TimesPast(log, "", now);
      if cut < now {
        BoundedWindow(DripTimes(log), Cap(cfg.dailyCap), cut);
        CountInBelowAfter(DripTimes(log), cut, cut + DAY);
      } else {
        CountAfterNone(DripTimes(log), cut);
      }
    }
    forall ip: string, cut: real | cut >= now - DAY
      ensures || CountAfter(IpTimes(log, ip), cut) <= CountAfter(Hits(c, ip), cut)
              || CountAfter(c.globalHits, cut) >= cfg.dailyCap
    {
      if cut >= now {
        TimesPast(log, ip, now);
        CountAfterNone(IpTimes(log, ip), cut);
      }
    }
  }

  lemma {:induction false} DripTimesExtend(log: seq<Mark>, m: Mark, ip: string)
    ensures DripTimes(log + [m]) == DripTimes(log) + (match m case Drip(_, _, t) => [t] case _ => [])
    ensures IpTimes(log + [m], ip) ==
            IpTimes(log, ip) + (match m case Drip(_, p, t) => (if p == ip then [t] else []) case _ => [])
  {
    assert (log + [m])[..|log + [m]| - 1] == log;
  }

  lemma {:induction false} LiveShrinks(log: seq<Mark>, m: Mark, i: nat)
    requires i < |log| && Live(log + [m], i)
    ensures Live(log, i) && (log + [m])[i] == log[i]
    ensures m.Refunded? ==> log[i].addr != m.addr
  {
    var l := log + [m];
    forall k | i < k < |log| ensures log[k] != Refunded(log[i].addr) { assert l[k] == log[k]; }
    assert l[|log|] == m;
  }

  /** On a grant the global cap is not reached for any window still open, so every IP's list is complete. */
  lemma {:induction false} GrantSeesIps(cfg: Config, c: Counters, log: seq<Mark>, addr: string, ip: string, now: real,
                                        p: string, cut: real)
    requires CoversIp(cfg, c, log, now) && Decide(cfg, c, addr, ip, now).Granted? && cut >= now - DAY
    ensures CountAfter(IpTimes(log, p), cut) <= CountAfter(Hits(c, p), cut)
  {
    RecentLength(c.globalHits, now);
    CountAfterFalls(c.globalHits, now - DAY, cut);
  }

  lemma {:induction false} GrantCoversDay(c: Counters, log: seq<Mark>, addr: string, ip: string, now: real)
    requires CoversDay(c, log, now)
    ensures CoversDay(Recorded(c, addr, ip, now), log + [Drip(addr, ip, now)], now)
  {
    DripTimesExtend(log, Drip(addr, ip, now), ip);
    forall cut: real | cut >= now - DAY
      ensures CountAfter(DripTimes(log) + [now], cut) <= CountAfter(Recent(c.globalHits, now, DAY) + [now], cut)
    {
      CountAfterAppend(DripTimes(log), [now], cut);
      RecentCounts(c.globalHits, now, cut);
      CountAfterAppend(Recent(c.globalHits, now, DAY), [now], cut);
    }
  }

  lemma {:induction false} GrantCoversIp(cfg: Config, c: Counters, log: seq<Mark>, addr: string, ip: string, now: real)
    requires CoversIp(cfg, c, log, now) && Decide(cfg, c, addr, ip, now).Granted?
    ensures CoversIp(cfg, Recorded(c, addr, ip, now), log + [Drip(addr, ip, now)], now)
  {
    var c', log' := Recorded(c, addr, ip, now), log + [Drip(addr, ip, now)];
    forall p: string, cut: real | cut >= now - DAY
      ensures CountAfter(IpTimes(log', p), cut) <= CountAfter(Hits(c', p), cut)
    {
      DripTimesExtend(log, Drip(addr, ip, now), p);
      GrantSeesIps(cfg, c, log, addr, ip, now, p, cut);
      if p == ip {
        RecentCounts(Hits(c, p), now, cut);
        CountAfterAppend(IpTimes(log, p), [now], cut);
        CountAfterAppend(Recent(Hits(c, p), now, DAY), [now], cut);
      } else {
        assert IpTimes(log', p) == IpTimes(log, p);
      }
    }
  }

  lemma {:induction false} GrantCoversAddr(cfg: Config, c: Counters, log: seq<Mark>, addr: string, ip: string,
                                           now: real)
    requires CoversAddr(cfg, c, log, now) && LogPast(log, now)
    ensures CoversAddr(cfg, Recorded(c, addr, ip, now), log + [Drip(addr, ip, now)], now)
  {
    var c', log' := Recorded(c, addr, ip, now), log + [Drip(addr, ip, now)];
    var kept := Recent(c.globalHits, now, DAY);
    forall i | 0 <= i < |log'| && Live(log', i) && now - log'[i].at < cfg.addrCooldown as real
      ensures Remembers(cfg, c', log'[i])
    {
      if i < |log| && log[i].addr != addr {
        LiveShrinks(log, Drip(addr, ip, now), i);
        assert Remembers(cfg, c, log[i]);
        if !(log[i].addr in c.addrLast && c.addrLast[log[i].addr] >= log[i].at) {
          RememberedAfterPruning(cfg, c, kept, log[i], now);
          forall cut: real | cut < log[i].at ensures CountAfter(c'.globalHits, cut) >= cfg.dailyCap {
            CountAfterAppend(kept, [now], cut);
          }
        }
      }
    }
  }

  lemma {:induction false} GrantCovers(cfg: Config, c: Counters, log: seq<Mark>, addr: string, ip: string, now: real,
                                       track: bool)
    requires Covers(cfg, c, log, now, track) && LogPast(log, now)
    requires Decide(cfg, c, addr, ip, now).Granted?
    ensures Covers(cfg, Recorded(c, addr, ip, now), log + [Drip(addr, ip, now)], now, track)
  {
    GrantCoversDay(c, log, addr, ip, now);
    GrantCoversIp(cfg, c, log, addr, ip, now);
    if track { GrantCoversAddr(cfg, c, log, addr, ip, now); }
  }

  /** While a drip not given back is younger than the cooldown, its address is refused. */
  lemma {:induction false} CooldownRefuses(cfg: Config, c: Counters, log: seq<Mark>, addr: string, ip: string,
                                           now: real, i: nat)
    requires Covers(cfg, c, log, now, true)
    requires i < |log| && Live(log, i) && log[i].addr == addr
    requires now - log[i].at < cfg.addrCooldown as real
    ensures !Decide(cfg, c, addr, ip, now).Granted?
  {
    assert Remembers(cfg, c, log[i]);
    RecentLength(c.globalHits, now);
  }

  lemma {:induction false} GrantKeepsCooldown(cfg: Config, c: Counters, log: seq<Mark>, addr: string, ip: string,
                                              now: real)
    requires Covers(cfg, c, log, now, true) && CooldownHolds(cfg, log)
    requires Decide(cfg, c, addr, ip, now).Granted?
    ensures CooldownHolds(cfg, log + [Drip(addr, ip, now)])
  {
    var log' := log + [Drip(addr, ip, now)];
    forall i, j | 0 <= i < j < |log'| && log'[i].Drip? && log'[j].Drip? && log'[i].addr == log'[j].addr
                  && NoRefundAfter(log', i, j, log'[i].addr)
      ensures log'[j].at - log'[i].at >= cfg.addrCooldown as real
    {
      forall k | i < k < j ensures log[k] == log'[k] {}
      if j < |log| {
        assert NoRefundAfter(log, i, j, log[i].addr);
      } else {
        assert Live(log, i);
        if now - log[i].at < cfg.addrCooldown as real {
          CooldownRefuses(cfg, c, log, addr, ip, now, i);
        }
      }
    }
  }

  lemma {:induction false} InvLater(cfg: Config, s: Service, log: seq<Mark>, clock: real, later: real, track: bool)
    requires Inv(cfg, s, log, clock, track) && clock <= later
    ensures Inv(cfg, s, log, later, track)
  {
  }

  lemma {:induction false} GrantKeepsIpBound(cfg: Config, c: Counters, log: seq<Mark>, addr: string, ip: string,
                                             now: real, p: string)
    requires CoversIp(cfg, c, log, now) && LogPast(log, now) && Decide(cfg, c, addr, ip, now).Granted?
    requires Bounded(IpTimes(log, p), Cap(cfg.ipDaily))
    ensures Bounded(IpTimes(log + [Drip(addr, ip, now)], p), Cap(cfg.ipDaily))
  {
    DripTimesExtend(log, Drip(addr, ip, now), p);
    if p == ip {
      TimesPast(log, p, now);
      GrantSeesIps(cfg, c, log, addr, ip, now, p, now - DAY);
      RecentLength(Hits(c, p), now);
      BoundedExtend(IpTimes(log, p), Cap(cfg.ipDaily), now);
    } else {
      assert IpTimes(log + [Drip(addr, ip, now)], p) == IpTimes(log, p);
    }
  }

  lemma {:induction false} GrantKeepsDayBound(cfg: Config, c: Counters, log: seq<Mark>, addr: string, ip: string,
                                              now: real)
    requires CoversDay(c, log, now) && LogPast(log, now) && Decide(cfg, c, addr, ip, now).Granted?
    requires Bounded(DripTimes(log), Cap(cfg.dailyCap))
    ensures Bounded(DripTimes(log + [Drip(addr, ip, now)]), Cap(cfg.dailyCap))
  {
    DripTimesExtend(log, Drip(addr, ip, now), ip);
    TimesPast(log, ip, now);
    RecentLength(c.globalHits, now);
    BoundedExtend(DripTimes(log), Cap(cfg.dailyCap), now);
  }

  lemma {:induction false} GrantKeepsLog(cfg: Config, c: Counters, log: seq<Mark>, addr: string, ip: string, now: real,
                                         track: bool)
    requires Covers(cfg, c, log, now, track) && LogOk(cfg, log, now, track)
    requires Decide(cfg, c, addr, ip, now).Granted?
    ensures LogOk(cfg, log + [Drip(addr, ip, now)], now, track)
  {
    GrantKeepsDayBound(cfg, c, log, addr, ip, now);
    forall p: string ensures Bounded(IpTimes(log + [Drip(addr, ip, now)], p), Cap(cfg.ipDaily)) {
      GrantKeepsIpBound(cfg, c, log, addr, ip, now, p);
    }
    if track { GrantKeepsCooldown(cfg, c, log, addr, ip, now); }
  }

  lemma {:induction false} GrantKeeps(cfg: Config, s: Service, log: seq<Mark>, e: Event, track: bool)
    requires e.Request? && e.now <= e.savedAt && Inv(cfg, s, log, e.now, track) && Answer(cfg, s, e).Granted?
    ensures Inv(cfg, Next(cfg, s, e), log + Marks(cfg, s, e), e.savedAt, track)
  {
    var log' := log + [Drip(e.addr, e.ip, e.now)];
    var c := Recorded(s.mem, e.addr, e.ip, e.now);
    GrantCovers(cfg, s.mem, log, e.addr, e.ip, e.now, track);
    GrantKeepsLog(cfg, s.mem, log, e.addr, e.ip, e.now, track);
    CoversLater(cfg, c, log', e.now, e.savedAt, track);
    SavedCovers(cfg, c, log', e.savedAt, track);
    assert Next(cfg, s, e) == Service(c, SavedFile(cfg, s.file, c, e.savedAt));
  }

  lemma {:induction false} RefundCovers(cfg: Config, c: Counters, p: Counters, log: seq<Mark>, addr: string,
                                        clock: real, track: bool)
    requires Covers(cfg, c, log, clock, track)
    requires p.ipHits == c.ipHits && p.globalHits == c.globalHits
    requires p.addrLast == c.addrLast || p.addrLast == c.addrLast - {addr}
    ensures Covers(cfg, p, log + [Refunded(addr)], clock, track)
  {
    var log' := log + [Refunded(addr)];
    assert DripTimes(log') == DripTimes(log) by { DripTimesExtend(log, Refunded(addr), ""); }
    forall ip: string ensures IpTimes(log', ip) == IpTimes(log, ip) { DripTimesExtend(log, Refunded(addr), ip); }
    forall i | track && 0 <= i < |log'| && Live(log', i) && clock - log'[i].at < cfg.addrCooldown as real
      ensures Remembers(cfg, p, log'[i])
    {
      LiveShrinks(log, Refunded(addr), i);
      assert Remembers(cfg, c, log[i]);
    }
  }

  lemma {:induction false} RefundKeeps(cfg: Config, s: Service, log: seq<Mark>, e: Event, track: bool)
    requires e.Refund? && Inv(cfg, s, log, e.savedAt, track)
    ensures Inv(cfg, Next(cfg, s, e), log + Marks(cfg, s, e), e.savedAt, track)
  {
    var log' := log + [Refunded(e.addr)];
    var c := s.mem.(addrLast := s.mem.addrLast - {e.addr});
    RefundCovers(cfg, s.mem, c, log, e.addr, e.savedAt, track);
    SavedCovers(cfg, c, log', e.savedAt, track);
    if cfg.persistent {
      match s.file
      case NoFile => RefundCovers(cfg, NOTHING, NOTHING, log, e.addr, e.savedAt, track);
      case Saved(f) => RefundCovers(cfg, f, f, log, e.addr, e.savedAt, track);
      case Unreadable =>
    }
    forall ip: string ensures IpTimes(log', ip) == IpTimes(log, ip) {
      DripTimesExtend(log, Refunded(e.addr), ip);
    }
    assert DripTimes(log') == DripTimes(log) by { DripTimesExtend(log, Refunded(e.addr), ""); }
    if track { RefundKeepsCooldown(cfg, log, e.addr); }
  }

  lemma {:induction false} RefundKeepsCooldown(cfg: Config, log: seq<Mark>, addr: string)
    requires CooldownHolds(cfg, log)
    ensures CooldownHolds(cfg, log + [Refunded(addr)])
  {
    var log' := log + [Refunded(addr)];
    forall i, j | 0 <= i < j < |log'| && log'[i].Drip? && log'[j].Drip? && log'[i].addr == log'[j].addr
                  && NoRefundAfter(log', i, j, log'[i].addr)
      ensures log'[j].at - log'[i].at >= cfg.addrCooldown as real
    {
      forall k | i < k < j ensures log[k] == log'[k] {}
      assert NoRefundAfter(log, i, j, log[i].addr);
    }
  }

  lemma {:induction false} RestartKeeps(cfg: Config, s: Service, log: seq<Mark>, now: real, track: bool)
    requires Inv(cfg, s, log, now, track) && cfg.persistent
    requires s.file.Unreadable? && track ==> cfg.addrCooldown as real <= DAY
    ensures Inv(cfg, Next(cfg, s, Restart(now)), log, now, track)
  {
    match s.file
    case NoFile =>
    case Saved(c) => SavedCovers(cfg, c, log, now, track);
    case Unreadable => FailClosedCovers(cfg, log, now, track);
  }

  /** Every event keeps what the counters remember of the log, in memory and in the file. */
  lemma {:induction false} StepKeeps(cfg: Config, s: Service, log: seq<Mark>, clock: real, e: Event, track: bool)
    requires Inv(cfg, s, log, clock, track) && Timely(cfg, e, clock)
    requires s.file.Unreadable? && track ==> cfg.addrCooldown as real <= DAY
    ensures Inv(cfg, Next(cfg, s, e), log + Marks(cfg, s, e), Ends(e, clock), track)
  {
    assert log + [] == log;
    match e {
      case Request(addr, ip, now, savedAt, saveOk) =>
        InvLater(cfg, s, log, clock, now, track);
        if Answer(cfg, s, e).Granted? {
          GrantKeeps(cfg, s, log, e, track);
        } else {
          var p := s.mem.(globalHits := Recent(s.mem.globalHits, now, DAY));
          PrunedCovers(cfg, s.mem, p, log, now, track);
          InvLater(cfg, Next(cfg, s, e), log, now, savedAt, track);
        }
      case Refund(_, savedAt, _) =>
        InvLater(cfg, s, log, clock, savedAt, track);
        RefundKeeps(cfg, s, log, e, track);
      case Restart(now) =>
        InvLater(cfg, s, log, clock, now, track);
        RestartKeeps(cfg, s, log, now, track);
      case Damage =>
    }
  }

  /** Over the whole run the cooldown is at most a day, or the state file is never damaged. */
  predicate Guarded(cfg: Config, es: seq<Event>) {
    cfg.addrCooldown as real <= DAY || Damage !in es
  }

  lemma {:induction false} FileReadable(cfg: Config, es: seq<Event>)
    requires Damage !in es
    ensures !After(cfg, es).file.Unreadable?
  {
    if es != [] {
      assert es[|es| - 1] in es;
      FileReadable(cfg, es[..|es| - 1]);
    }
  }

  lemma {:induction false} RunKeeps(cfg: Config, es: seq<Event>, track: bool)
    requires Legal(cfg, es) && (track ==> Guarded(cfg, es))
    ensures Inv(cfg, After(cfg, es), Log(cfg, es), Clock(es), track)
  {
    if es == [] {
      assert CoversDay(NOTHING, [], 0.0);
    } else {
      var pre, e := es[..|es| - 1], es[|es| - 1];
      RunKeeps(cfg, pre, track);
      if Damage !in es { FileReadable(cfg, pre); }
      StepKeeps(cfg, After(cfg, pre), Log(cfg, pre), Clock(pre), e, track);
    }
  }

  lemma {:induction false} BoundedLogHolds(cfg: Config, log: seq<Mark>)
    requires Bounded(DripTimes(log), Cap(cfg.dailyCap))
    requires forall ip: string :: Bounded(IpTimes(log, ip), Cap(cfg.ipDaily))
    ensures WindowsHold(cfg, log)
  {
    forall lo: real ensures CountInDay(DripTimes(log), lo) <= Cap(cfg.dailyCap) {
      BoundedWindow(DripTimes(log), Cap(cfg.dailyCap), lo);
    }
    forall ip: string, lo: real ensures CountInDay(IpTimes(log, ip), lo) <= Cap(cfg.ipDaily) {
      BoundedWindow(IpTimes(log, ip), Cap(cfg.ipDaily), lo);
    }
  }

  /** Main result: over every run of requests, refunds, failed saves, restarts and damaged files, no day holds
      more drips than the daily cap and none more than the quota for one IP; and no address is served twice
      within its cooldown without a refund between, when the cooldown is at most a day or the file is never
      damaged. */
  lemma {:induction false} CapsHoldOverEveryRun(cfg: Config, es: seq<Event>)
    requires Legal(cfg, es)
    ensures WindowsHold(cfg, Log(cfg, es))
    ensures Guarded(cfg, es) ==> CooldownHolds(cfg, Log(cfg, es))
  {
    RunKeeps(cfg, es, Guarded(cfg, es));
    BoundedLogHolds(cfg, Log(cfg, es));
  }

  lemma {:induction false} FailClosedReopens(cfg: Config, addr: string, ip: string, t: real)
    requires cfg.ipDaily > 0 && cfg.dailyCap > 0 && t + DAY >= cfg.addrCooldown as real
    ensures Decide(cfg, FailClosed(cfg, t), addr, ip, t + DAY).Granted?
  {
    var c := FailClosed(cfg, t);
    RecentLength(c.globalHits, t + DAY);
    CountAfterNone(c.globalHits, t);
  }

  /** A cooldown longer than a day is forgotten by a start on an unreadable file: the address is served again
      once the day of the failed-closed cap is over. */
  lemma {:induction false} LongCooldownForgotten(cfg: Config, addr: string, ip: string) returns (es: seq<Event>)
    requires cfg.persistent && cfg.ipDaily > 0 && cfg.dailyCap > 0 && cfg.addrCooldown as real > DAY
    ensures Legal(cfg, es) && !CooldownHolds(cfg, Log(cfg, es))
  {
    var t := cfg.addrCooldown as real;
    var r1, r2 := Request(addr, ip, t, t, true), Request(addr, ip, t + DAY, t + DAY, true);
    var e1, e2, e3 := [r1], [r1, Damage], [r1, Damage, Restart(t)];
    es := [r1, Damage, Restart(t), r2];
    assert e1[..0] == [] && e2[..1] == e1 && e3[..2] == e2 && es[..3] == e3;
    assert Log(cfg, e1) == [Drip(addr, ip, t)] && Legal(cfg, e1);
    assert Log(cfg, e2) == [Drip(addr, ip, t)] && Legal(cfg, e2);
    assert Log(cfg, e3) == [Drip(addr, ip, t)] && Legal(cfg, e3);
    assert After(cfg, e3).mem == FailClosed(cfg, t) by { assert After(cfg, e2).file == Unreadable; }
    FailClosedReopens(cfg, addr, ip, t);
    var log := Log(cfg, es);
    assert log == [Drip(addr, ip, t), Drip(addr, ip, t + DAY)];
    assert NoRefundAfter(log, 0, 1, addr);
    assert log[1].at - log[0].at < cfg.addrCooldown as real;
  }

  /** Exactly when the cooldown survives everything that can happen to a service that grants at all. */
  lemma {:induction false} CooldownHoldsExactlyWhen(cfg: Config)
    requires cfg.persistent && cfg.ipDaily > 0 && cfg.dailyCap > 0
    ensures (forall es | Legal(cfg, es) :: CooldownHolds(cfg, Log(cfg, es))) <==> cfg.addrCooldown as real <= DAY
  {
    if cfg.addrCooldown as real <= DAY {
      forall es | Legal(cfg, es) ensures CooldownHolds(cfg, Log(cfg, es)) {
        CapsHoldOverEveryRun(cfg, es);
      }
    } else {
      var es := LongCooldownForgotten(cfg, "a", "i");
    }
  }

  // ---------------------------------------------------------------- the service itself

  lemma {:induction false} RestoreKey<V>(m: map<string, V>, k: string, v: V)
    ensures k in m ==> m[k := v][k := m[k]] == m
    ensures k !in m ==> m[k := v] - {k} == m
  {
  }

  class FaucetService {
    const cfg: Config
    var addrLast: map<string, real>
    var ipHits: map<string, seq<real>>
    var globalHits: seq<real>
    var file: StateFile

    ghost function Value(): Service
      reads this
    {
      Service(Counters(addrLast, ipHits, globalHits), file)
    }

    /** A start: empty counters, then whatever the file gives back. */
    constructor (cfg: Config, file: StateFile, now: real)
      ensures this.cfg == cfg && Value() == Service(Started(cfg, file, now), file)
    {
      this.cfg := cfg;
      this.file := file;
      addrLast, ipHits, globalHits := map[], map[], [];
      new;
      LoadState(now);
    }

    method LoadState(now: real)
      requires Value().mem == NOTHING
      modifies this
      ensures Value() == Service(Started(cfg, old(file), now), old(file))
    {
      match file
      case NoFile =>
      case Unreadable =>
        globalHits := globalHits + seq(Cap(cfg.dailyCap), _ => now);
      case Saved(d) =>
        addrLast := map a | a in d.addrLast && now - d.addrLast[a] < cfg.addrCooldown as real :: d.addrLast[a];
        ipHits := map ip | ip in d.ipHits && Recent(d.ipHits[ip], now, DAY) != [] :: Recent(d.ipHits[ip], now, DAY);
        globalHits := globalHits + Recent(d.globalHits, now, DAY);
    }

    /** Returns whether the write raised; the file is then as it was. */
    method SaveState(now: real, writeOk: bool) returns (raised: bool)
      modifies this`file
      ensures raised == (cfg.persistent && !writeOk)
      ensures file == if raised then old(file) else SavedFile(cfg, old(file), Value().mem, now)
    {
      if !cfg.persistent {
        return false;
      }
      var data := Counters(
        map a | a in addrLast && now - addrLast[a] < cfg.addrCooldown as real :: addrLast[a],
        map ip | ip in ipHits :: Recent(ipHits[ip], now, DAY),
        Recent(globalHits, now, DAY));
      if !writeOk {
        return true;
      }
      file := Saved(data);
      return false;
    }

    /** Authorises and records a drip, and leaves memory as it was, up to pruning, when the save fails. */
    method RateOk(addr: string, ip: string, now: real, savedAt: real, writeOk: bool) returns (v: Verdict)
      modifies this
      ensures v == Answer(cfg, old(Value()), Request(addr, ip, now, savedAt, writeOk))
      ensures Value() == Next(cfg, old(Value()), Request(addr, ip, now, savedAt, writeOk))
      ensures v.SaveFailed? ==> && addrLast == old(addrLast) && ipHits == old(ipHits) && file == old(file)
                                && globalHits == Recent(old(globalHits), now, DAY)
    {
      if now - (if addr in addrLast then addrLast[addr] else 0.0) < cfg.addrCooldown as real {
        return AddrCooldown;
      }
      var hits := Recent(if ip in ipHits then ipHits[ip] else [], now, DAY);
      if |hits| >= cfg.ipDaily {
        return IpQuota;
      }
      globalHits := Recent(globalHits, now, DAY);
      if |globalHits| >= cfg.dailyCap {
        return GlobalCap;
      }
      var hadAddr, hadIp := addr in addrLast, ip in ipHits;
      var beforeAddr := if hadAddr then addrLast[addr] else 0.0;
      var beforeIp := if hadIp then ipHits[ip] else [];
      addrLast := addrLast[addr := now];
      hits := hits + [now];
      ipHits := ipHits[ip := hits];
      globalHits := globalHits + [now];
      RestoreKey(old(addrLast), addr, now);
      RestoreKey(old(ipHits), ip, hits);
      var raised := SaveState(savedAt, writeOk);
      if raised {
        addrLast := if hadAddr then addrLast[addr := beforeAddr] else addrLast - {addr};
        ipHits := if hadIp then ipHits[ip := beforeIp] else ipHits - {ip};
        globalHits := globalHits[..|globalHits| - 1];
        return SaveFailed;
      }
      return Granted;
    }

    /** Gives back the address's cooldown and nothing else; a failed save keeps it in memory. */
    method RateRefund(addr: string, savedAt: real, writeOk: bool)
      modifies this
      ensures Value() == Next(cfg, old(Value()), Refund(addr, savedAt, writeOk))
      ensures ipHits == old(ipHits) && globalHits == old(globalHits)
    {
      addrLast := addrLast - {addr};
      var _ := SaveState(savedAt, writeOk);
    }
  }
}
