/** The season's rule sets: the values each amendment fixed, the registry that fixes the last two sets at run time,
    the set in force on a day, and the block window of a day. */
module SeasonRules {
  import opened Wrappers

  /** Decision 24: the judge presence reward, the probation share and the kit floor, which travel together. */
  datatype KitKeys = KitKeys(judgeActivePerDay: nat, probationBps: nat, kitMin: nat)

  /** A period of controlled-fault requests and its commitment. */
  datatype Period = Period(fromDay: int, toDay: int, commitment: string)

  datatype JuryKeys = JuryKeys(periods: seq<Period>, payer: string)

  datatype RuleSet = RuleSet(dayBlocks: nat, presencePerWindow: nat, presenceMaxWindows: nat, workPerRequest: nat,
                             jurorPerVerdict: nat, capDay: nat, capSeason: nat, requestsPerDay: nat,
                             paysUnwoundWork: bool, kit: Option<KitKeys>, jury: Option<JuryKeys>)

  const UDNDR: nat := 1_000_000
  const RULES_17 := RuleSet(17_280, 2_000, 50, 50_000, 8_000, 50 * UDNDR, 1_500 * UDNDR, 600, false, None, None)
  const RULES := RULES_17.(paysUnwoundWork := true)
  const RULES_DOUBLED := RULES.(presencePerWindow := 4_000, workPerRequest := 100_000, jurorPerVerdict := 16_000,
                                capDay := 100 * UDNDR, capSeason := 3_000 * UDNDR)
  const RULES_MORE_REQUESTS := RULES_DOUBLED.(requestsPerDay := 900)
  const PUBLISHED_SETS := [RULES_17, RULES, RULES_DOUBLED, RULES_MORE_REQUESTS]

  function KitRules(kitMin: int): Result<RuleSet> {
    if kitMin < 1 then Refused else Ok(RULES_MORE_REQUESTS.(kit := Some(KitKeys(500_000, 6_000, kitMin))))
  }

  // ---------------------------------------------------------------- the fault periods

  predicate IsHex64(s: string) { |s| == 64 && forall c | c in s :: '0' <= c <= '9' || 'a' <= c <= 'f' }

  /** An account address: `dendra1` and 38 to 58 lower-case letters and digits. */
  predicate IsPayer(s: string) {
    && "dendra1" <= s && 38 <= |s| - 7 <= 58
    && forall i | 7 <= i < |s| :: '0' <= s[i] <= '9' || 'a' <= s[i] <= 'z'
  }

  predicate PeriodOk(p: Period) { 0 <= p.fromDay <= p.toDay && IsHex64(p.commitment) }

  /** At least one period, each sound, in order, disjoint, no commitment twice. */
  predicate PeriodsOk(ps: seq<Period>) {
    && ps != []
    && (forall i | 0 <= i < |ps| :: PeriodOk(ps[i]))
    && (forall i, j | 0 <= i < j < |ps| :: ps[i].toDay < ps[j].fromDay && ps[i].commitment != ps[j].commitment)
  }

  /** Accepts exactly the period lists in which every day has at most one period. */
  method CheckFaultPeriods(ps: seq<Period>) returns (r: Result<seq<Period>>)
    ensures r == if PeriodsOk(ps) then Ok(ps) else Refused
  {
    if ps == [] {
      return Refused;
    }
    var last, seen: set<string> := -1, {};
    for n := 0 to |ps|
      invariant forall i | 0 <= i < n :: PeriodOk(ps[i])
      invariant forall i, j | 0 <= i < j < n :: ps[i].toDay < ps[j].fromDay && ps[i].commitment != ps[j].commitment
      invariant last == if n == 0 then -1 else ps[n - 1].toDay
      invariant forall i | 0 <= i < n :: ps[i].toDay <= last
      invariant seen == set i | 0 <= i < n :: ps[i].commitment
    {
      if !(0 <= ps[n].fromDay <= ps[n].toDay) || !IsHex64(ps[n].commitment) {
        assert !PeriodOk(ps[n]);
        return Refused;
      }
      if ps[n].fromDay <= last || ps[n].commitment in seen {
        if ps[n].commitment in seen {
          var i :| 0 <= i < n && ps[i].commitment == ps[n].commitment;
        } else {
          assert ps[n - 1].toDay >= ps[n].fromDay;
        }
        return Refused;
      }
      last := ps[n].toDay;
      seen := seen + {ps[n].commitment};
    }
    return Ok(ps);
  }

  /** A day lies in at most one period. */
  lemma {:induction false} OnePeriodPerDay(ps: seq<Period>, i: nat, j: nat, day: int)
    requires PeriodsOk(ps) && i < |ps| && j < |ps|
    requires ps[i].fromDay <= day <= ps[i].toDay && ps[j].fromDay <= day <= ps[j].toDay
    ensures i == j
  {
  }

  function JuryRules(kitMin: int, periods: seq<Period>, payer: string): Result<RuleSet> {
    if !PeriodsOk(periods) || !IsPayer(payer) || KitRules(kitMin).Refused? then Refused
    else Ok(KitRules(kitMin).value.(jury := Some(JuryKeys(periods, payer))))
  }

  // ---------------------------------------------------------------- the registry

  /** The globals of the module: what is fixed, and every set published in the order they took effect. */
  datatype Fixed = Fixed(kitMin: Option<int>, periods: Option<seq<Period>>, payer: Option<string>,
                         kit: Option<RuleSet>, jury: Option<RuleSet>, history: seq<RuleSet>)

  function HistoryOf(kit: Option<RuleSet>, jury: Option<RuleSet>): seq<RuleSet> {
    PUBLISHED_SETS + (if kit.Some? then [kit.value] else []) + (if jury.Some? then [jury.value] else [])
  }

  /** The sets are the ones their keys build, and the history lists them. */
  predicate Consistent(f: Fixed) {
    && (f.periods.Some? ==> PeriodsOk(f.periods.value)) && (f.payer.Some? ==> IsPayer(f.payer.value))
    && (f.kitMin.None? ==> f.kit.None? && f.jury.None?)
    && (f.kitMin.Some? ==> KitRules(f.kitMin.value).Ok? && f.kit == Some(KitRules(f.kitMin.value).value))
    && (f.jury.Some? <==> f.kitMin.Some? && f.periods.Some? && f.payer.Some?)
    && (f.jury.Some? ==> Ok(f.jury.value) == JuryRules(f.kitMin.value, f.periods.value, f.payer.value))
    && f.history == HistoryOf(f.kit, f.jury)
  }

  /** What an environment names at import. */
  function AtImport(kitMin: Option<int>, periods: Option<seq<Period>>, payer: Option<string>): (f: Fixed)
    requires kitMin.Some? ==> kitMin.value >= 1
    requires periods.Some? ==> PeriodsOk(periods.value)
    requires payer.Some? ==> IsPayer(payer.value)
    ensures Consistent(f)
  {
    var kit := if kitMin.Some? then Some(KitRules(kitMin.value).value) else None;
    var jury := if kitMin.Some? && periods.Some? && payer.Some?
                then Some(JuryRules(kitMin.value, periods.value, payer.value).value) else None;
    Fixed(kitMin, periods, payer, kit, jury, HistoryOf(kit, jury))
  }

  datatype Call =
    | SetKitMin(kitMin: int)
    | SetFaultCommitments(periods: seq<Period>, payer: string)
    | JurySetNamed(kitMin: int, periods: seq<Period>, payer: string, fp: string)

  type Fingerprint = RuleSet -> string

  /** `set_kit_min`: the floor, its set, and the jury set when its own keys are already named. */
  function WithKitMin(f: Fixed, k: int): Fixed {
    if KitRules(k).Refused? || (f.kitMin.Some? && f.kitMin.value != k) then f
    else
      var jury := if f.jury.None? && f.periods.Some? && f.payer.Some?
                  then ToOption(JuryRules(k, f.periods.value, f.payer.value)) else f.jury;
      var kit := ToOption(KitRules(k));
      f.(kitMin := Some(k), kit := kit, jury := jury, history := HistoryOf(kit, jury))
  }

  predicate RefusesFaults(f: Fixed, ps: seq<Period>, payer: string) {
    || f.kitMin.None? || JuryRules(f.kitMin.value, ps, payer).Refused?
    || (f.periods.Some? && f.periods.value != ps) || (f.payer.Some? && f.payer.value != payer)
  }

  /** `set_fault_commitments`: the periods, the payer and the jury set, once the floor is fixed. */
  function WithFaults(f: Fixed, ps: seq<Period>, payer: string): Fixed {
    if RefusesFaults(f, ps, payer) then f
    else
      var jury := ToOption(JuryRules(f.kitMin.value, ps, payer));
      f.(periods := Some(ps), payer := Some(payer), jury := jury, history := HistoryOf(f.kit, jury))
  }

  /** What each call leaves fixed. */
  function Apply(fp: Fingerprint, f: Fixed, c: Call): Fixed {
    match c
    case SetKitMin(k) => WithKitMin(f, k)
    case SetFaultCommitments(ps, payer) => WithFaults(f, ps, payer)
    case JurySetNamed(k, ps, payer, name) =>
      if f.jury.Some? || NamedSet(fp, f, k, ps, payer, name).None? then f
      else WithFaults(if f.kitMin.None? then WithKitMin(f, k) else f, ps, payer)
  }

  /** The set a status names, when its keys build the set of that fingerprint and nothing fixed says otherwise. */
  function NamedSet(fp: Fingerprint, f: Fixed, k: int, ps: seq<Period>, payer: string, name: string): Option<RuleSet> {
    var built := JuryRules(k, ps, payer);
    if built.Refused? || fp(built.value) != name then None
    else if f.jury.Some? then (if fp(f.jury.value) == name then f.jury else None)
    else if f.kitMin.Some? && f.kitMin.value != k then None
    else if (f.periods.Some? && f.periods.value != ps) || (f.payer.Some? && f.payer.value != payer) then None
    else ToOption(built)
  }

  function Run(fp: Fingerprint, f: Fixed, calls: seq<Call>): Fixed {
    if calls == [] then f else Apply(fp, Run(fp, f, calls[..|calls| - 1]), calls[|calls| - 1])
  }

  /** `g` keeps everything `f` fixed, and every set it published at its place. */
  ghost predicate Keeps(f: Fixed, g: Fixed) {
    && (f.kitMin.Some? ==> g.kitMin == f.kitMin) && (f.periods.Some? ==> g.periods == f.periods)
    && (f.payer.Some? ==> g.payer == f.payer) && (f.kit.Some? ==> g.kit == f.kit) && (f.jury.Some? ==> g.jury == f.jury)
    && f.history <= g.history
  }

  lemma {:induction false} KitMinKeeps(f: Fixed, k: int)
    requires Consistent(f)
    ensures Consistent(WithKitMin(f, k)) && Keeps(f, WithKitMin(f, k))
  {
  }

  lemma {:induction false} FaultsKeep(f: Fixed, ps: seq<Period>, payer: string)
    requires Consistent(f)
    ensures Consistent(WithFaults(f, ps, payer)) && Keeps(f, WithFaults(f, ps, payer))
  {
  }

  lemma {:induction false} ApplyKeeps(fp: Fingerprint, f: Fixed, c: Call)
    requires Consistent(f)
    ensures Consistent(Apply(fp, f, c)) && Keeps(f, Apply(fp, f, c))
  {
    match c
    case SetKitMin(k) => KitMinKeeps(f, k);
    case SetFaultCommitments(ps, payer) => FaultsKeep(f, ps, payer);
    case JurySetNamed(k, ps, payer, name) =>
      KitMinKeeps(f, k);
      FaultsKeep(f, ps, payer);
      FaultsKeep(WithKitMin(f, k), ps, payer);
  }

  /** Main result: over every sequence of calls the registry only grows. */
  lemma {:induction false} RegistryOnlyGrows(fp: Fingerprint, f: Fixed, calls: seq<Call>)
    requires Consistent(f)
    ensures Consistent(Run(fp, f, calls)) && Keeps(f, Run(fp, f, calls))
  {
    if calls != [] {
      RegistryOnlyGrows(fp, f, calls[..|calls| - 1]);
      ApplyKeeps(fp, Run(fp, f, calls[..|calls| - 1]), calls[|calls| - 1]);
    }
  }

  /** The whole set a fingerprint names is fixed, or nothing is. */
  lemma {:induction false} NamedFixesAllOrNothing(fp: Fingerprint, f: Fixed, k: int, ps: seq<Period>, payer: string,
                                                  name: string)
    requires Consistent(f)
    ensures var g, r := Apply(fp, f, JurySetNamed(k, ps, payer, name)), NamedSet(fp, f, k, ps, payer, name);
            if r.None? then g == f
            else g.jury == r && fp(r.value) == name && (g != f ==>
              g.kitMin == Some(k) && g.periods == Some(ps) && g.payer == Some(payer))
  {
  }

  /** The position of a fingerprint in the history: the first set that has it. */
  function RuleSetOf(fp: Fingerprint, history: seq<RuleSet>, name: string): (r: Option<nat>)
    ensures r.Some? ==> r.value < |history| && fp(history[r.value]) == name && forall i | 0 <= i < r.value ::
            fp(history[i]) != name
    ensures r.None? ==> forall i | 0 <= i < |history| :: fp(history[i]) != name
  {
    if history == [] then None
    else
      var r := RuleSetOf(fp, history[..|history| - 1], name);
      if r.Some? then r
      else if fp(history[|history| - 1]) == name then Some(|history| - 1)
      else None
  }

  /** Main result: a fingerprint once found names the same set at the same position after any calls. */
  lemma {:induction false} FoundStaysFound(fp: Fingerprint, f: Fixed, calls: seq<Call>, name: string)
    requires Consistent(f) && RuleSetOf(fp, f.history, name).Some?
    ensures var n := RuleSetOf(fp, f.history, name).value;
            && RuleSetOf(fp, Run(fp, f, calls).history, name) == Some(n)
            && n < |Run(fp, f, calls).history| && Run(fp, f, calls).history[n] == f.history[n]
  {
    RegistryOnlyGrows(fp, f, calls);
    var h := Run(fp, f, calls).history;
    var n, m := RuleSetOf(fp, f.history, name).value, RuleSetOf(fp, h, name);
    assert h[n] == f.history[n];
    assert forall i | 0 <= i <= n :: h[i] == f.history[i];
  }

  // ---------------------------------------------------------------- the registry itself

  class RuleRegistry {
    const fp: Fingerprint
    var kitMin: Option<int>
    var periods: Option<seq<Period>>
    var payer: Option<string>
    var rulesKit: Option<RuleSet>
    var rulesJury: Option<RuleSet>
    var history: seq<RuleSet>

    ghost function Value(): Fixed
      reads this
    {
      Fixed(kitMin, periods, payer, rulesKit, rulesJury, history)
    }

    constructor (fp: Fingerprint, kitMin: Option<int>, periods: Option<seq<Period>>, payer: Option<string>)
      requires kitMin.Some? ==> kitMin.value >= 1
      requires periods.Some? ==> PeriodsOk(periods.value)
      requires payer.Some? ==> IsPayer(payer.value)
      ensures this.fp == fp && Value() == AtImport(kitMin, periods, payer) && Consistent(Value())
    {
      var f := AtImport(kitMin, periods, payer);
      this.fp, this.kitMin, this.periods, this.payer := fp, kitMin, periods, payer;
      rulesKit, rulesJury, history := f.kit, f.jury, f.history;
    }

    /** Fixes the floor; a floor already fixed to another number is refused and changes nothing. */
    method SetKitMin(k: int) returns (r: Result<RuleSet>)
      requires Consistent(Value())
      modifies this
      ensures Value() == Apply(fp, old(Value()), Call.SetKitMin(k))
      ensures r.Refused? ==> Value() == old(Value())
      ensures r.Ok? ==> kitMin == Some(k) && rulesKit == Some(r.value)
    {
      var rules := KitRules(k);
      if rules.Refused? || (kitMin.Some? && kitMin.value != k) {
        return Refused;
      }
      kitMin, rulesKit := Some(k), Some(rules.value);
      if rulesJury.None? && periods.Some? && payer.Some? {
        rulesJury := ToOption(JuryRules(k, periods.value, payer.value));
      }
      history := PUBLISHED_SETS + [rules.value] + (if rulesJury.None? then [] else [rulesJury.value]);
      return rules;
    }

    /** Fixes the periods and the payer; values already fixed to others are refused and change nothing. */
    method SetFaultCommitments(ps: seq<Period>, p: string) returns (r: Result<RuleSet>)
      requires Consistent(Value())
      modifies this
      ensures Value() == Apply(fp, old(Value()), Call.SetFaultCommitments(ps, p))
      ensures r.Refused? <==> RefusesFaults(old(Value()), ps, p)
      ensures r.Refused? ==> Value() == old(Value())
      ensures r.Ok? ==> rulesJury == Some(r.value) && periods == Some(ps) && payer == Some(p)
    {
      if kitMin.None? {
        return Refused;
      }
      var checked := CheckFaultPeriods(ps);
      if checked.Refused? {
        return Refused;
      }
      var rules := JuryRules(kitMin.value, ps, p);
      if rules.Refused? || (periods.Some? && periods.value != ps) || (payer.Some? && payer.value != p) {
        return Refused;
      }
      periods, payer, rulesJury := Some(ps), Some(p), Some(rules.value);
      history := PUBLISHED_SETS + [rulesKit.value, rulesJury.value];
      return rules;
    }

    /** Fixes the set a status names when its fingerprint binds its keys, and nothing otherwise. */
    method JurySetNamed(k: int, ps: seq<Period>, p: string, name: string) returns (r: Option<RuleSet>)
      requires Consistent(Value())
      modifies this
      ensures Value() == Apply(fp, old(Value()), Call.JurySetNamed(k, ps, p, name))
      ensures r == NamedSet(fp, old(Value()), k, ps, p, name)
    {
      var built := JuryRules(k, ps, p);
      if built.Refused? || fp(built.value) != name {
        return None;
      }
      if rulesJury.Some? {
        return if fp(rulesJury.value) == name then rulesJury else None;
      }
      if kitMin.Some? && kitMin.value != k {
        return None;
      }
      if (periods.Some? && periods.value != ps) || (payer.Some? && payer.value != p) {
        return None;
      }
      if kitMin.None? {
        KitMinKeeps(Value(), k);
        var _ := SetKitMin(k);
      }
      var set_ := SetFaultCommitments(ps, p);
      return ToOption(set_);
    }
  }

  // ---------------------------------------------------------------- the set of a day

  /** The first day of each set after RULES_17, as the service fixed them. */
  datatype Firsts = Firsts(unwound: Option<int>, doubled: Option<int>, more: Option<int>, kit: Option<int>,
    jury: Option<int>)

  /** A set takes effect only on a season day, and never without the one before it or before its first day. */
  predicate Follows(first: Option<int>, before: Option<int>) {
    first.Some? ==> first.value >= 0 && before.Some? && before.value <= first.value
  }

  predicate FirstsOk(t: Firsts) {
    && (t.unwound.Some? ==> t.unwound.value >= 0)
    && Follows(t.doubled, t.unwound) && Follows(t.more, t.doubled) && Follows(t.kit, t.more)
  }

  predicate Begun(first: Option<int>, day: int) { first.Some? && day >= first.value }

  function RulesForDay(f: Fixed, t: Firsts, day: int): Result<RuleSet> {
    if day < 0 || !FirstsOk(t) then Refused
    else if Begun(t.kit, day) then (if f.kit.None? then Refused else Ok(f.kit.value))
    else if Begun(t.more, day) then Ok(RULES_MORE_REQUESTS)
    else if Begun(t.doubled, day) then Ok(RULES_DOUBLED)
    else if t.unwound.None? then Ok(RULES_17)
    else if day >= t.unwound.value then Ok(RULES) else Ok(RULES_17)
  }

  function WithJuryRules(f: Fixed, t: Firsts, day: int, rules: RuleSet): Result<RuleSet> {
    if t.jury.None? then Ok(rules)
    else if !Follows(t.jury, t.kit) then Refused
    else if day < t.jury.value then Ok(rules)
    else if f.jury.None? then Refused
    else Ok(f.jury.value)
  }

  function RulesForDayWithJury(f: Fixed, t: Firsts, day: int): Result<RuleSet> {
    var r := RulesForDay(f, t, day);
    if r.Refused? then Refused else WithJuryRules(f, t, day, r.value)
  }

  /** The place in the history of the set of `day`: how many of the later sets have begun. */
  function Position(t: Firsts, day: int): nat {
    if Begun(t.jury, day) then 5 else if Begun(t.kit, day) then 4 else if Begun(t.more, day) then 3
    else if Begun(t.doubled, day) then 2 else if Begun(t.unwound, day) then 1 else 0
  }

  /** The set of a day is the one at its position, and the position never goes back from a day to a later one. */
  lemma {:induction false} SetsNeverGoBack(f: Fixed, t: Firsts, day: int, later: int)
    requires Consistent(f) && day <= later
    requires RulesForDayWithJury(f, t, day).Ok? && RulesForDayWithJury(f, t, later).Ok?
    ensures Position(t, day) <= Position(t, later) < |f.history|
    ensures RulesForDayWithJury(f, t, day) == Ok(f.history[Position(t, day)])
    ensures RulesForDayWithJury(f, t, later) == Ok(f.history[Position(t, later)])
  {
  }

  /** Along the history the caps never fall, and the length of a day never changes. */
  lemma {:induction false} CapsNeverFall(f: Fixed, i: nat, j: nat)
    requires Consistent(f) && i <= j < |f.history|
    ensures f.history[i].capSeason <= f.history[j].capSeason && f.history[i].capDay <= f.history[j].capDay
    ensures f.history[i].dayBlocks == f.history[j].dayBlocks == RULES_17.dayBlocks
  {
  }

  /** Main result: a day once ranked keeps its set whatever is fixed afterwards. */
  lemma {:induction false} RankedDayKeepsItsSet(fp: Fingerprint, f: Fixed, calls: seq<Call>, t: Firsts, day: int)
    requires Consistent(f) && RulesForDayWithJury(f, t, day).Ok?
    ensures RulesForDayWithJury(Run(fp, f, calls), t, day) == RulesForDayWithJury(f, t, day)
  {
    RegistryOnlyGrows(fp, f, calls);
  }

  /** What each set changes of the one before it, and nothing else: the unwound work is paid; every rate and cap is
      doubled; a day has half as many requests again; the kit keys; the jury keys. */
  lemma {:induction false} EachSetChanges(f: Fixed)
    requires Consistent(f)
    ensures |f.history| >= 4
    ensures var a, b, c, d := f.history[0], f.history[1], f.history[2], f.history[3];
            && !a.paysUnwoundWork && b == a.(paysUnwoundWork := true)
            && c == b.(presencePerWindow := 2 * b.presencePerWindow, workPerRequest := 2 * b.workPerRequest,
                       jurorPerVerdict := 2 * b.jurorPerVerdict, capDay := 2 * b.capDay, capSeason := 2 * b.capSeason)
            && d == c.(requestsPerDay := c.requestsPerDay + c.requestsPerDay / 2)
            && (f.kit.Some? ==> f.kit.value == d.(kit := f.kit.value.kit) && f.kit.value.kit.Some? && d.kit.None?)
            && (f.jury.Some? ==>
                  f.kit.Some? && f.jury.value == f.kit.value.(jury := f.jury.value.jury) && f.jury.value.jury.Some?)
    ensures forall n | 0 <= n < |f.history| :: f.history[n].capSeason == 30 * f.history[n].capDay
  {
    SetAt(f);
  }

  // ---------------------------------------------------------------- exactly which set a day has

  /** The first days in the order of the sets; the first set is there from day 0. */
  function FirstDays(t: Firsts): seq<Option<int>> { [Some(0), t.unwound, t.doubled, t.more, t.kit, t.jury] }

  /** No set begins without the one before it, nor before its first day. */
  predicate InOrder(firsts: seq<Option<int>>) {
    forall n | 1 <= n < |firsts| && firsts[n].Some? :: firsts[n - 1].Some? && firsts[n - 1].value <= firsts[n].value
  }

  /** The last of the sets whose first day is not after `day`. */
  predicate LastBegun(firsts: seq<Option<int>>, day: int, n: nat) {
    && n < |firsts| && firsts[n].Some? && firsts[n].value <= day
    && forall m | n < m < |firsts| && firsts[m].Some? :: day < firsts[m].value
  }

  /** Main result: a day is given a set exactly when it is a season day, the sets begin in order and the last set begun
      is fixed; then the set is that one. */
  lemma {:induction false} InForceExactly(f: Fixed, t: Firsts, day: int, n: nat)
    requires Consistent(f)
    ensures var r, firsts := RulesForDayWithJury(f, t, day), FirstDays(t);
            && (r.Ok? ==> day >= 0 && InOrder(firsts))
            && (day >= 0 && InOrder(firsts) && LastBegun(firsts, day, n) ==>
                  (r.Ok? <==> (n == 4 ==> f.kit.Some?) && (n == 5 ==> f.jury.Some?))
                  && (r.Ok? ==> n < |f.history| && r.value == f.history[n]))
  {
    OrderIs(t);
    hide InOrder, Consistent;
    if day >= 0 && InOrder(FirstDays(t)) && LastBegun(FirstDays(t), day, n) {
      BegunIs(t, day, n);
      hide LastBegun;
      SetAt(f);
      hide FirstDays;
      JuryNeedsKit(f);
    }
  }

  lemma {:induction false} OrderIs(t: Firsts)
    ensures InOrder(FirstDays(t)) <==> FirstsOk(t) && Follows(t.jury, t.kit)
  {
    var s := FirstDays(t);
    assert s[0] == Some(0) && s[1] == t.unwound && s[2] == t.doubled && s[3] == t.more && s[4] == t.kit &&
           s[5] == t.jury;
  }

  lemma {:induction false} BegunIs(t: Firsts, day: int, n: nat)
    requires day >= 0 && FirstsOk(t) && Follows(t.jury, t.kit) && LastBegun(FirstDays(t), day, n)
    ensures n == Position(t, day)
  {
    var s := FirstDays(t);
    assert s[0] == Some(0) && s[1] == t.unwound && s[2] == t.doubled && s[3] == t.more && s[4] == t.kit &&
           s[5] == t.jury;
  }

  lemma {:induction false} JuryNeedsKit(f: Fixed)
    requires Consistent(f)
    ensures f.jury.Some? ==> f.kit.Some?
  {
  }

  /** The sets at their positions. */
  lemma {:induction false} SetAt(f: Fixed)
    requires Consistent(f)
    ensures |f.history| == 4 + (if f.kit.Some? then 1 else 0) + (if f.jury.Some? then 1 else 0)
    ensures f.history[0] == RULES_17 && f.history[1] == RULES && f.history[2] == RULES_DOUBLED &&
            f.history[3] == RULES_MORE_REQUESTS
    ensures f.kit.Some? ==> f.history[4] == f.kit.value
    ensures f.jury.Some? ==> f.history[5] == f.jury.value
  {
  }
}
