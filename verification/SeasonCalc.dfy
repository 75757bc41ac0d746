/** The reward calculation of one day and of a season: an integer formula per identity, a daily budget shared pro
    rata with floors, and the weekly totals. */
module SeasonCalc {
  import opened Wrappers
  import opened SeasonRules
  import opened Ordering
  import opened Accounts
  import opened Tally

  /** The facts of one miner identity for one day. */
  datatype Identity = Identity(minerId: string, presence: int, verifiedRequests: int, verdicts: int, address: string,
                               judgeActive: int, probation: bool, kitVersion: Option<int>, notDated: bool)

  /** Why a row is paid less than its facts alone would give. */
  datatype Reason = PresenceNotPaid | Probation | NoAddress | NoKitReport | KitBelowFloor | NotDatable | ProRata

  datatype Row = Row(minerId: string, address: string, presence: int, verifiedRequests: int, verdicts: int,
                     gross: nat, payable: nat, paid: nat, reasons: seq<Reason>,
                     judgeActive: int, probation: bool, kitVersion: Option<int>, notDated: bool)

  datatype DayResult = DayResult(rules: RuleSet, totalGross: nat, totalPayable: nat, budget: nat, totalPaid: nat,
                                 num: nat, den: nat, rows: seq<Row>)

  // ---------------------------------------------------------------- one row

  function AtLeastZero(n: int): nat { if n < 0 then 0 else n }

  function PresencePaid(i: Identity, r: RuleSet): nat {
    if i.verifiedRequests < 1 then 0
    else if i.presence < r.presenceMaxWindows then AtLeastZero(i.presence) else r.presenceMaxWindows
  }

  function Worth(n: nat, rate: nat): nat { n * rate }

  function GrossOf(i: Identity, r: RuleSet): Result<nat> {
    var g := Worth(PresencePaid(i, r), r.presencePerWindow) + Worth(AtLeastZero(i.verifiedRequests), r.workPerRequest)
             + Worth(AtLeastZero(i.verdicts), r.jurorPerVerdict);
    if i.judgeActive != 0 && i.judgeActive != 1 then Refused
    else if r.kit.Some? then
      var h := g + Worth(i.judgeActive, r.kit.value.judgeActivePerDay);
      Ok(if i.probation then Worth(h, r.kit.value.probationBps) / 10_000 else h)
    else if i.judgeActive != 0 || i.probation || i.notDated then Refused
    else Ok(g)
  }

  function KitAllowsPay(i: Identity, r: RuleSet): Result<bool> {
    if r.kit.None? then Ok(true)
    else if i.kitVersion.None? then Ok(false)
    else if i.kitVersion.value < 0 then Refused
    else Ok(i.kitVersion.value >= r.kit.value.kitMin)
  }

  predicate RegistrationAllowsPay(i: Identity, r: RuleSet) { !(r.kit.Some? && i.notDated) }

  function When(b: bool, why: Reason): seq<Reason> { if b then [why] else [] }

  function RowOf(i: Identity, r: RuleSet): Result<Row> {
    if GrossOf(i, r).Refused? || KitAllowsPay(i, r).Refused? then Refused
    else
      var g, kitOk, regOk := GrossOf(i, r).value, KitAllowsPay(i, r).value, RegistrationAllowsPay(i, r);
      var why := When(i.presence > 0 && i.verifiedRequests < 1, PresenceNotPaid)
                 + When(r.kit.Some? && i.probation && g > 0, Probation)
                 + When(g > 0 && i.address == "", NoAddress)
                 + When(g > 0 && !kitOk, if i.kitVersion.None? then NoKitReport else KitBelowFloor)
                 + When(g > 0 && !regOk, NotDatable);
      Ok(Row(i.minerId, i.address, i.presence, i.verifiedRequests, i.verdicts, g,
             if i.address != "" && kitOk && regOk then g else 0, 0, why,
             i.judgeActive, i.probation, i.kitVersion, i.notDated))
  }

  // ---------------------------------------------------------------- one day

  function Named(): Identity -> string { (i: Identity) => i.minerId }

  /** The facts the calculation accepts: every row sound, no identity twice. */
  ghost predicate Accepted(ids: seq<Identity>, r: RuleSet) {
    Distinct(Map(ids, Named())) && forall i | i in ids :: RowOf(i, r).Ok?
  }

  function Unpaid(r: RuleSet): Identity -> Row {
    (i: Identity) => if RowOf(i, r).Ok? then RowOf(i, r).value
                     else Row(i.minerId, i.address, 0, 0, 0, 0, 0, 0, [], 0, false, None, false)
  }

  function PayableOf(): Row -> nat { (x: Row) => x.payable }
  function PaidOf(): Row -> nat { (x: Row) => x.paid }
  function MinerIn(): Row -> string { (x: Row) => x.minerId }
  function GrossIn(): Row -> nat { (x: Row) => x.gross }

  function Budget(r: RuleSet, paidBefore: int): nat {
    var left := r.capSeason - paidBefore;
    AtLeastZero(if r.capDay < left then r.capDay else left)
  }

  function Num(total: nat, budget: nat): nat { if total > budget then budget else 1 }
  function Den(total: nat, budget: nat): (d: nat)
    ensures d > 0
  {
    if total > budget then total else 1
  }

  /** What a payable is reduced to when the day's total is `total` and its budget `budget`. */
  function Share(payable: nat, total: nat, budget: nat): nat {
    payable * Num(total, budget) / Den(total, budget)
  }

  function Pay(total: nat, budget: nat): Row -> Row {
    (x: Row) =>
      var paid := Share(x.payable, total, budget);
      x.(paid := paid, reasons := x.reasons + When(x.payable > 0 && paid < x.payable, ProRata))
  }

  /** The published order: the best paid first, then by miner id. */
  predicate RowLe(a: Row, b: Row) { a.paid > b.paid || (a.paid == b.paid && StringLe(a.minerId, b.minerId)) }

  function ByPay(): (Row, Row) -> bool { (a: Row, b: Row) => RowLe(a, b) }

  function PaidRows(ids: seq<Identity>, paidBefore: int, r: RuleSet): seq<Row> {
    var rows := Map(ids, Unpaid(r));
    Map(rows, Pay(Sum(Map(rows, PayableOf())), Budget(r, paidBefore)))
  }

  /** The ranking of one day. */
  function DayOf(ids: seq<Identity>, paidBefore: int, r: RuleSet): DayResult {
    var rows, budget := Map(ids, Unpaid(r)), Budget(r, paidBefore);
    var total := Sum(Map(rows, PayableOf()));
    var paid := PaidRows(ids, paidBefore, r);
    DayResult(r, Sum(Map(rows, GrossIn())), total, budget, Sum(Map(paid, PaidOf())),
              Num(total, budget), Den(total, budget), Sort(paid, ByPay()))
  }

  // ---------------------------------------------------------------- the pro rata

  lemma {:induction false} MulMonotone(a: nat, b: nat, c: nat)
    requires a <= b
    ensures a * c <= b * c
  {
  }

  lemma {:induction false} DivMonotone(a: nat, b: nat, d: nat)
    requires a <= b && d > 0
    ensures a / d <= b / d
  {
    if a / d > b / d {
      assert a / d >= b / d + 1;
      MulMonotone(b / d + 1, a / d, d);
    }
  }

  /** Order between payables is order between what they are paid. */
  lemma {:induction false} ShareKeepsOrder(a: nat, b: nat, total: nat, budget: nat)
    requires a <= b
    ensures Share(a, total, budget) <= Share(b, total, budget)
  {
    MulMonotone(a, b, Num(total, budget));
    DivMonotone(a * Num(total, budget), b * Num(total, budget), Den(total, budget));
  }

  lemma {:induction false} DivAtMost(p: nat, n: nat, d: nat)
    requires d > 0 && n <= d
    ensures p * n / d <= p
    ensures n == d ==> p * n / d == p
  {
    var q := p * n / d;
    assert p * n == d * q + p * n % d;
    MulMonotone(n, d, p);
    if q > p { MulMonotone(p + 1, q, d); }
    if n == d && q < p { MulMonotone(q + 1, p, d); }
  }

  lemma {:induction false} ShareAtMost(p: nat, total: nat, budget: nat)
    ensures Share(p, total, budget) <= p
    ensures total <= budget ==> Share(p, total, budget) == p
  {
    DivAtMost(p, Num(total, budget), Den(total, budget));
  }

  function Positive(ps: seq<nat>): nat {
    if ps == [] then 0 else Positive(ps[..|ps| - 1]) + (if ps[|ps| - 1] > 0 then 1 else 0)
  }

  function Shares(ps: seq<nat>, total: nat, budget: nat): (r: seq<nat>)
    ensures |r| == |ps| && forall i | 0 <= i < |ps| :: r[i] == Share(ps[i], total, budget)
  {
    if ps == [] then [] else Shares(ps[..|ps| - 1], total, budget) + [Share(ps[|ps| - 1], total, budget)]
  }

  lemma {:induction false} FloorBounds(p: nat, n: nat, d: nat)
    requires d > 0
    ensures d * (p * n / d) <= p * n
    ensures p * n - d * (p * n / d) <= if p > 0 then d - 1 else 0
  {
    assert p * n == d * (p * n / d) + p * n % d;
    if p == 0 { assert p * n == 0; }
  }

  lemma {:induction false} FloorStep(n: nat, d: nat, s: nat, sum: nat, k: nat, p: nat, x: nat)
    requires d > 0 && d * s <= n * sum && n * sum - d * s <= (d - 1) * k
    requires d * x <= p * n && p * n - d * x <= if p > 0 then d - 1 else 0
    ensures d * (s + x) <= n * (sum + p)
    ensures n * (sum + p) - d * (s + x) <= (d - 1) * (k + if p > 0 then 1 else 0)
  {
    assert d * (s + x) == d * s + d * x;
    assert n * (sum + p) == n * sum + p * n;
    assert (d - 1) * (k + 1) == (d - 1) * k + (d - 1);
  }

  /** The floors together lose less than one unit per payable row. */
  lemma {:induction false} FloorsAddUp(ps: seq<nat>, total: nat, budget: nat)
    ensures var n, d, s := Num(total, budget), Den(total, budget), Sum(Shares(ps, total, budget));
            && d * s <= n * Sum(ps)
            && n * Sum(ps) - d * s <= (d - 1) * Positive(ps)
  {
    if ps != [] {
      var pre, p := ps[..|ps| - 1], ps[|ps| - 1];
      var n, d := Num(total, budget), Den(total, budget);
      FloorsAddUp(pre, total, budget);
      FloorBounds(p, n, d);
      FloorStep(n, d, Sum(Shares(pre, total, budget)), Sum(pre), Positive(pre), p, Share(p, total, budget));
      assert Shares(ps, total, budget)[..|ps| - 1] == Shares(pre, total, budget);
    }
  }

  lemma {:induction false} MulCancel(a: int, b: int, c: nat)
    requires c > 0
    ensures c * a <= c * b ==> a <= b
    ensures c * a < c * b ==> a < b
  {
    assert c * (a - b) == c * a - c * b;
  }

  lemma {:induction false} ShareBound(t: nat, b: nat, s: nat, k: nat)
    requires t > b && k > 0 && t * s <= b * t && b * t - t * s <= (t - 1) * k
    ensures s <= b && b - s < k
  {
    MulCancel(s, b, t);
    assert t * (b - s) == b * t - t * s;
    assert (t - 1) * k == t * k - k;
    MulCancel(b - s, k, t);
  }

  /** The shares of a day fit its budget; when the budget is the bound, they leave less of it than there are payable
      rows; when it is not, every payable is paid in full. */
  lemma {:induction false} BudgetShared(ps: seq<nat>, budget: nat)
    ensures var total, s := Sum(ps), Sum(Shares(ps, Sum(ps), budget));
            && s <= budget
            && (total > budget ==> budget - s < Positive(ps))
            && (total <= budget ==> s == total)
  {
    var total := Sum(ps);
    if total > budget {
      FloorsAddUp(ps, total, budget);
      PositiveSum(ps);
      ShareBound(total, budget, Sum(Shares(ps, total, budget)), Positive(ps));
    } else {
      forall i | 0 <= i < |ps| ensures Shares(ps, total, budget)[i] == ps[i] { ShareAtMost(ps[i], total, budget); }
      assert Shares(ps, total, budget) == ps;
    }
  }

  lemma {:induction false} PositiveSum(ps: seq<nat>)
    ensures Sum(ps) > 0 <==> Positive(ps) > 0
  {
    if ps != [] { PositiveSum(ps[..|ps| - 1]); }
  }

  // ---------------------------------------------------------------- the calculation of a day

  lemma {:induction false} AcceptedPrefix(ids: seq<Identity>, r: RuleSet, n: nat)
    requires n < |ids| && Accepted(ids[..n], r)
    ensures Accepted(ids[..n + 1], r) <==>
            RowOf(ids[n], r).Ok? && forall i | 0 <= i < n :: ids[i].minerId != ids[n].minerId
  {
    var a, b := Map(ids[..n], Named()), Map(ids[..n + 1], Named());
    assert ids[..n + 1] == ids[..n] + [ids[n]];
    assert forall i | 0 <= i < n :: a[i] == ids[i].minerId && b[i] == ids[i].minerId;
    assert b[n] == ids[n].minerId;
  }

  lemma {:induction false} AcceptedShrinks(ids: seq<Identity>, r: RuleSet, n: nat)
    requires n <= |ids| && Accepted(ids, r)
    ensures Accepted(ids[..n], r)
  {
    var a, b := Map(ids[..n], Named()), Map(ids, Named());
    assert forall i | 0 <= i < n :: a[i] == b[i];
  }

  /** The rows of the day before the budget is known; a bad row or an identity met twice refuses the day. */
  method BuildRows(ids: seq<Identity>, r: RuleSet) returns (res: Result<seq<Row>>)
    ensures Accepted(ids, r) ==> res == Ok(Map(ids, Unpaid(r)))
    ensures !Accepted(ids, r) ==> res == Refused
  {
    hide RowOf;
    var seen: set<string>, rows: seq<Row> := {}, [];
    for n := 0 to |ids|
      invariant Accepted(ids[..n], r)
      invariant rows == Map(ids[..n], Unpaid(r))
      invariant seen == set i | 0 <= i < n :: ids[i].minerId
    {
      hide Accepted;
      AcceptedPrefix(ids, r, n);
      var row := RowOf(ids[n], r);
      if ids[n].minerId in seen || row.Refused? {
        if Accepted(ids, r) { AcceptedShrinks(ids, r, n + 1); }
        return Refused;
      }
      seen := seen + {ids[n].minerId};
      rows := rows + [row.value];
      assert ids[..n + 1][..n] == ids[..n];
    }
    assert ids[..|ids|] == ids;
    return Ok(rows);
  }

  /** The pro rata, row by row in place. */
  method PayRows(unpaid: seq<Row>, num: nat, den: nat, ghost total: nat, ghost budget: nat) returns (rows: seq<Row>)
    requires num == Num(total, budget) && den == Den(total, budget)
    ensures rows == Map(unpaid, Pay(total, budget))
  {
    rows := unpaid;
    for n := 0 to |unpaid|
      invariant |rows| == |unpaid|
      invariant forall i | 0 <= i < n :: rows[i] == Pay(total, budget)(unpaid[i])
      invariant forall i | n <= i < |unpaid| :: rows[i] == unpaid[i]
    {
      var row := rows[n].(paid := rows[n].payable * num / den);
      if row.payable > 0 && row.paid < row.payable {
        row := row.(reasons := row.reasons + [ProRata]);
      }
      assert row.reasons == Pay(total, budget)(unpaid[n]).reasons;
      rows := rows[n := row];
    }
  }

  /** Ranks one day, or refuses its facts. */
  method ComputeDay(ids: seq<Identity>, paidBefore: int, r: RuleSet) returns (res: Result<DayResult>)
    ensures Accepted(ids, r) ==> res == Ok(DayOf(ids, paidBefore, r))
    ensures !Accepted(ids, r) ==> res == Refused
  {
    hide Accepted, RowOf, RowLe;
    var built := BuildRows(ids, r);
    if built.Refused? {
      return Refused;
    }
    var rows := built.value;
    var total, budget := Sum(Map(rows, PayableOf())), Budget(r, paidBefore);
    var num, den := Num(total, budget), Den(total, budget);
    var paid := PayRows(rows, num, den, total, budget);
    var sorted := Sort(paid, ByPay());
    SortPermutes(paid, ByPay());
    PermutedMap(sorted, paid, PaidOf());
    PermutedSum(Map(sorted, PaidOf()), Map(paid, PaidOf()));
    PermutedMap(sorted, paid, GrossIn());
    PermutedSum(Map(sorted, GrossIn()), Map(paid, GrossIn()));
    assert Map(paid, GrossIn()) == Map(rows, GrossIn());
    return Ok(DayResult(r, Sum(Map(sorted, GrossIn())), total, budget, Sum(Map(sorted, PaidOf())), num, den, sorted));
  }

  // ---------------------------------------------------------------- what a day promises

  /** Main result: what a day pays fits its daily cap and what the season cap leaves; when the budget binds, less of
      it is lost than there are payable rows; when it does not, every payable is paid in full. */
  lemma {:induction false} DayFitsItsBudget(ids: seq<Identity>, paidBefore: int, r: RuleSet)
    ensures var d := DayOf(ids, paidBefore, r);
            && d.totalPaid <= d.budget <= r.capDay
            && (paidBefore <= r.capSeason ==> paidBefore + d.totalPaid <= r.capSeason)
            && (paidBefore >= r.capSeason ==> d.totalPaid == 0)
            && (d.totalPayable > d.budget ==> d.budget - d.totalPaid < Positive(Map(Map(ids, Unpaid(r)), PayableOf())))
            && (d.totalPayable <= d.budget ==> d.totalPaid == d.totalPayable)
  {
    hide RowOf;
    var rows, budget := Map(ids, Unpaid(r)), Budget(r, paidBefore);
    var ps := Map(rows, PayableOf());
    BudgetShared(ps, budget);
    assert Map(PaidRows(ids, paidBefore, r), PaidOf()) == Shares(ps, Sum(ps), budget);
  }

  lemma {:induction false} SortedIn(rows: seq<Row>, x: Row)
    ensures x in Sort(rows, ByPay()) <==> x in rows
  {
    hide RowLe, Sort;
    SortPermutes(rows, ByPay());
    assert x in multiset(Sort(rows, ByPay())) <==> x in multiset(rows);
  }

  lemma {:induction false} PaidRowsSize(ids: seq<Identity>, paidBefore: int, r: RuleSet)
    ensures |PaidRows(ids, paidBefore, r)| == |ids|
  {
    hide Unpaid, Pay;
  }

  lemma {:induction false} PaidRowAt(ids: seq<Identity>, paidBefore: int, r: RuleSet, n: nat)
    requires n < |ids| && RowOf(ids[n], r).Ok?
    ensures |PaidRows(ids, paidBefore, r)| == |ids|
    ensures var d := DayOf(ids, paidBefore, r);
            PaidRows(ids, paidBefore, r)[n] == Pay(d.totalPayable, d.budget)(RowOf(ids[n], r).value)
  {
    hide RowOf, Pay, Sort;
  }

  /** The rows published are the facts' own rows, each once, with what the pro rata gives it. */
  lemma {:induction false} PublishedRow(ids: seq<Identity>, paidBefore: int, r: RuleSet, x: Row) returns (i: Identity)
    requires Accepted(ids, r) && x in DayOf(ids, paidBefore, r).rows
    ensures i in ids && RowOf(i, r).Ok?
    ensures var d := DayOf(ids, paidBefore, r); x == Pay(d.totalPayable, d.budget)(RowOf(i, r).value)
  {
    hide RowOf, RowLe, Sort, PaidRows, Pay;
    var paid := PaidRows(ids, paidBefore, r);
    assert DayOf(ids, paidBefore, r).rows == Sort(paid, ByPay());
    SortedIn(paid, x);
    hide DayOf;
    var n :| 0 <= n < |paid| && paid[n] == x;
    PaidRowsSize(ids, paidBefore, r);
    i := ids[n];
    PaidRowAt(ids, paidBefore, r, n);
  }

  /** A row with something payable has an address, the kit and the dated registration its set requires, and work. */
  ghost predicate Earned(x: Row, r: RuleSet) {
    && x.address != ""
    && (r.kit.Some? ==> !x.notDated && x.kitVersion.Some? && x.kitVersion.value >= r.kit.value.kitMin)
    && (x.verifiedRequests > 0 || x.verdicts > 0 || x.judgeActive == 1)
  }

  lemma {:induction false} UnearnedIsNothing(i: Identity, r: RuleSet)
    requires GrossOf(i, r).Ok? && i.verifiedRequests <= 0 && i.verdicts <= 0 && i.judgeActive != 1
    ensures GrossOf(i, r).value == 0
  {
    assert 0 * r.workPerRequest == 0 && 0 * r.jurorPerVerdict == 0 && 0 * r.presencePerWindow == 0;
  }

  lemma {:induction false} PayableIsEarned(i: Identity, r: RuleSet)
    requires RowOf(i, r).Ok?
    ensures var x := RowOf(i, r).value; x.payable <= x.gross && (x.payable > 0 ==> Earned(x, r))
  {
    if i.verifiedRequests <= 0 && i.verdicts <= 0 && i.judgeActive != 1 { UnearnedIsNothing(i, r); }
    hide GrossOf;
  }

  /** Main result: nobody is paid without an address, without a kit at the floor the set requires, without a dated
      registration or without any work, nor more than the formula gives on its facts. */
  lemma {:induction false} UnknownIsNeverPaid(ids: seq<Identity>, paidBefore: int, r: RuleSet, x: Row)
    requires Accepted(ids, r) && x in DayOf(ids, paidBefore, r).rows
    ensures x.paid <= x.payable <= x.gross
    ensures x.paid > 0 ==> Earned(x, r)
  {
    hide RowOf, DayOf, Accepted;
    var i := PublishedRow(ids, paidBefore, r, x);
    var d := DayOf(ids, paidBefore, r);
    ShareAtMost(x.payable, d.totalPayable, d.budget);
    PayableIsEarned(i, r);
  }

  /** Main result: the row with the larger payable is never paid less. */
  lemma {:induction false} OrderIsKept(ids: seq<Identity>, paidBefore: int, r: RuleSet, x: Row, y: Row)
    requires Accepted(ids, r)
    requires x in DayOf(ids, paidBefore, r).rows && y in DayOf(ids, paidBefore, r).rows && x.payable <= y.payable
    ensures x.paid <= y.paid
  {
    var i := PublishedRow(ids, paidBefore, r, x);
    var j := PublishedRow(ids, paidBefore, r, y);
    var d := DayOf(ids, paidBefore, r);
    ShareKeepsOrder(x.payable, y.payable, d.totalPayable, d.budget);
  }

  lemma {:induction false} ByPayPreorder()
    ensures Preorder(ByPay())
  {
    forall a, b ensures ByPay()(a, b) || ByPay()(b, a) { StringLeTotal(a.minerId, b.minerId); }
    forall a, b, c | ByPay()(a, b) && ByPay()(b, c) ensures ByPay()(a, c) {
      if a.paid == b.paid == c.paid { StringLeTransitive(a.minerId, b.minerId, c.minerId); }
    }
  }

  lemma {:induction false} PaidRowsNamed(ids: seq<Identity>, paidBefore: int, r: RuleSet)
    ensures Map(PaidRows(ids, paidBefore, r), MinerIn()) == Map(ids, Named())
  {
    hide RowOf;
    forall n | 0 <= n < |ids| ensures Unpaid(r)(ids[n]).minerId == ids[n].minerId { UnpaidNamed(ids[n], r); }
  }

  lemma {:induction false} UnpaidNamed(i: Identity, r: RuleSet)
    ensures Unpaid(r)(i).minerId == i.minerId
  {
  }

  lemma {:induction false} PaidRowsStrict(ids: seq<Identity>, paidBefore: int, r: RuleSet)
    requires Distinct(Map(ids, Named()))
    ensures Strict(PaidRows(ids, paidBefore, r), ByPay())
  {
    hide RowOf, PaidRows;
    var paid := PaidRows(ids, paidBefore, r);
    PaidRowsNamed(ids, paidBefore, r);
    forall x, y | x in paid && y in paid && ByPay()(x, y) && ByPay()(y, x) ensures x == y {
      StringLeAntisymmetric(x.minerId, y.minerId);
      var n :| 0 <= n < |paid| && paid[n] == x;
      var m :| 0 <= m < |paid| && paid[m] == y;
      assert Map(paid, MinerIn())[n] == Map(paid, MinerIn())[m];
    }
  }

  /** Main result: the order in which the facts were gathered decides nothing: every permutation of the identities is
      accepted or refused alike and gives the same ranking, row by row. */
  lemma {:induction false} RankingIgnoresOrder(a: seq<Identity>, b: seq<Identity>, paidBefore: int, r: RuleSet)
    requires multiset(a) == multiset(b)
    ensures Accepted(a, r) <==> Accepted(b, r)
    ensures Accepted(a, r) ==> DayOf(a, paidBefore, r) == DayOf(b, paidBefore, r)
  {
    hide RowOf, RowLe;
    if Accepted(b, r) { AcceptedPermutes(b, a, r); }
    if Accepted(a, r) {
      AcceptedPermutes(a, b, r);
      var rowsA, rowsB := Map(a, Unpaid(r)), Map(b, Unpaid(r));
      PermutedMap(a, b, Unpaid(r));
      PermutedMap(rowsA, rowsB, PayableOf());
      PermutedSum(Map(rowsA, PayableOf()), Map(rowsB, PayableOf()));
      PermutedMap(rowsA, rowsB, GrossIn());
      PermutedSum(Map(rowsA, GrossIn()), Map(rowsB, GrossIn()));
      var pay := Pay(Sum(Map(rowsA, PayableOf())), Budget(r, paidBefore));
      PermutedMap(rowsA, rowsB, pay);
      PermutedMap(Map(rowsA, pay), Map(rowsB, pay), PaidOf());
      PermutedSum(Map(Map(rowsA, pay), PaidOf()), Map(Map(rowsB, pay), PaidOf()));
      ByPayPreorder();
      PaidRowsStrict(a, paidBefore, r);
      SortIgnoresOrder(Map(rowsA, pay), Map(rowsB, pay), ByPay());
    }
  }

  lemma {:induction false} AcceptedPermutes(a: seq<Identity>, b: seq<Identity>, r: RuleSet)
    requires multiset(a) == multiset(b) && Accepted(a, r)
    ensures Accepted(b, r)
  {
    hide RowOf;
    PermutedMap(a, b, Named());
    PermutedDistinct(Map(a, Named()), Map(b, Named()));
    forall i | i in b ensures RowOf(i, r).Ok? { assert i in multiset(a); }
  }

  /** The ranking lists every row of the facts once, the best paid first and ties by miner id. */
  lemma {:induction false} RankingIsSorted(ids: seq<Identity>, paidBefore: int, r: RuleSet)
    ensures var rows := DayOf(ids, paidBefore, r).rows;
            && multiset(rows) == multiset(PaidRows(ids, paidBefore, r)) && |rows| == |ids|
            && forall m, n | 0 <= m < n < |rows| ::
                 || rows[m].paid > rows[n].paid
                 || (rows[m].paid == rows[n].paid && StringLe(rows[m].minerId, rows[n].minerId))
  {
    hide RowOf, StringLe;
    ByPayPreorder();
    SortPermutes(PaidRows(ids, paidBefore, r), ByPay());
    SortSorts(PaidRows(ids, paidBefore, r), ByPay());
    var rows := DayOf(ids, paidBefore, r).rows;
    assert |rows| == |ids| by { hide RowLe; }
    hide DayOf, PaidRows, Sort;
    forall m, n | 0 <= m < n < |rows| ensures RowLe(rows[m], rows[n]) { assert ByPay()(rows[m], rows[n]); }
  }

  // ---------------------------------------------------------------- what each fact is worth

  /** An identity with counts the formula takes as they are, off probation. */
  predicate Plain(i: Identity, r: RuleSet) {
    GrossOf(i, r).Ok? && !i.probation && 1 <= i.verifiedRequests && 0 <= i.verdicts && 0 <= i.presence
  }

  /** One request, verdict, window or judge day more adds exactly its rate, windows up to their bound; without a request
      no window is paid at all. */
  lemma {:induction false} EachFactIsWorth(i: Identity, r: RuleSet)
    requires Plain(i, r)
    ensures GrossOf(i.(verifiedRequests := i.verifiedRequests + 1), r) == Ok(GrossOf(i, r).value + r.workPerRequest)
    ensures GrossOf(i.(verdicts := i.verdicts + 1), r) == Ok(GrossOf(i, r).value + r.jurorPerVerdict)
    ensures GrossOf(i.(presence := i.presence + 1), r)
         == Ok(GrossOf(i, r).value + if i.presence < r.presenceMaxWindows then r.presencePerWindow else 0)
    ensures r.kit.Some? && i.judgeActive == 0 ==>
              GrossOf(i.(judgeActive := 1), r) == Ok(GrossOf(i, r).value + r.kit.value.judgeActivePerDay)
    ensures GrossOf(i.(verifiedRequests := 0), r) == GrossOf(i.(verifiedRequests := 0, presence := 0), r)
  {
    OneMoreTimes(i.verifiedRequests, r.workPerRequest);
    OneMoreTimes(i.verdicts, r.jurorPerVerdict);
    OneMoreTimes(i.presence, r.presencePerWindow);
    OneMoreTimes(0, r.presencePerWindow);
  }

  lemma {:induction false} OneMoreTimes(n: int, rate: nat)
    ensures (n + 1) * rate == n * rate + rate
  {
  }

  /** The probation pays its share of the whole gross, rounded down, and nothing more. */
  lemma {:induction false} ProbationShare(i: Identity, r: RuleSet)
    requires r.kit.Some? && GrossOf(i, r).Ok? && r.kit.value.probationBps <= 10_000
    ensures var whole, part := GrossOf(i.(probation := false), r).value, GrossOf(i.(probation := true), r).value;
            part <= whole && 10_000 * part <= whole * r.kit.value.probationBps < 10_000 * (part + 1)
  {
    var whole := GrossOf(i.(probation := false), r).value;
    DivAtMost(whole, r.kit.value.probationBps, 10_000);
  }

  // ---------------------------------------------------------------- what a published row says

  /** The row may be paid: it has an address and, under a set with the kit keys, a dated registration and a kit at the
      floor. */
  predicate Entitled(x: Row, r: RuleSet) {
    && x.address != ""
    && (r.kit.Some? ==> !x.notDated && x.kitVersion.Some? && x.kitVersion.value >= r.kit.value.kitMin)
  }

  /** What the facts of a row are worth: every window proven, up to the bound and none without a request, every request,
      every verdict and the judge day, each at its rate; on probation, the share of the whole, rounded down. */
  function WorthOf(x: Row, r: RuleSet): int {
    var windows := if x.verifiedRequests < 1 || x.presence < 0 then 0
                   else if x.presence > r.presenceMaxWindows then r.presenceMaxWindows else x.presence;
    var requests := if x.verifiedRequests > 0 then x.verifiedRequests else 0;
    var verdicts := if x.verdicts > 0 then x.verdicts else 0;
    var base := windows * r.presencePerWindow + requests * r.workPerRequest + verdicts * r.jurorPerVerdict;
    if r.kit.None? then base
    else
      var whole := if x.judgeActive == 1 then base + r.kit.value.judgeActivePerDay else base;
      if x.probation then whole * r.kit.value.probationBps / 10_000 else whole
  }

  lemma {:induction false} GrossExactly(i: Identity, r: RuleSet)
    requires RowOf(i, r).Ok?
    ensures RowOf(i, r).value.gross == WorthOf(RowOf(i, r).value, r)
  {
    assert forall n: nat, rate: nat :: Worth(n, rate) == n * rate;
    if r.kit.Some? {
      var rate := r.kit.value.judgeActivePerDay;
      assert Worth(i.judgeActive, rate) == if i.judgeActive == 1 then rate else 0;
    }
  }

  lemma {:induction false} PayableExactly(i: Identity, r: RuleSet)
    requires RowOf(i, r).Ok?
    ensures var x := RowOf(i, r).value; x.payable == if Entitled(x, r) then x.gross else 0
  {
    hide GrossOf;
  }

  /** The row carries the identity's own facts. */
  predicate CarriesFacts(x: Row, i: Identity) {
    && x.minerId == i.minerId && x.address == i.address && x.presence == i.presence && x.verdicts == i.verdicts
    && x.verifiedRequests == i.verifiedRequests && x.judgeActive == i.judgeActive && x.probation == i.probation
    && x.kitVersion == i.kitVersion && x.notDated == i.notDated
  }

  lemma {:induction false} RowCarries(i: Identity, r: RuleSet)
    requires RowOf(i, r).Ok?
    ensures CarriesFacts(RowOf(i, r).value, i)
  {
    hide GrossOf, KitAllowsPay;
  }

  /** Main result: every published row carries the facts of one identity, its gross is what they are worth at the rates
      of the set, and its payable is the whole of it when it is entitled and nothing otherwise. */
  lemma {:induction false} RowSays(ids: seq<Identity>, paidBefore: int, r: RuleSet, x: Row) returns (i: Identity)
    requires Accepted(ids, r) && x in DayOf(ids, paidBefore, r).rows
    ensures i in ids && CarriesFacts(x, i)
    ensures x.gross == WorthOf(x, r) && x.payable == if Entitled(x, r) then x.gross else 0
  {
    hide RowOf, DayOf, Accepted, WorthOf, Entitled, GrossOf, KitAllowsPay, Share;
    i := PublishedRow(ids, paidBefore, r, x);
    GrossExactly(i, r);
    PayableExactly(i, r);
    RowCarries(i, r);
    var d := DayOf(ids, paidBefore, r);
    PayKeeps(RowOf(i, r).value, d.totalPayable, d.budget, r);
  }

  /** Paying a row leaves its facts as they were. */
  lemma {:induction false} PayKeeps(y: Row, total: nat, budget: nat, r: RuleSet)
    ensures var x := Pay(total, budget)(y);
            && WorthOf(x, r) == WorthOf(y, r) && (Entitled(x, r) <==> Entitled(y, r))
            && x.gross == y.gross && x.payable == y.payable
  {
    hide Share;
  }

  /** The facts a set accepts: a judge flag of 0 or 1, no negative kit version under a set with the kit keys, and none
      of the kit facts under a set without them; no identity twice. */
  predicate Sound(i: Identity, r: RuleSet) {
    && (i.judgeActive == 0 || i.judgeActive == 1)
    && (r.kit.Some? ==> i.kitVersion.None? || i.kitVersion.value >= 0)
    && (r.kit.None? ==> i.judgeActive == 0 && !i.probation && !i.notDated)
  }

  lemma {:induction false} AcceptedExactly(ids: seq<Identity>, r: RuleSet)
    ensures Accepted(ids, r) <==>
              && (forall n | 0 <= n < |ids| :: Sound(ids[n], r))
              && (forall m, n | 0 <= m < n < |ids| :: ids[m].minerId != ids[n].minerId)
  {
    hide Worth;
    var names := Map(ids, Named());
    assert forall n | 0 <= n < |ids| :: names[n] == ids[n].minerId;
    forall i ensures RowOf(i, r).Ok? <==> Sound(i, r) {}
    hide RowOf, Sound;
  }

  /** Every identity has its row. */
  lemma {:induction false} IdentityIsPublished(ids: seq<Identity>, paidBefore: int, r: RuleSet, i: Identity)
      returns (x: Row)
    requires Accepted(ids, r) && i in ids
    ensures x in DayOf(ids, paidBefore, r).rows && CarriesFacts(x, i)
  {
    hide RowLe, Sort, PaidRows;
    var n :| 0 <= n < |ids| && ids[n] == i;
    PaidRowAt(ids, paidBefore, r, n);
    RowCarries(i, r);
    x := PaidRows(ids, paidBefore, r)[n];
    SortedIn(PaidRows(ids, paidBefore, r), x);
    hide RowOf;
  }

  /** What is due to a row. */
  function DueOf(r: RuleSet): Row -> int { (x: Row) => if Entitled(x, r) then WorthOf(x, r) else 0 }

  /** The budget: what the daily cap allows and the season cap leaves, whichever is smaller, and nothing below
      nothing. */
  lemma {:induction false} BudgetExactly(ids: seq<Identity>, paidBefore: int, r: RuleSet)
    ensures var d := DayOf(ids, paidBefore, r);
            && (r.capSeason <= paidBefore ==> d.budget == 0)
            && (r.capSeason - paidBefore >= r.capDay ==> d.budget == r.capDay)
            && (0 <= r.capSeason - paidBefore <= r.capDay ==> d.budget == r.capSeason - paidBefore)
            && (d.totalPayable <= d.budget ==> d.num == 1 && d.den == 1)
            && (d.totalPayable > d.budget ==> d.num == d.budget && d.den == d.totalPayable)
  {
  }

  /** The published payables add up to the total. */
  lemma {:induction false} PayablesAddUp(ids: seq<Identity>, paidBefore: int, r: RuleSet)
    ensures var d := DayOf(ids, paidBefore, r); Sum(Map(d.rows, PayableOf())) == d.totalPayable
    ensures var d := DayOf(ids, paidBefore, r); Sum(Map(d.rows, GrossIn())) == d.totalGross
  {
    hide RowOf, RowLe, Sort;
    var rows, paid := Map(ids, Unpaid(r)), PaidRows(ids, paidBefore, r);
    SortPermutes(paid, ByPay());
    PermutedMap(Sort(paid, ByPay()), paid, PayableOf());
    PermutedSum(Map(Sort(paid, ByPay()), PayableOf()), Map(paid, PayableOf()));
    PermutedMap(Sort(paid, ByPay()), paid, GrossIn());
    PermutedSum(Map(Sort(paid, ByPay()), GrossIn()), Map(paid, GrossIn()));
    assert Map(paid, PayableOf()) == Map(rows, PayableOf());
    assert Map(paid, GrossIn()) == Map(rows, GrossIn());
  }

  /** What a published row is paid, of its payable, the day's total and its budget. */
  lemma {:induction false} PaidExactly(ids: seq<Identity>, paidBefore: int, r: RuleSet, x: Row)
    requires Accepted(ids, r) && x in DayOf(ids, paidBefore, r).rows
    ensures var d := DayOf(ids, paidBefore, r);
            && (d.totalPayable <= d.budget ==> x.paid == x.payable)
            && (d.totalPayable > d.budget ==> x.paid == x.payable * d.budget / d.totalPayable)
  {
    var i := PublishedRow(ids, paidBefore, r, x);
    hide RowOf, DayOf, Accepted;
    var d := DayOf(ids, paidBefore, r);
    ShareAtMost(x.payable, d.totalPayable, d.budget);
  }

  /** Main result: when what is due to the entitled rows fits the daily cap and what the season cap leaves, every row is
      paid exactly what it is due; otherwise each is paid its due times the budget over the total, rounded down. */
  lemma {:induction false} PaidWhatIsDue(ids: seq<Identity>, paidBefore: int, r: RuleSet, x: Row)
    requires Accepted(ids, r) && x in DayOf(ids, paidBefore, r).rows
    ensures var d, due := DayOf(ids, paidBefore, r), DueOf(r)(x);
            var total := Sum(Map(d.rows, PayableOf()));
            && (forall y | y in d.rows :: y.payable == DueOf(r)(y))
            && (total <= r.capDay && paidBefore + total <= r.capSeason ==> x.paid == due)
            && (total > d.budget ==> x.paid == due * d.budget / total)
  {
    hide RowOf, DayOf, Accepted, WorthOf, Entitled, Sum, Map;
    var d := DayOf(ids, paidBefore, r);
    forall y | y in d.rows ensures y.payable == DueOf(r)(y) { var i := RowSays(ids, paidBefore, r, y); }
    PayablesAddUp(ids, paidBefore, r);
    PaidExactly(ids, paidBefore, r, x);
    BudgetExactly(ids, paidBefore, r);
  }

  /** Why a row is paid less than its facts alone would give: each reason exactly when it holds. */
  lemma {:induction false} ReasonsExactly(ids: seq<Identity>, paidBefore: int, r: RuleSet, x: Row)
    requires Accepted(ids, r) && x in DayOf(ids, paidBefore, r).rows
    ensures PresenceNotPaid in x.reasons <==> x.presence > 0 && x.verifiedRequests < 1
    ensures NoAddress in x.reasons <==> x.gross > 0 && x.address == ""
    ensures ProRata in x.reasons <==> x.paid < x.payable
    ensures NotDatable in x.reasons <==> x.gross > 0 && r.kit.Some? && x.notDated
    ensures NoKitReport in x.reasons <==> x.gross > 0 && r.kit.Some? && x.kitVersion.None?
    ensures KitBelowFloor in x.reasons <==>
              x.gross > 0 && r.kit.Some? && x.kitVersion.Some? && x.kitVersion.value < r.kit.value.kitMin
    ensures Probation in x.reasons <==> x.gross > 0 && r.kit.Some? && x.probation
  {
    var i := PublishedRow(ids, paidBefore, r, x);
    var d := DayOf(ids, paidBefore, r);
    ShareAtMost(x.payable, d.totalPayable, d.budget);
    hide DayOf, Accepted, GrossOf, Share;
    RowReasons(i, r);
    hide RowOf;
    var y := RowOf(i, r).value;
    assert forall why :: why in x.reasons <==>
           why in y.reasons || (why == ProRata && x.payable > 0 && x.paid < x.payable);
  }

  /** The reasons a row is given before the day's share is known. */
  lemma {:induction false} RowReasons(i: Identity, r: RuleSet)
    requires RowOf(i, r).Ok?
    ensures var x := RowOf(i, r).value;
            && (PresenceNotPaid in x.reasons <==> x.presence > 0 && x.verifiedRequests < 1)
            && (NoAddress in x.reasons <==> x.gross > 0 && x.address == "")
            && (NotDatable in x.reasons <==> x.gross > 0 && r.kit.Some? && x.notDated)
            && (NoKitReport in x.reasons <==> x.gross > 0 && r.kit.Some? && x.kitVersion.None?)
            && (KitBelowFloor in x.reasons <==>
                  x.gross > 0 && r.kit.Some? && x.kitVersion.Some? && x.kitVersion.value < r.kit.value.kitMin)
            && (Probation in x.reasons <==> x.gross > 0 && r.kit.Some? && x.probation) && ProRata !in x.reasons
  {
    hide GrossOf, KitAllowsPay, When;
    var x := RowOf(i, r).value;
    var kitOk, regOk := KitAllowsPay(i, r).value, RegistrationAllowsPay(i, r);
    KitAllowsExactly(i, r);
    forall why ensures why in x.reasons <==>
                || (why == PresenceNotPaid && i.presence > 0 && i.verifiedRequests < 1)
                || (why == Probation && r.kit.Some? && i.probation && x.gross > 0)
                || (why == NoAddress && x.gross > 0 && i.address == "")
                || (why == (if i.kitVersion.None? then NoKitReport else KitBelowFloor) && x.gross > 0 && !kitOk)
                || (why == NotDatable && x.gross > 0 && !regOk) {
      InWhens(why, When(i.presence > 0 && i.verifiedRequests < 1, PresenceNotPaid),
              When(r.kit.Some? && i.probation && x.gross > 0, Probation),
              When(x.gross > 0 && i.address == "", NoAddress),
              When(x.gross > 0 && !kitOk, if i.kitVersion.None? then NoKitReport else KitBelowFloor),
              When(x.gross > 0 && !regOk, NotDatable));
      InWhen();
    }
    hide RowOf;
  }

  lemma {:induction false} KitAllowsExactly(i: Identity, r: RuleSet)
    requires KitAllowsPay(i, r).Ok?
    ensures KitAllowsPay(i, r).value <==>
              (r.kit.Some? ==> i.kitVersion.Some? && i.kitVersion.value >= r.kit.value.kitMin)
  {
  }

  lemma {:induction false} InWhen()
    ensures forall b, why, w :: w in When(b, why) <==> b && w == why
  {
  }

  lemma {:induction false} InWhens(w: Reason, a: seq<Reason>, b: seq<Reason>, c: seq<Reason>, d: seq<Reason>,
                                   e: seq<Reason>)
    ensures w in a + b + c + d + e <==> w in a || w in b || w in c || w in d || w in e
  {
  }

  // ---------------------------------------------------------------- a season

  function PaidIn(): DayResult -> nat { (d: DayResult) => d.totalPaid }

  /** What the season paid on the days `days`. */
  function PaidOver(days: seq<DayResult>): nat { Sum(Map(days, PaidIn())) }

  /** The rankings of the days 0, 1, ... on the facts of each, every day under the set in force on it and with what
      the days before it paid. */
  ghost predicate Season(f: Fixed, t: Firsts, facts: seq<seq<Identity>>, days: seq<DayResult>) {
    && |days| == |facts|
    && forall n | 0 <= n < |facts| ::
         && RulesForDayWithJury(f, t, n).Ok?
         && Accepted(facts[n], RulesForDayWithJury(f, t, n).value)
         && days[n] == DayOf(facts[n], PaidOver(days[..n]), RulesForDayWithJury(f, t, n).value)
  }

  lemma {:induction false} PaidNext(days: seq<DayResult>, n: nat)
    requires n < |days|
    ensures PaidOver(days[..n + 1]) == PaidOver(days[..n]) + days[n].totalPaid
  {
    assert days[..n + 1][..n] == days[..n];
  }

  /** Main result: over any number of days and any facts, the set in force never goes back along the history, no day
      pays more than its daily cap, and what the season has paid never exceeds the season cap in force. */
  lemma {:induction false} SeasonWithinCaps(f: Fixed, t: Firsts, facts: seq<seq<Identity>>, days: seq<DayResult>,
                                            n: nat)
    requires Consistent(f) && Season(f, t, facts, days) && n < |days|
    ensures Position(t, n) < |f.history| && days[n].rules == f.history[Position(t, n)]
    ensures n > 0 ==> Position(t, n - 1) <= Position(t, n)
    ensures days[n].totalPaid <= days[n].rules.capDay
    ensures PaidOver(days[..n + 1]) == PaidOver(days[..n]) + days[n].totalPaid <= days[n].rules.capSeason
  {
    hide Accepted, Consistent, RulesForDayWithJury;
    PaidNext(days, n);
    SetsNeverGoBack(f, t, n, n);
    if n > 0 {
      SeasonWithinCaps(f, t, facts, days, n - 1);
      SetsNeverGoBack(f, t, n - 1, n);
      CapsNeverFall(f, Position(t, n - 1), Position(t, n));
    }
    DayFitsItsBudget(facts[n], PaidOver(days[..n]), days[n].rules);
  }

  // ---------------------------------------------------------------- the weekly payment

  function PaidTo(a: string): Row -> nat { (x: Row) => if x.address == a then x.paid else 0 }

  /** What the rows of one day pay to `a`, and what several days do. */
  function EarnedOn(a: string): DayResult -> nat { (d: DayResult) => Sum(Map(d.rows, PaidTo(a))) }

  function EarnedOver(days: seq<DayResult>, a: string): nat { Sum(Map(days, EarnedOn(a))) }

  function RowsPaid(): DayResult -> nat { (d: DayResult) => Sum(Map(d.rows, PaidOf())) }

  ghost predicate AllAddressed(rows: seq<Row>) { forall x | x in rows :: x.paid > 0 ==> x.address != "" }

  /** `out` holds what `before` held and what the rows pay: to every address, and in all. */
  ghost predicate HoldsEach(out: map<string, nat>, before: map<string, nat>, rows: seq<Row>) {
    forall a :: Get(out, a, 0) == Get(before, a, 0) + Sum(Map(rows, PaidTo(a)))
  }

  ghost predicate HoldsAll(out: map<string, nat>, total: nat, rows: seq<Row>) {
    AddsUpTo(out, total + Sum(Map(rows, PaidOf())))
  }

  function EarnRow(out: map<string, nat>, x: Row): map<string, nat> {
    if x.paid > 0 then Earn(out, x.address, x.paid) else out
  }

  lemma {:induction false} HoldsEachNext(out: map<string, nat>, before: map<string, nat>, rows: seq<Row>, n: nat)
    requires n < |rows| && HoldsEach(out, before, rows[..n])
    ensures HoldsEach(EarnRow(out, rows[n]), before, rows[..n + 1])
  {
    hide Sum, Map;
    forall a ensures Get(EarnRow(out, rows[n]), a, 0) == Get(before, a, 0) + Sum(Map(rows[..n + 1], PaidTo(a))) {
      SumMapNext(rows, PaidTo(a), n);
    }
  }

  lemma {:induction false} HoldsAllNext(out: map<string, nat>, total: nat, rows: seq<Row>, n: nat)
    requires n < |rows| && HoldsAll(out, total, rows[..n])
    ensures HoldsAll(EarnRow(out, rows[n]), total, rows[..n + 1])
  {
    hide Sum, Map, AddsUpTo, Earn;
    SumMapNext(rows, PaidOf(), n);
    if rows[n].paid > 0 { EarnAddsUp(out, rows[n].address, rows[n].paid, total + Sum(Map(rows[..n], PaidOf()))); }
  }

  lemma {:induction false} HoldsStart(before: map<string, nat>, total: nat, rows: seq<Row>)
    requires AddsUpTo(before, total)
    ensures HoldsEach(before, before, rows[..0]) && HoldsAll(before, total, rows[..0])
  {
    assert forall f: Row -> nat :: Map(rows[..0], f) == [];
  }

  lemma {:induction false} WholeList<T>(s: seq<T>)
    ensures s[..|s|] == s
  {
  }

  /** The payments of one day, added to what earlier days earned; a row paid without an address refuses the week. */
  method AddDay(before: map<string, nat>, rows: seq<Row>, ghost total: nat) returns (res: Result<map<string, nat>>)
    requires AddsUpTo(before, total)
    ensures res.Ok? <==> AllAddressed(rows)
    ensures res.Ok? ==> HoldsEach(res.value, before, rows) && HoldsAll(res.value, total, rows)
  {
    hide HoldsEach, HoldsAll;
    var out := before;
    HoldsStart(before, total, rows);
    for n := 0 to |rows|
      invariant forall i | 0 <= i < n :: rows[i].paid > 0 ==> rows[i].address != ""
      invariant HoldsEach(out, before, rows[..n]) && HoldsAll(out, total, rows[..n])
    {
      HoldsEachNext(out, before, rows, n);
      HoldsAllNext(out, total, rows, n);
      if rows[n].paid > 0 {
        if rows[n].address == "" {
          return Refused;
        }
        out := Earn(out, rows[n].address, rows[n].paid);
      }
    }
    WholeList(rows);
    return Ok(out);
  }

  /** The weekly payment: what each address earned, and the addresses in order. */
  datatype Totals = Totals(amounts: map<string, nat>, order: seq<string>)

  /** The sum of what each address earned over the days: exactly that for every address, and in all exactly what the
      rows paid, listed in the order of the addresses. It refuses exactly when some row is paid without an address. */
  method WeekTotals(days: seq<DayResult>) returns (res: Result<Totals>)
    ensures res.Ok? <==> forall d | d in days :: AllAddressed(d.rows)
    ensures res.Ok? ==> EarnedBy(res.value.amounts, days) && AddsUpTo(res.value.amounts, Sum(Map(days, RowsPaid())))
    ensures res.Ok? ==> ListingOf(res.value.order, res.value.amounts.Keys)
  {
    var out: map<string, nat> := map[];
    EmptyAddsUp(out);
    for n := 0 to |days|
      invariant forall d | d in days[..n] :: AllAddressed(d.rows)
      invariant EarnedBy(out, days[..n]) && AddsUpTo(out, Sum(Map(days[..n], RowsPaid())))
    {
      hide AllAddressed, AddsUpTo, EarnedBy, HoldsEach, HoldsAll, Sum;
      var next := AddDay(out, days[n].rows, Sum(Map(days[..n], RowsPaid())));
      if next.Refused? {
        assert days[n] in days;
        return Refused;
      }
      WeekNext(out, next.value, days, n);
      out := next.value;
    }
    assert days[..|days|] == days;
    hide AddsUpTo, EarnedBy, Sum, ListingOf;
    var order := SortedKeys(out.Keys);
    return Ok(Totals(out, order));
  }

  /** `m` holds, for every address, what it earned over the days. */
  ghost predicate EarnedBy(m: map<string, nat>, days: seq<DayResult>) {
    forall a :: Get(m, a, 0) == EarnedOver(days, a)
  }

  lemma {:induction false} WeekNext(before: map<string, nat>, out: map<string, nat>, days: seq<DayResult>, n: nat)
    requires n < |days| && HoldsEach(out, before, days[n].rows) &&
             HoldsAll(out, Sum(Map(days[..n], RowsPaid())), days[n].rows)
    requires EarnedBy(before, days[..n])
    ensures EarnedBy(out, days[..n + 1]) && AddsUpTo(out, Sum(Map(days[..n + 1], RowsPaid())))
  {
    hide Sum, AddsUpTo;
    SumMapNext(days, RowsPaid(), n);
    forall a: string ensures Get(out, a, 0) == EarnedOver(days[..n + 1], a) {
      SumMapNext(days, EarnedOn(a), n);
      assert Get(before, a, 0) == EarnedOver(days[..n], a);
    }
  }

  lemma {:induction false} PublishedPaid(ids: seq<Identity>, paidBefore: int, r: RuleSet)
    requires Accepted(ids, r)
    ensures AllAddressed(DayOf(ids, paidBefore, r).rows)
    ensures RowsPaid()(DayOf(ids, paidBefore, r)) == DayOf(ids, paidBefore, r).totalPaid
  {
    hide RowOf, RowLe, Accepted;
    var d, paid := DayOf(ids, paidBefore, r), PaidRows(ids, paidBefore, r);
    forall x | x in d.rows ensures x.paid > 0 ==> x.address != "" { UnknownIsNeverPaid(ids, paidBefore, r, x); }
    SortPermutes(paid, ByPay());
    PermutedMap(d.rows, paid, PaidOf());
    PermutedSum(Map(d.rows, PaidOf()), Map(paid, PaidOf()));
  }

  /** Main result: any days of a season can be paid, and the payment adds up to exactly what those days paid. */
  lemma {:induction false} WeekPaysWhatTheDaysPaid(f: Fixed, t: Firsts, facts: seq<seq<Identity>>, days: seq<DayResult>,
                                                   from: nat, to: nat)
    requires Season(f, t, facts, days) && from <= to <= |days|
    ensures forall d | d in days[from..to] :: AllAddressed(d.rows)
    ensures Sum(Map(days[from..to], RowsPaid())) == PaidOver(days[from..to])
  {
    hide AllAddressed, DayOf, Accepted, RulesForDayWithJury, Sum, Map;
    forall n | 0 <= n < |days| ensures AllAddressed(days[n].rows) && RowsPaid()(days[n]) == days[n].totalPaid {
      PublishedPaid(facts[n], PaidOver(days[..n]), RulesForDayWithJury(f, t, n).value);
    }
    assert Map(days[from..to], RowsPaid()) == Map(days[from..to], PaidIn());
  }
}
