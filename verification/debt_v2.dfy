/** The calculator the screens use (`utils/debtCalculator.ts`): balances from
    expenses alone, and a settlement plan matched in input order.

    `Math.round(x * 100) / 100` is the identity on cents. The `0.01`
    thresholds become "more than one cent" for the filters and "less than one
    cent" (that is zero) for the remainders. */
module DebtV2 {
  import opened Ledger
  import opened TypesV2
  import opened Matching

  /* ---------- calculateBalances ---------- */

  /** What member `k` owes across `splits`. */
  function Share(splits: seq<Split>, k: Id): int {
    SumOf(splits, (s: Split) => if s.userId == k then s.amount else 0)
  }

  /** The effect of one expense on member `k`: credited what it paid, debited its share. */
  function Delta(e: Expense, k: Id): int {
    (if e.paidBy == k then e.amount else 0) - Share(e.splits, k)
  }

  /** Member `k`'s net position over all expenses. */
  function NetOf(expenses: seq<Expense>, k: Id): int {
    SumOf(expenses, (e: Expense) => Delta(e, k))
  }

  /** Debits every share from its member's total, whether or not it names a user. */
  function PostSplits(b: Book, splits: seq<Split>): (r: Book)
    ensures r.Keys == b.Keys
  {
    if splits == [] then b
    else PostSplits(Post(b, splits[0].userId, -splits[0].amount), splits[1..])
  }

  /** Each member's total drops by its share of the splits. */
  lemma {:induction false} PostSplitsValue(b: Book, splits: seq<Split>)
    ensures forall k | k in b :: PostSplits(b, splits)[k] == b[k] - Share(splits, k)
  {
    if splits != [] {
      PostSplitsValue(Post(b, splits[0].userId, -splits[0].amount), splits[1..]);
    }
  }

  /** The payer is credited the whole amount, then every split is debited. */
  function PostExpense(b: Book, e: Expense): (r: Book)
    ensures r.Keys == b.Keys
  {
    PostSplits(Post(b, e.paidBy, e.amount), e.splits)
  }

  lemma PostExpenseValue(b: Book, e: Expense)
    ensures forall k | k in b :: PostExpense(b, e)[k] == b[k] + Delta(e, k)
  {
    PostSplitsValue(Post(b, e.paidBy, e.amount), e.splits);
  }

  /** The expenses are posted one after another, in list order. */
  function PostExpenses(b: Book, expenses: seq<Expense>): (r: Book)
    ensures r.Keys == b.Keys
  {
    if expenses == [] then b
    else PostExpenses(PostExpense(b, expenses[0]), expenses[1..])
  }

  /** Each member's total moves by its net position over the expenses. */
  lemma {:induction false} PostExpensesValue(b: Book, expenses: seq<Expense>)
    ensures forall k | k in b :: PostExpenses(b, expenses)[k] == b[k] + NetOf(expenses, k)
  {
    if expenses != [] {
      PostExpenseValue(b, expenses[0]);
      PostExpensesValue(PostExpense(b, expenses[0]), expenses[1..]);
    }
  }

  /** One balance per user, in user order, read from the running totals. */
  function Report(users: seq<User>, b: Book): (r: seq<Balance>)
    requires forall u | u in users :: u.id in b
    ensures |r| == |users|
    ensures forall k | 0 <= k < |users| :: r[k] == Balance(users[k].id, b[users[k].id])
  {
    if users == [] then [] else [Balance(users[0].id, b[users[0].id])] + Report(users[1..], b)
  }

  /** One balance per user, in user order, each the user's net position:
      what it paid minus its shares. Ids that are not users never reach a
      returned balance. */
  function CalculateBalances(expenses: seq<Expense>, users: seq<User>): (r: seq<Balance>)
    ensures |r| == |users|
    ensures forall k | 0 <= k < |users| :: r[k] == Balance(users[k].id, NetOf(expenses, users[k].id))
  {
    UsersListed(users);
    Report(users, Totals(expenses, users))
  }

  /** The running totals after every expense: one per user id, each the
      user's net position. */
  function Totals(expenses: seq<Expense>, users: seq<User>): (b: Book)
    ensures forall id :: id in b <==> id in UserIds(users)
    ensures forall id | id in b :: b[id] == NetOf(expenses, id)
  {
    var start := Open(UserIds(users));
    PostExpensesValue(start, expenses);
    PostExpenses(start, expenses)
  }

  function BalanceTotal(bs: seq<Balance>): int {
    SumOf(bs, (b: Balance) => b.amount)
  }

  /** Every id an expense mentions is one of `ids`. */
  predicate Within(e: Expense, ids: seq<Id>) {
    e.paidBy in ids && forall s | s in e.splits :: s.userId in ids
  }

  /** One split posted: the book after it and the total of the rest. */
  lemma PostSplitsStep(b: Book, splits: seq<Split>)
    requires splits != []
    ensures var s := splits[0];
      && PostSplits(b, splits) == PostSplits(Post(b, s.userId, -s.amount), splits[1..])
      && SplitTotal(splits) == s.amount + SplitTotal(splits[1..])
  {
  }

  lemma {:induction false} PostSplitsTally(b: Book, ids: seq<Id>, splits: seq<Split>)
    requires Covers(b, ids) && Distinct(ids)
    requires forall s | s in splits :: s.userId in ids
    ensures Covers(PostSplits(b, splits), ids)
    ensures Tally(PostSplits(b, splits), ids) == Tally(b, ids) - SplitTotal(splits)
  {
    if splits != [] {
      var s, rest := splits[0], splits[1..];
      var next := Post(b, s.userId, -s.amount);
      assert Covers(next, ids) && Tally(next, ids) == Tally(b, ids) - s.amount by {
        assert s in splits;
        PostTally(b, ids, s.userId, -s.amount);
      }
      var after := PostSplits(next, rest);
      assert Covers(after, ids) && Tally(after, ids) == Tally(next, ids) - SplitTotal(rest) by {
        assert forall x | x in rest :: x in splits;
        PostSplitsTally(next, ids, rest);
      }
      assert PostSplits(b, splits) == after && SplitTotal(splits) == s.amount + SplitTotal(rest) by {
        PostSplitsStep(b, splits);
      }
    }
  }

  lemma {:induction false} PostExpensesTally(b: Book, ids: seq<Id>, expenses: seq<Expense>)
    requires Covers(b, ids) && Distinct(ids)
    requires forall e | e in expenses :: Within(e, ids)
    ensures Covers(PostExpenses(b, expenses), ids)
    ensures Tally(PostExpenses(b, expenses), ids)
         == Tally(b, ids) + SumOf(expenses, (e: Expense) => e.amount - SplitTotal(e.splits))
  {
    if expenses != [] {
      var e := expenses[0];
      assert e in expenses;
      assert forall x | x in expenses[1..] :: x in expenses;
      PostTally(b, ids, e.paidBy, e.amount);
      PostSplitsTally(Post(b, e.paidBy, e.amount), ids, e.splits);
      PostExpensesTally(PostExpense(b, e), ids, expenses[1..]);
    }
  }

  lemma {:induction false} ReportTotal(users: seq<User>, b: Book)
    requires forall u | u in users :: u.id in b
    ensures Covers(b, UserIds(users))
    ensures BalanceTotal(Report(users, b)) == Tally(b, UserIds(users))
  {
    if users != [] {
      ReportTotal(users[1..], b);
      assert UserIds(users)[1..] == UserIds(users[1..]);
      var head := Balance(users[0].id, b[users[0].id]);
      assert ([head] + Report(users[1..], b))[1..] == Report(users[1..], b);
    }
  }

  /** With distinct user ids and expenses that mention only users, the
      balances add up to what was paid minus what was split. */
  lemma BalancesTotal(expenses: seq<Expense>, users: seq<User>)
    requires Distinct(UserIds(users))
    requires forall e | e in expenses :: Within(e, UserIds(users))
    ensures BalanceTotal(CalculateBalances(expenses, users))
         == SumOf(expenses, (e: Expense) => e.amount - SplitTotal(e.splits))
  {
    var ids := UserIds(users);
    var start := Open(ids);
    var b := Totals(expenses, users);
    assert Tally(b, ids) == SumOf(expenses, (e: Expense) => e.amount - SplitTotal(e.splits)) by {
      OpenTally(start, ids);
      PostExpensesTally(start, ids, expenses);
      assert b == PostExpenses(start, expenses);
    }
    assert BalanceTotal(Report(users, b)) == Tally(b, ids) by {
      UsersListed(users);
      ReportTotal(users, b);
    }
    assert CalculateBalances(expenses, users) == Report(users, b);
  }


  /** Conservation: when every expense's splits add up to its amount, and all
      ids are distinct users, the balances sum to zero. */
  lemma BalancesSumToZero(expenses: seq<Expense>, users: seq<User>)
    requires Distinct(UserIds(users))
    requires forall e | e in expenses :: Within(e, UserIds(users)) && SplitTotal(e.splits) == e.amount
    ensures BalanceTotal(CalculateBalances(expenses, users)) == 0
  {
    BalancesTotal(expenses, users);
    SumOfZero(expenses, (e: Expense) => e.amount - SplitTotal(e.splits));
  }

  /** The order in which expenses were recorded does not matter. */
  lemma ExpenseOrderIrrelevant(expenses: seq<Expense>, reordered: seq<Expense>, users: seq<User>)
    requires multiset(expenses) == multiset(reordered)
    ensures CalculateBalances(expenses, users) == CalculateBalances(reordered, users)
  {
    forall k | 0 <= k < |users|
      ensures NetOf(expenses, users[k].id) == NetOf(reordered, users[k].id)
    {
      var id := users[k].id;
      SumOfPermutation(expenses, reordered, (e: Expense) => Delta(e, id));
    }
  }

  /* ---------- calculateOptimalSettlements ---------- */

  /** Balances below `-0.01`, as magnitudes, in input order (working copies). */
  function Debtors(bs: seq<Balance>): (r: seq<Party>)
    ensures Owing(r)
  {
    if bs == [] then []
    else (if OverCent(-bs[0].amount) then [Party(bs[0].userId, -bs[0].amount)] else []) + Debtors(bs[1..])
  }

  /** Balances above `0.01`, in input order. */
  function Creditors(bs: seq<Balance>): (r: seq<Party>)
    ensures Owing(r)
  {
    if bs == [] then []
    else (if OverCent(bs[0].amount) then [Party(bs[0].userId, bs[0].amount)] else []) + Creditors(bs[1..])
  }

  /** A debtor is exactly a balance below `-0.01`, taken as a magnitude; a
      creditor is exactly a balance above `0.01`. */
  lemma {:induction false} FilterMembers(bs: seq<Balance>)
    ensures forall p :: p in Debtors(bs) <==> OverCent(p.rest) && Balance(p.id, -p.rest) in bs
    ensures forall p :: p in Creditors(bs) <==> OverCent(p.rest) && Balance(p.id, p.rest) in bs
  {
    if bs != [] {
      FilterMembers(bs[1..]);
    }
  }

  /** Neither list is sorted: each keeps the order of the balances it came from. */
  lemma {:induction false} DebtorsKeepOrder(a: seq<Balance>, b: seq<Balance>)
    ensures Debtors(a + b) == Debtors(a) + Debtors(b)
  {
    if a == [] {
      assert a + b == b;
    } else {
      assert (a + b)[1..] == a[1..] + b;
      DebtorsKeepOrder(a[1..], b);
    }
  }

  lemma {:induction false} CreditorsKeepOrder(a: seq<Balance>, b: seq<Balance>)
    ensures Creditors(a + b) == Creditors(a) + Creditors(b)
  {
    if a == [] {
      assert a + b == b;
    } else {
      assert (a + b)[1..] == a[1..] + b;
      CreditorsKeepOrder(a[1..], b);
    }
  }

  /** Some balance of `id` is below `-0.01` and owes at least `amount`. */
  predicate OwesAtLeast(bs: seq<Balance>, id: Id, amount: int) {
    exists b | b in bs :: b.userId == id && OverCent(-b.amount) && amount <= -b.amount
  }

  /** Some balance of `id` is above `0.01` and is owed at least `amount`. */
  predicate IsOwedAtLeast(bs: seq<Balance>, id: Id, amount: int) {
    exists b | b in bs :: b.userId == id && OverCent(b.amount) && amount <= b.amount
  }

  lemma HoldsMeansBalance(bs: seq<Balance>, id: Id, amount: int)
    ensures Holds(Debtors(bs), id, amount) ==> OwesAtLeast(bs, id, amount)
    ensures Holds(Creditors(bs), id, amount) ==> IsOwedAtLeast(bs, id, amount)
  {
    var ds, cs := Debtors(bs), Creditors(bs);
    FilterMembers(bs);
    if Holds(ds, id, amount) {
      var k :| 0 <= k < |ds| && ds[k].id == id && amount <= ds[k].rest;
      assert ds[k] in ds;
      assert Balance(id, -ds[k].rest) in bs;
    }
    if Holds(cs, id, amount) {
      var k :| 0 <= k < |cs| && cs[k].id == id && amount <= cs[k].rest;
      assert cs[k] in cs;
      assert Balance(id, cs[k].rest) in bs;
    }
  }

  /** Balances within one cent of zero produce neither debtors nor creditors. */
  lemma {:induction false} BandedFiltersEmpty(bs: seq<Balance>)
    requires forall b | b in bs :: -1 <= b.amount <= 1
    ensures Debtors(bs) == [] && Creditors(bs) == []
  {
    if bs != [] {
      assert bs[0] in bs;
      BandedFiltersEmpty(bs[1..]);
    }
  }

  /** What the plan promises: transfers above one cent only, each from a
      debtor to a creditor and no larger than either's starting balance, at
      most one fewer than the parties involved, and none when every balance
      is within one cent of zero. */
  lemma PlanFacts(balances: seq<Balance>)
    ensures var plan := Emitted(Steps(Debtors(balances), Creditors(balances)));
      && (forall t | t in plan ::
            OverCent(t.amount) && OwesAtLeast(balances, t.from, t.amount) && IsOwedAtLeast(balances, t.to, t.amount))
      && |plan| <= (if Debtors(balances) == [] || Creditors(balances) == [] then 0
                    else |Debtors(balances)| + |Creditors(balances)| - 1)
      && ((forall b | b in balances :: -1 <= b.amount <= 1) ==> plan == [])
  {
    var ds, cs := Debtors(balances), Creditors(balances);
    var plan := Emitted(Steps(ds, cs));
    StepsCount(ds, cs);
    StepsEnds(ds, cs);
    EmittedMembers(Steps(ds, cs));
    forall t | t in plan
      ensures OwesAtLeast(balances, t.from, t.amount) && IsOwedAtLeast(balances, t.to, t.amount)
    {
      HoldsMeansBalance(balances, t.from, t.amount);
      HoldsMeansBalance(balances, t.to, t.amount);
    }
    if forall b | b in balances :: -1 <= b.amount <= 1 {
      BandedFiltersEmpty(balances);
    }
  }

  /** How many balances lie outside the one-cent band. */
  function Unsettled(bs: seq<Balance>): nat {
    if bs == [] then 0
    else (if OverCent(bs[0].amount) || OverCent(-bs[0].amount) then 1 else 0) + Unsettled(bs[1..])
  }

  /** Every balance outside the band becomes exactly one debtor or creditor. */
  lemma {:induction false} PartyCount(bs: seq<Balance>)
    ensures |Debtors(bs)| + |Creditors(bs)| == Unsettled(bs)
  {
    if bs != [] {
      PartyCount(bs[1..]);
    }
  }

  /** n balances outside the band give at most n - 1 transfers, and none when n is zero. */
  lemma PlanSize(balances: seq<Balance>)
    ensures var n := Unsettled(balances);
      |Emitted(Steps(Debtors(balances), Creditors(balances)))| <= if n == 0 then 0 else n - 1
  {
    PartyCount(balances);
    StepsCount(Debtors(balances), Creditors(balances));
  }

  /** One pass of the loop body: the debtor pays the creditor the smaller
      remainder (recorded only above one cent), both remainders fall by it,
      and each index advances once its remainder is below one cent. */
  method SettleRound(ds: seq<Party>, cs: seq<Party>, i: int, j: int)
    returns (pushed: seq<Transfer>, ds': seq<Party>, cs': seq<Party>, i': int, j': int)
    requires 0 <= i < |ds| && 0 <= j < |cs|
    ensures |ds'| == |ds| && |cs'| == |cs|
    ensures i <= i' <= i + 1 && j <= j' <= j + 1 && (i' > i || j' > j)
    ensures Emitted(Steps(ds[i..], cs[j..])) == pushed + Emitted(Steps(ds'[i'..], cs'[j'..]))
  {
    var amount := Min(ds[i].rest, cs[j].rest);
    pushed := if OverCent(amount) then [Transfer(ds[i].id, cs[j].id, amount)] else [];
    ds' := ds[i := ds[i].(rest := ds[i].rest - amount)];
    cs' := cs[j := cs[j].(rest := cs[j].rest - amount)];
    i', j' := i, j;
    if Settled(ds'[i].rest) {
      i' := i + 1;
    }
    if Settled(cs'[j].rest) {
      j' := j + 1;
    }
    RoundOnCopies(ds, cs, i, j, amount, ds', cs', i', j');
  }

  /** The two-index loop over the unsorted debtor and creditor lists. The
      source copies the debtors but mutates the caller's creditor records in
      place; here both are working copies. */
  method CalculateOptimalSettlements(balances: seq<Balance>) returns (txs: seq<Transfer>)
    ensures txs == Emitted(Steps(Debtors(balances), Creditors(balances)))
    ensures forall t | t in txs ::
      OverCent(t.amount) && OwesAtLeast(balances, t.from, t.amount) && IsOwedAtLeast(balances, t.to, t.amount)
    ensures |txs| <= if Debtors(balances) == [] || Creditors(balances) == [] then 0
                     else |Debtors(balances)| + |Creditors(balances)| - 1
    ensures (forall b | b in balances :: -1 <= b.amount <= 1) ==> txs == []
  {
    var ds := Debtors(balances);
    var cs := Creditors(balances);
    txs := [];
    var i, j := 0, 0;
    ghost var plan := Emitted(Steps(ds, cs));
    assert ds[i..] == ds && cs[j..] == cs;
    while i < |ds| && j < |cs|
      invariant 0 <= i <= |ds| && 0 <= j <= |cs|
      invariant plan == txs + Emitted(Steps(ds[i..], cs[j..]))
      decreases |ds| - i + |cs| - j
    {
      var pushed;
      ghost var before := txs;
      pushed, ds, cs, i, j := SettleRound(ds, cs, i, j);
      txs := txs + pushed;
      AppendAssoc(before, pushed, Emitted(Steps(ds[i..], cs[j..])));
    }
    assert Steps(ds[i..], cs[j..]) == [];
    PlanFacts(balances);
  }

  /** The absolute debt of member `id` below `-0.01`. */
  function DebtOf(bs: seq<Balance>, id: Id): int {
    SumOf(bs, (b: Balance) => if b.userId == id && OverCent(-b.amount) then -b.amount else 0)
  }

  /** The credit of member `id` above `0.01`. */
  function CreditOf(bs: seq<Balance>, id: Id): int {
    SumOf(bs, (b: Balance) => if b.userId == id && OverCent(b.amount) then b.amount else 0)
  }

  /** The balances outside the one-cent band, summed. */
  function OutsideTotal(bs: seq<Balance>): int {
    SumOf(bs, (b: Balance) => if OverCent(b.amount) || OverCent(-b.amount) then b.amount else 0)
  }

  /** What the debtor filter holds for one member is that member's debt below the band. */
  lemma {:induction false} DebtorsOwed(bs: seq<Balance>, id: Id)
    ensures Owed(Debtors(bs), id) == DebtOf(bs, id)
  {
    if bs != [] {
      DebtorsOwed(bs[1..], id);
      var b := bs[0];
      var dh := if OverCent(-b.amount) then [Party(b.userId, -b.amount)] else [];
      SumOfConcat(dh, Debtors(bs[1..]), (p: Party) => if p.id == id then p.rest else 0);
    }
  }

  /** What the creditor filter holds for one member is that member's credit above the band. */
  lemma {:induction false} CreditorsOwed(bs: seq<Balance>, id: Id)
    ensures Owed(Creditors(bs), id) == CreditOf(bs, id)
  {
    if bs != [] {
      CreditorsOwed(bs[1..], id);
      var b := bs[0];
      var ch := if OverCent(b.amount) then [Party(b.userId, b.amount)] else [];
      SumOfConcat(ch, Creditors(bs[1..]), (p: Party) => if p.id == id then p.rest else 0);
    }
  }

  /** Credit minus debt over the filters is the sum of the balances outside the band. */
  lemma {:induction false} FilterTotals(bs: seq<Balance>)
    ensures Total(Creditors(bs)) - Total(Debtors(bs)) == OutsideTotal(bs)
  {
    if bs != [] {
      FilterTotals(bs[1..]);
      var b := bs[0];
      var dh := if OverCent(-b.amount) then [Party(b.userId, -b.amount)] else [];
      var ch := if OverCent(b.amount) then [Party(b.userId, b.amount)] else [];
      SumOfConcat(dh, Debtors(bs[1..]), (p: Party) => p.rest);
      SumOfConcat(ch, Creditors(bs[1..]), (p: Party) => p.rest);
    }
  }

  /** When the balances outside the one-cent band sum to zero (total debt
      equals total credit), the loop drives every remainder to zero: each
      member pays out exactly its debt and receives exactly its credit. */
  lemma SettlementsCloseTheLoop(balances: seq<Balance>, id: Id)
    requires OutsideTotal(balances) == 0
    ensures Sent(Steps(Debtors(balances), Creditors(balances)), id) == DebtOf(balances, id)
    ensures Received(Steps(Debtors(balances), Creditors(balances)), id) == CreditOf(balances, id)
  {
    DebtorsOwed(balances, id);
    CreditorsOwed(balances, id);
    FilterTotals(balances);
    StepsSettle(Debtors(balances), Creditors(balances), id);
  }
}
