/** The group calculator (`src/utils/debtCalculator.ts`): balances that
    honour paid splits and confirmed settlements, and a settlement plan
    matched largest debtor against largest creditor.

    `parseFloat(x.toFixed(2))` is the identity on cents. The optimizer's
    filters are `> 0` and `< 0` (any nonzero cent); its remainder test
    `Math.abs(x) < 0.01` means zero cents; a transfer is pushed when it is
    above `0.01`, that is two cents or more. */
module DebtV1 {
  import opened Ledger
  import opened TypesV1
  import opened Matching

  /** A member's signed net position: positive is owed money, negative owes money. */
  datatype Balance = Balance(userId: Id, name: string, amount: int)

  /* ---------- calculateBalances ---------- */

  /** What member `k` still owes across `splits`: its shares not marked paid. */
  function Unpaid(splits: seq<Split>, k: Id): int {
    SumOf(splits, (s: Split) => if s.userId == k && !s.paid then s.amount else 0)
  }

  /** The sum of all shares not marked paid. */
  function UnpaidTotal(splits: seq<Split>): int {
    SumOf(splits, (s: Split) => if s.paid then 0 else s.amount)
  }

  /** One expense's effect on member `k`: credited what it paid, debited its unpaid share. */
  function ExpenseDelta(e: Expense, k: Id): int {
    (if e.paidBy == k then e.amount else 0) - Unpaid(e.splits, k)
  }

  function ExpensesNet(expenses: seq<Expense>, k: Id): int {
    SumOf(expenses, (e: Expense) => ExpenseDelta(e, k))
  }

  /** A recorded payment moves the payer up and the receiver down. */
  function Repayment(s: Settlement, k: Id): int {
    (if s.from == k then s.amount else 0) - (if s.to == k then s.amount else 0)
  }

  function Repaid(settlements: seq<Settlement>, k: Id): int {
    SumOf(settlements, (s: Settlement) => Repayment(s, k))
  }

  /** Only confirmed settlements count; pending ones have no effect. */
  function SettledNet(settlements: seq<Settlement>, k: Id): int {
    SumOf(settlements, (s: Settlement) => if s.status == Confirmed then Repayment(s, k) else 0)
  }

  /** Member `k`'s net position: what it paid, less its unpaid shares, plus
      what it repaid through confirmed settlements, less what it was repaid. */
  function NetOf(expenses: seq<Expense>, settlements: seq<Settlement>, k: Id): int {
    ExpensesNet(expenses, k) + SettledNet(settlements, k)
  }

  /** Debits every unpaid share from its member's total; paid shares are skipped. */
  function PostSplits(b: Book, splits: seq<Split>): (r: Book)
    ensures r.Keys == b.Keys
  {
    if splits == [] then b
    else
      var s := splits[0];
      PostSplits(if s.paid then b else Post(b, s.userId, -s.amount), splits[1..])
  }

  /** Each member's total drops by its unpaid shares. */
  lemma {:induction false} PostSplitsValue(b: Book, splits: seq<Split>)
    ensures forall k | k in b :: PostSplits(b, splits)[k] == b[k] - Unpaid(splits, k)
  {
    if splits != [] {
      var s := splits[0];
      PostSplitsValue(if s.paid then b else Post(b, s.userId, -s.amount), splits[1..]);
    }
  }

  function PostExpense(b: Book, e: Expense): (r: Book)
    ensures r.Keys == b.Keys
  {
    PostSplits(Post(b, e.paidBy, e.amount), e.splits)
  }

  lemma PostExpenseValue(b: Book, e: Expense)
    ensures forall k | k in b :: PostExpense(b, e)[k] == b[k] + ExpenseDelta(e, k)
  {
    PostSplitsValue(Post(b, e.paidBy, e.amount), e.splits);
  }

  function PostExpenses(b: Book, expenses: seq<Expense>): (r: Book)
    ensures r.Keys == b.Keys
  {
    if expenses == [] then b
    else PostExpenses(PostExpense(b, expenses[0]), expenses[1..])
  }

  lemma {:induction false} PostExpensesValue(b: Book, expenses: seq<Expense>)
    ensures forall k | k in b :: PostExpenses(b, expenses)[k] == b[k] + ExpensesNet(expenses, k)
  {
    if expenses != [] {
      PostExpenseValue(b, expenses[0]);
      PostExpensesValue(PostExpense(b, expenses[0]), expenses[1..]);
    }
  }

  /** The settlements whose status is confirmed, in order. */
  function ConfirmedOnly(settlements: seq<Settlement>): (r: seq<Settlement>)
    ensures forall s :: s in r <==> s in settlements && s.status == Confirmed
  {
    if settlements == [] then []
    else (if settlements[0].status == Confirmed then [settlements[0]] else []) + ConfirmedOnly(settlements[1..])
  }

  /** Repaying over the confirmed settlements is the settled net over all of them. */
  lemma {:induction false} ConfirmedRepaid(settlements: seq<Settlement>, k: Id)
    ensures Repaid(ConfirmedOnly(settlements), k) == SettledNet(settlements, k)
  {
    if settlements != [] {
      var s := settlements[0];
      ConfirmedRepaid(settlements[1..], k);
      var head := if s.status == Confirmed then [s] else [];
      SumOfConcat(head, ConfirmedOnly(settlements[1..]), (x: Settlement) => Repayment(x, k));
    }
  }

  lemma ConfirmedRepaidAll(settlements: seq<Settlement>)
    ensures forall k :: Repaid(ConfirmedOnly(settlements), k) == SettledNet(settlements, k)
  {
    forall k {
      ConfirmedRepaid(settlements, k);
    }
  }

  /** Each settlement in turn raises its payer's total and lowers its receiver's total by its amount. */
  function PostSettlements(b: Book, settlements: seq<Settlement>): (r: Book)
    ensures r.Keys == b.Keys
  {
    if settlements == [] then b
    else
      var s := settlements[0];
      PostSettlements(Post(Post(b, s.from, s.amount), s.to, -s.amount), settlements[1..])
  }

  /** Each member's total moves by what it repaid less what it was repaid. */
  lemma {:induction false} PostSettlementsValue(b: Book, settlements: seq<Settlement>)
    ensures forall k | k in b :: PostSettlements(b, settlements)[k] == b[k] + Repaid(settlements, k)
  {
    if settlements != [] {
      var s := settlements[0];
      PostSettlementsValue(Post(Post(b, s.from, s.amount), s.to, -s.amount), settlements[1..]);
    }
  }

  function Report(members: seq<User>, b: Book): (r: seq<Balance>)
    requires forall m | m in members :: m.id in b
    ensures |r| == |members|
    ensures forall k | 0 <= k < |members| :: r[k] == Balance(members[k].id, members[k].name, b[members[k].id])
  {
    if members == [] then []
    else [Balance(members[0].id, members[0].name, b[members[0].id])] + Report(members[1..], b)
  }

  /** One balance per member, in member order, carrying the member's id,
      name and net position. Paid shares, pending settlements and ids that
      are not members never reach a returned balance. */
  function CalculateBalances(members: seq<User>, expenses: seq<Expense>, settlements: seq<Settlement>): (r: seq<Balance>)
    ensures |r| == |members|
    ensures forall k | 0 <= k < |members| ::
      r[k] == Balance(members[k].id, members[k].name, NetOf(expenses, settlements, members[k].id))
  {
    MembersListed(members);
    Report(members, Totals(members, expenses, settlements))
  }

  /** The running totals after every expense and every confirmed settlement:
      one per member id, holding that member's net position. */
  function Totals(members: seq<User>, expenses: seq<Expense>, settlements: seq<Settlement>): (b: Book)
    ensures forall id :: id in b <==> id in MemberIds(members)
    ensures forall id | id in b :: b[id] == NetOf(expenses, settlements, id)
  {
    var start := Open(MemberIds(members));
    PostExpensesValue(start, expenses);
    PostSettlementsValue(PostExpenses(start, expenses), ConfirmedOnly(settlements));
    ConfirmedRepaidAll(settlements);
    PostSettlements(PostExpenses(start, expenses), ConfirmedOnly(settlements))
  }

  function BalanceTotal(bs: seq<Balance>): int {
    SumOf(bs, (b: Balance) => b.amount)
  }

  /** The payer and every unpaid share of the expense are among `ids`. */
  predicate ExpenseWithin(e: Expense, ids: seq<Id>) {
    e.paidBy in ids && forall s | s in e.splits :: !s.paid ==> s.userId in ids
  }

  /** Both ends of a confirmed settlement are among `ids`. */
  predicate SettlementWithin(s: Settlement, ids: seq<Id>) {
    s.status == Confirmed ==> s.from in ids && s.to in ids
  }

  /** One split posted: the book after it and the unpaid total of the rest. */
  lemma PostSplitsStep(b: Book, splits: seq<Split>)
    requires splits != []
    ensures var s := splits[0];
      var next := if s.paid then b else Post(b, s.userId, -s.amount);
      && PostSplits(b, splits) == PostSplits(next, splits[1..])
      && UnpaidTotal(splits) == (if s.paid then 0 else s.amount) + UnpaidTotal(splits[1..])
  {
  }

  lemma {:induction false} PostSplitsTally(b: Book, ids: seq<Id>, splits: seq<Split>)
    requires Covers(b, ids) && Distinct(ids)
    requires forall s | s in splits :: !s.paid ==> s.userId in ids
    ensures Covers(PostSplits(b, splits), ids)
    ensures Tally(PostSplits(b, splits), ids) == Tally(b, ids) - UnpaidTotal(splits)
  {
    if splits != [] {
      var s, rest := splits[0], splits[1..];
      var next := if s.paid then b else Post(b, s.userId, -s.amount);
      var owed := if s.paid then 0 else s.amount;
      assert Covers(next, ids) && Tally(next, ids) == Tally(b, ids) - owed by {
        if !s.paid {
          assert s in splits;
          PostTally(b, ids, s.userId, -s.amount);
        }
      }
      var after := PostSplits(next, rest);
      assert Covers(after, ids) && Tally(after, ids) == Tally(next, ids) - UnpaidTotal(rest) by {
        assert forall x | x in rest :: x in splits;
        PostSplitsTally(next, ids, rest);
      }
      assert PostSplits(b, splits) == after && UnpaidTotal(splits) == owed + UnpaidTotal(rest) by {
        PostSplitsStep(b, splits);
      }
    }
  }

  lemma {:induction false} PostExpensesTally(b: Book, ids: seq<Id>, expenses: seq<Expense>)
    requires Covers(b, ids) && Distinct(ids)
    requires forall e | e in expenses :: ExpenseWithin(e, ids)
    ensures Covers(PostExpenses(b, expenses), ids)
    ensures Tally(PostExpenses(b, expenses), ids)
         == Tally(b, ids) + SumOf(expenses, (e: Expense) => e.amount - UnpaidTotal(e.splits))
  {
    if expenses != [] {
      var e := expenses[0];
      assert e in expenses;
      assert forall x | x in expenses[1..] :: x in expenses;
      PostTally(b, ids, e.paidBy, e.amount);
      PostSplitsTally(Post(b, e.paidBy, e.amount), ids, e.splits);
      PostExpensesTally(PostExpense(b, e), ids, expenses[1..]);
    }
  }

  /** A single settlement between two members leaves the group's total unchanged. */
  lemma SettlementTally(b: Book, ids: seq<Id>, s: Settlement)
    requires Covers(b, ids) && Distinct(ids)
    requires s.from in ids && s.to in ids
    ensures var next := Post(Post(b, s.from, s.amount), s.to, -s.amount);
      Covers(next, ids) && Tally(next, ids) == Tally(b, ids)
  {
    PostTally(b, ids, s.from, s.amount);
    PostTally(Post(b, s.from, s.amount), ids, s.to, -s.amount);
  }

  lemma {:induction false} PostSettlementsTally(b: Book, ids: seq<Id>, settlements: seq<Settlement>)
    requires Covers(b, ids) && Distinct(ids)
    requires forall k | 0 <= k < |settlements| :: settlements[k].from in ids && settlements[k].to in ids
    ensures Covers(PostSettlements(b, settlements), ids)
    ensures Tally(PostSettlements(b, settlements), ids) == Tally(b, ids)
  {
    if settlements != [] {
      var s, rest := settlements[0], settlements[1..];
      var next := Post(Post(b, s.from, s.amount), s.to, -s.amount);
      SettlementTally(b, ids, s);
      PostSettlementsTally(next, ids, rest);
      assert PostSettlements(b, settlements) == PostSettlements(next, rest);
    }
  }

  lemma ConfirmedWithin(settlements: seq<Settlement>, ids: seq<Id>)
    requires forall s | s in settlements :: SettlementWithin(s, ids)
    ensures var c := ConfirmedOnly(settlements);
      forall k | 0 <= k < |c| :: c[k].from in ids && c[k].to in ids
  {
    var c := ConfirmedOnly(settlements);
    forall k | 0 <= k < |c| ensures c[k].from in ids && c[k].to in ids {
      assert c[k] in c;
    }
  }

  lemma {:induction false} ReportTotal(members: seq<User>, b: Book)
    requires forall m | m in members :: m.id in b
    ensures Covers(b, MemberIds(members))
    ensures BalanceTotal(Report(members, b)) == Tally(b, MemberIds(members))
  {
    if members != [] {
      ReportTotal(members[1..], b);
      assert MemberIds(members)[1..] == MemberIds(members[1..]);
      var head := Balance(members[0].id, members[0].name, b[members[0].id]);
      assert ([head] + Report(members[1..], b))[1..] == Report(members[1..], b);
    }
  }

  /** Posting the confirmed settlements moves money between members only. */
  lemma SettlementsKeepTally(members: seq<User>, expenses: seq<Expense>, settlements: seq<Settlement>)
    requires Distinct(MemberIds(members))
    requires forall s | s in settlements :: SettlementWithin(s, MemberIds(members))
    requires Covers(PostExpenses(Open(MemberIds(members)), expenses), MemberIds(members))
    ensures var ids := MemberIds(members);
      && Covers(Totals(members, expenses, settlements), ids)
      && Tally(Totals(members, expenses, settlements), ids) == Tally(PostExpenses(Open(ids), expenses), ids)
  {
    var ids := MemberIds(members);
    var afterExpenses := PostExpenses(Open(ids), expenses);
    ConfirmedWithin(settlements, ids);
    PostSettlementsTally(afterExpenses, ids, ConfirmedOnly(settlements));
    assert Totals(members, expenses, settlements) == PostSettlements(afterExpenses, ConfirmedOnly(settlements));
  }

  /** With distinct member ids, and expenses and confirmed settlements that
      mention only members, the balances add up to what was paid minus the
      shares still unpaid; settlements cancel out. */
  lemma BalancesTotal(members: seq<User>, expenses: seq<Expense>, settlements: seq<Settlement>)
    requires Distinct(MemberIds(members))
    requires forall e | e in expenses :: ExpenseWithin(e, MemberIds(members))
    requires forall s | s in settlements :: SettlementWithin(s, MemberIds(members))
    ensures BalanceTotal(CalculateBalances(members, expenses, settlements))
         == SumOf(expenses, (e: Expense) => e.amount - UnpaidTotal(e.splits))
  {
    var ids := MemberIds(members);
    var start := Open(ids);
    var unpaid := SumOf(expenses, (e: Expense) => e.amount - UnpaidTotal(e.splits));
    var afterExpenses := PostExpenses(start, expenses);
    assert Covers(afterExpenses, ids) && Tally(afterExpenses, ids) == unpaid by {
      OpenTally(start, ids);
      PostExpensesTally(start, ids, expenses);
    }
    var b := Totals(members, expenses, settlements);
    SettlementsKeepTally(members, expenses, settlements);
    assert BalanceTotal(Report(members, b)) == Tally(b, ids) by {
      MembersListed(members);
      ReportTotal(members, b);
    }
    assert CalculateBalances(members, expenses, settlements) == Report(members, b);
  }

  /** Conservation: when every expense's unpaid shares add up to its amount
      (and all ids are distinct members), the balances sum to zero. */
  lemma BalancesSumToZero(members: seq<User>, expenses: seq<Expense>, settlements: seq<Settlement>)
    requires Distinct(MemberIds(members))
    requires forall e | e in expenses :: ExpenseWithin(e, MemberIds(members)) && UnpaidTotal(e.splits) == e.amount
    requires forall s | s in settlements :: SettlementWithin(s, MemberIds(members))
    ensures BalanceTotal(CalculateBalances(members, expenses, settlements)) == 0
  {
    BalancesTotal(members, expenses, settlements);
    SumOfZero(expenses, (e: Expense) => e.amount - UnpaidTotal(e.splits));
  }

  /** Neither the order of the expenses nor that of the settlements matters. */
  lemma OrderIrrelevant(members: seq<User>, expenses: seq<Expense>, settlements: seq<Settlement>,
                        expenses': seq<Expense>, settlements': seq<Settlement>)
    requires multiset(expenses) == multiset(expenses')
    requires multiset(settlements) == multiset(settlements')
    ensures CalculateBalances(members, expenses, settlements) == CalculateBalances(members, expenses', settlements')
  {
    forall k | 0 <= k < |members|
      ensures NetOf(expenses, settlements, members[k].id) == NetOf(expenses', settlements', members[k].id)
    {
      var id := members[k].id;
      SumOfPermutation(expenses, expenses', (e: Expense) => ExpenseDelta(e, id));
      SumOfPermutation(settlements, settlements',
        (s: Settlement) => if s.status == Confirmed then Repayment(s, id) else 0);
    }
  }

  /** The expense mentions none of `ids`. */
  predicate ExpenseForeign(e: Expense, ids: seq<Id>) {
    e.paidBy !in ids && forall s | s in e.splits :: s.userId !in ids
  }

  /** The settlement is pending, or mentions none of `ids`. */
  predicate SettlementIgnored(s: Settlement, ids: seq<Id>) {
    s.status == Pending || (s.from !in ids && s.to !in ids)
  }

  /** Entries that do not concern `id` leave its net position alone. */
  lemma IgnoredNet(id: Id, expenses: seq<Expense>, settlements: seq<Settlement>,
                   moreExpenses: seq<Expense>, moreSettlements: seq<Settlement>, ids: seq<Id>)
    requires id in ids
    requires forall e | e in moreExpenses :: ExpenseForeign(e, ids)
    requires forall s | s in moreSettlements :: SettlementIgnored(s, ids)
    ensures NetOf(expenses + moreExpenses, settlements + moreSettlements, id) == NetOf(expenses, settlements, id)
  {
    var fe := (e: Expense) => ExpenseDelta(e, id);
    var fs := (s: Settlement) => if s.status == Confirmed then Repayment(s, id) else 0;
    SumOfConcat(expenses, moreExpenses, fe);
    SumOfConcat(settlements, moreSettlements, fs);
    forall e | e in moreExpenses ensures fe(e) == 0 {
      SumOfZero(e.splits, (s: Split) => if s.userId == id && !s.paid then s.amount else 0);
    }
    SumOfZero(moreExpenses, fe);
    SumOfZero(moreSettlements, fs);
  }

  /** Adding expenses between non-members, and settlements that are pending
      or between non-members, changes no returned balance. */
  lemma IgnoredEntries(members: seq<User>, expenses: seq<Expense>, settlements: seq<Settlement>,
                       moreExpenses: seq<Expense>, moreSettlements: seq<Settlement>)
    requires forall e | e in moreExpenses :: ExpenseForeign(e, MemberIds(members))
    requires forall s | s in moreSettlements :: SettlementIgnored(s, MemberIds(members))
    ensures CalculateBalances(members, expenses + moreExpenses, settlements + moreSettlements)
         == CalculateBalances(members, expenses, settlements)
  {
    var ids := MemberIds(members);
    forall k | 0 <= k < |members|
      ensures NetOf(expenses + moreExpenses, settlements + moreSettlements, members[k].id)
           == NetOf(expenses, settlements, members[k].id)
    {
      assert members[k].id == ids[k];
      IgnoredNet(members[k].id, expenses, settlements, moreExpenses, moreSettlements, ids);
    }
  }

  /* ---------- optimizeTransactions ---------- */

  datatype Direction = Ascending | Descending

  /** The sort key: `a.amount - b.amount` sorts ascending, `b.amount - a.amount` descending. */
  function Key(b: Balance, dir: Direction): int {
    if dir == Ascending then b.amount else -b.amount
  }

  predicate SortedBy(bs: seq<Balance>, dir: Direction) {
    forall i, j | 0 <= i < j < |bs| :: Key(bs[i], dir) <= Key(bs[j], dir)
  }

  /** A smallest-key head in front of a sorted list keeps it sorted. */
  lemma SortedCons(h: Balance, t: seq<Balance>, dir: Direction)
    requires SortedBy(t, dir)
    requires forall y | y in t :: Key(h, dir) <= Key(y, dir)
    ensures SortedBy([h] + t, dir)
  {
    var r := [h] + t;
    forall i, j | 0 <= i < j < |r| ensures Key(r[i], dir) <= Key(r[j], dir) {
      assert r[j] == t[j - 1];
      if i > 0 {
        assert r[i] == t[i - 1];
      } else {
        assert t[j - 1] in t;
      }
    }
  }

  /** The head of a sorted list has the smallest key. */
  lemma SortedHeadLeast(bs: seq<Balance>, dir: Direction)
    requires bs != [] && SortedBy(bs, dir)
    ensures forall y | y in bs :: Key(bs[0], dir) <= Key(y, dir)
  {
    forall y | y in bs ensures Key(bs[0], dir) <= Key(y, dir) {
      var k :| 0 <= k < |bs| && bs[k] == y;
    }
  }

  /** A key no larger than the head's may go in front. */
  lemma InsertAtFront(x: Balance, bs: seq<Balance>, dir: Direction)
    requires SortedBy(bs, dir)
    requires bs == [] || Key(x, dir) <= Key(bs[0], dir)
    ensures SortedBy([x] + bs, dir)
  {
    if bs != [] {
      SortedHeadLeast(bs, dir);
    }
    SortedCons(x, bs, dir);
  }

  /** Everything in `t` is `x` or comes from `rest`. */
  lemma FromEither(t: seq<Balance>, rest: seq<Balance>, x: Balance)
    requires multiset(t) == multiset(rest) + multiset{x}
    ensures forall y | y in t :: y == x || y in rest
  {
    forall y | y in t ensures y == x || y in rest {
      assert y in multiset(t);
    }
  }

  /** Places `x` before the first element whose key is not smaller, so that
      equal keys keep their input order. */
  function Insert(x: Balance, bs: seq<Balance>, dir: Direction): seq<Balance> {
    if bs == [] || Key(x, dir) <= Key(bs[0], dir) then [x] + bs
    else [bs[0]] + Insert(x, bs[1..], dir)
  }

  /** Inserting adds exactly `x`. */
  lemma {:induction false} InsertPermutes(x: Balance, bs: seq<Balance>, dir: Direction)
    ensures multiset(Insert(x, bs, dir)) == multiset(bs) + multiset{x}
  {
    if !(bs == [] || Key(x, dir) <= Key(bs[0], dir)) {
      assert bs == [bs[0]] + bs[1..];
      InsertPermutes(x, bs[1..], dir);
    }
  }

  /** Inserting into a sorted list keeps it sorted. */
  lemma {:induction false} InsertSorted(x: Balance, bs: seq<Balance>, dir: Direction)
    requires SortedBy(bs, dir)
    ensures SortedBy(Insert(x, bs, dir), dir)
  {
    if bs == [] || Key(x, dir) <= Key(bs[0], dir) {
      InsertAtFront(x, bs, dir);
    } else {
      var h, rest := bs[0], bs[1..];
      assert bs == [h] + rest;
      assert SortedBy(rest, dir);
      var tail := Insert(x, rest, dir);
      InsertSorted(x, rest, dir);
      InsertPermutes(x, rest, dir);
      SortedHeadLeast(bs, dir);
      FromEither(tail, rest, x);
      SortedCons(h, tail, dir);
    }
  }

  /** A stable insertion sort, as `Array.prototype.sort` is stable. */
  function Sort(bs: seq<Balance>, dir: Direction): seq<Balance> {
    if bs == [] then [] else Insert(bs[0], Sort(bs[1..], dir), dir)
  }

  /** The sort returns a permutation of its input. */
  lemma {:induction false} SortPermutes(bs: seq<Balance>, dir: Direction)
    ensures multiset(Sort(bs, dir)) == multiset(bs)
  {
    if bs != [] {
      SortPermutes(bs[1..], dir);
      InsertPermutes(bs[0], Sort(bs[1..], dir), dir);
      assert bs == [bs[0]] + bs[1..];
    }
  }

  /** The sort returns a sorted list. */
  lemma {:induction false} SortSorted(bs: seq<Balance>, dir: Direction)
    ensures SortedBy(Sort(bs, dir), dir)
  {
    if bs != [] {
      SortSorted(bs[1..], dir);
      InsertSorted(bs[0], Sort(bs[1..], dir), dir);
    }
  }

  /** The balances below zero, in input order. */
  function Negatives(bs: seq<Balance>): seq<Balance> {
    if bs == [] then [] else (if bs[0].amount < 0 then [bs[0]] else []) + Negatives(bs[1..])
  }

  /** The balances above zero, in input order. */
  function Positives(bs: seq<Balance>): seq<Balance> {
    if bs == [] then [] else (if bs[0].amount > 0 then [bs[0]] else []) + Positives(bs[1..])
  }

  /** A balance is a negative one exactly when it is listed and below zero,
      and a positive one exactly when it is listed and above zero. */
  lemma {:induction false} FilterMembers(bs: seq<Balance>)
    ensures forall b :: b in Negatives(bs) <==> b in bs && b.amount < 0
    ensures forall b :: b in Positives(bs) <==> b in bs && b.amount > 0
  {
    if bs != [] {
      FilterMembers(bs[1..]);
    }
  }

  /** The balances below zero, most negative first. */
  function Debtors(bs: seq<Balance>): seq<Balance> {
    Sort(Negatives(bs), Ascending)
  }

  /** The balances above zero, largest first. */
  function Creditors(bs: seq<Balance>): seq<Balance> {
    Sort(Positives(bs), Descending)
  }

  /** The debtors are the negative balances, each as often as it occurs,
      most negative first. */
  lemma DebtorsOrdered(bs: seq<Balance>)
    ensures SortedBy(Debtors(bs), Ascending)
    ensures multiset(Debtors(bs)) == multiset(Negatives(bs))
  {
    SortSorted(Negatives(bs), Ascending);
    SortPermutes(Negatives(bs), Ascending);
  }

  /** The creditors are the positive balances, each as often as it occurs,
      largest first. */
  lemma CreditorsOrdered(bs: seq<Balance>)
    ensures SortedBy(Creditors(bs), Descending)
    ensures multiset(Creditors(bs)) == multiset(Positives(bs))
  {
    SortSorted(Positives(bs), Descending);
    SortPermutes(Positives(bs), Descending);
  }

  /** Every debtor is a listed negative balance. */
  lemma DebtorsListed(bs: seq<Balance>)
    ensures forall k | 0 <= k < |Debtors(bs)| :: Debtors(bs)[k] in bs && Debtors(bs)[k].amount < 0
  {
    var ds := Debtors(bs);
    DebtorsOrdered(bs);
    FilterMembers(bs);
    forall k | 0 <= k < |ds| ensures ds[k] in bs && ds[k].amount < 0 {
      assert ds[k] in multiset(ds);
      assert ds[k] in Negatives(bs);
    }
  }

  /** Every creditor is a listed positive balance. */
  lemma CreditorsListed(bs: seq<Balance>)
    ensures forall k | 0 <= k < |Creditors(bs)| :: Creditors(bs)[k] in bs && Creditors(bs)[k].amount > 0
  {
    var cs := Creditors(bs);
    CreditorsOrdered(bs);
    FilterMembers(bs);
    forall k | 0 <= k < |cs| ensures cs[k] in bs && cs[k].amount > 0 {
      assert cs[k] in multiset(cs);
      assert cs[k] in Positives(bs);
    }
  }

  /** Debtor balances as magnitudes (`Math.abs(debtor.amount)`). */
  function Magnitudes(ds: seq<Balance>): (r: seq<Party>)
    ensures |r| == |ds|
    ensures forall k | 0 <= k < |ds| :: r[k] == Party(ds[k].userId, -ds[k].amount)
  {
    seq(|ds|, k requires 0 <= k < |ds| => Party(ds[k].userId, -ds[k].amount))
  }

  /** Creditor balances as they stand. */
  function Amounts(cs: seq<Balance>): (r: seq<Party>)
    ensures |r| == |cs|
    ensures forall k | 0 <= k < |cs| :: r[k] == Party(cs[k].userId, cs[k].amount)
  {
    seq(|cs|, k requires 0 <= k < |cs| => Party(cs[k].userId, cs[k].amount))
  }

  function Abs(x: int): int {
    if x < 0 then -x else x
  }

  /** The debtor and creditor lists of the plan, as parties. */
  function DebtParties(balances: seq<Balance>): seq<Party> {
    Magnitudes(Debtors(balances))
  }

  function CreditParties(balances: seq<Balance>): seq<Party> {
    Amounts(Creditors(balances))
  }

  /** The plan: every transfer the loop pushes. */
  function Plan(balances: seq<Balance>): seq<Transfer> {
    Emitted(Steps(DebtParties(balances), CreditParties(balances)))
  }

  /** Some balance of `id` is negative and owes at least `amount`. */
  predicate OwesAtLeast(bs: seq<Balance>, id: Id, amount: int) {
    exists b | b in bs :: b.userId == id && b.amount < 0 && amount <= -b.amount
  }

  /** Some balance of `id` is positive and is owed at least `amount`. */
  predicate IsOwedAtLeast(bs: seq<Balance>, id: Id, amount: int) {
    exists b | b in bs :: b.userId == id && b.amount > 0 && amount <= b.amount
  }

  lemma PartiesOwing(balances: seq<Balance>)
    ensures Owing(DebtParties(balances)) && Owing(CreditParties(balances))
  {
    DebtorsListed(balances);
    CreditorsListed(balances);
  }

  lemma HoldsMeansBalance(bs: seq<Balance>, id: Id, amount: int)
    ensures Holds(DebtParties(bs), id, amount) ==> OwesAtLeast(bs, id, amount)
    ensures Holds(CreditParties(bs), id, amount) ==> IsOwedAtLeast(bs, id, amount)
  {
    var ds, cs := Debtors(bs), Creditors(bs);
    DebtorsListed(bs);
    CreditorsListed(bs);
    if Holds(DebtParties(bs), id, amount) {
      var k :| 0 <= k < |ds| && DebtParties(bs)[k].id == id && amount <= DebtParties(bs)[k].rest;
      assert ds[k] in ds;
    }
    if Holds(CreditParties(bs), id, amount) {
      var k :| 0 <= k < |cs| && CreditParties(bs)[k].id == id && amount <= CreditParties(bs)[k].rest;
      assert cs[k] in cs;
    }
  }

  /** What the plan promises: transfers above one cent only, each from a
      debtor to a creditor and no larger than either's starting balance, at
      most one fewer than the parties involved, and none when every balance
      is zero. */
  lemma PlanFacts(balances: seq<Balance>)
    ensures var plan := Plan(balances);
      var nd, nc := |Debtors(balances)|, |Creditors(balances)|;
      && (forall t | t in plan ::
            OverCent(t.amount) && OwesAtLeast(balances, t.from, t.amount) && IsOwedAtLeast(balances, t.to, t.amount))
      && |plan| <= (if nd == 0 || nc == 0 then 0 else nd + nc - 1)
      && ((forall b | b in balances :: b.amount == 0) ==> plan == [])
  {
    var ds, cs := DebtParties(balances), CreditParties(balances);
    PartiesOwing(balances);
    StepsCount(ds, cs);
    StepsEnds(ds, cs);
    EmittedMembers(Steps(ds, cs));
    forall t | t in Plan(balances)
      ensures OwesAtLeast(balances, t.from, t.amount) && IsOwedAtLeast(balances, t.to, t.amount)
    {
      HoldsMeansBalance(balances, t.from, t.amount);
      HoldsMeansBalance(balances, t.to, t.amount);
    }
    if forall b | b in balances :: b.amount == 0 {
      ZeroFiltersEmpty(balances);
    }
  }

  /** How many balances are not zero. */
  function NonZero(bs: seq<Balance>): nat {
    if bs == [] then 0 else (if bs[0].amount != 0 then 1 else 0) + NonZero(bs[1..])
  }

  /** Every non-zero balance goes to exactly one of the two filters. */
  lemma {:induction false} FilterCount(bs: seq<Balance>)
    ensures |Negatives(bs)| + |Positives(bs)| == NonZero(bs)
  {
    if bs != [] {
      FilterCount(bs[1..]);
    }
  }

  /** n non-zero balances give at most n - 1 transfers, and none when n is zero. */
  lemma PlanSize(balances: seq<Balance>)
    ensures var n := NonZero(balances);
      |Plan(balances)| <= if n == 0 then 0 else n - 1
  {
    var ds, cs := Debtors(balances), Creditors(balances);
    assert |ds| + |cs| == NonZero(balances) by {
      DebtorsOrdered(balances);
      CreditorsOrdered(balances);
      assert |multiset(ds)| == |Negatives(balances)| && |multiset(cs)| == |Positives(balances)|;
      FilterCount(balances);
    }
    StepsCount(DebtParties(balances), CreditParties(balances));
  }

  lemma {:induction false} ZeroFiltersEmpty(bs: seq<Balance>)
    requires forall b | b in bs :: b.amount == 0
    ensures Negatives(bs) == [] && Positives(bs) == []
  {
    if bs != [] {
      assert bs[0] in bs;
      ZeroFiltersEmpty(bs[1..]);
    }
  }

  /** One round on the signed working copies is one round of `Steps` on the
      magnitudes: the debtor's amount rises by the transfer, the creditor's
      falls by it, and an index moves once its amount is within a cent of zero. */
  lemma RoundOnBalances(ds: seq<Balance>, cs: seq<Balance>, i: int, j: int, a: int,
                        ds': seq<Balance>, cs': seq<Balance>, i': int, j': int)
    requires 0 <= i < |ds| && 0 <= j < |cs|
    requires forall k | i <= k < |ds| :: ds[k].amount < 0
    requires forall k | j <= k < |cs| :: cs[k].amount > 0
    requires a == Min(Abs(ds[i].amount), cs[j].amount)
    requires ds' == ds[i := ds[i].(amount := ds[i].amount + a)]
    requires cs' == cs[j := cs[j].(amount := cs[j].amount - a)]
    requires i' == if Settled(Abs(ds'[i].amount)) then i + 1 else i
    requires j' == if Settled(Abs(cs'[j].amount)) then j + 1 else j
    ensures forall k | i' <= k < |ds'| :: ds'[k].amount < 0
    ensures forall k | j' <= k < |cs'| :: cs'[k].amount > 0
    ensures Emitted(Steps(Magnitudes(ds)[i..], Amounts(cs)[j..]))
         == (if OverCent(a) then [Transfer(ds[i].userId, cs[j].userId, a)] else [])
            + Emitted(Steps(Magnitudes(ds')[i'..], Amounts(cs')[j'..]))
  {
    var d, c := Magnitudes(ds), Amounts(cs);
    assert d[i].rest == Abs(ds[i].amount) && c[j].rest == cs[j].amount;
    MagnitudesUpdate(ds, i, a);
    AmountsUpdate(cs, j, a);
    assert Magnitudes(ds')[i].rest == Abs(ds'[i].amount);
    assert Amounts(cs')[j].rest == Abs(cs'[j].amount);
    RoundOnCopies(d, c, i, j, a, Magnitudes(ds'), Amounts(cs'), i', j');
  }

  lemma MagnitudesUpdate(ds: seq<Balance>, i: int, a: int)
    requires 0 <= i < |ds|
    ensures var d := Magnitudes(ds);
      Magnitudes(ds[i := ds[i].(amount := ds[i].amount + a)]) == d[i := d[i].(rest := d[i].rest - a)]
  {
    var ds' := ds[i := ds[i].(amount := ds[i].amount + a)];
    var d, m := Magnitudes(ds), Magnitudes(ds');
    var e := d[i := d[i].(rest := d[i].rest - a)];
    assert |m| == |e|;
    forall k | 0 <= k < |m| ensures m[k] == e[k] {
      if k == i {
        assert m[k] == Party(ds'[k].userId, -ds'[k].amount);
      } else {
        assert m[k] == Party(ds[k].userId, -ds[k].amount);
      }
    }
  }

  lemma AmountsUpdate(cs: seq<Balance>, j: int, a: int)
    requires 0 <= j < |cs|
    ensures var c := Amounts(cs);
      Amounts(cs[j := cs[j].(amount := cs[j].amount - a)]) == c[j := c[j].(rest := c[j].rest - a)]
  {
    var cs' := cs[j := cs[j].(amount := cs[j].amount - a)];
    var c, m := Amounts(cs), Amounts(cs');
    var e := c[j := c[j].(rest := c[j].rest - a)];
    assert |m| == |e|;
    forall k | 0 <= k < |m| ensures m[k] == e[k] {
      if k == j {
        assert m[k] == Party(cs'[k].userId, cs'[k].amount);
      } else {
        assert m[k] == Party(cs[k].userId, cs[k].amount);
      }
    }
  }

  /** One pass of the loop body: the debtor pays the creditor the smaller
      of the two amounts (recorded only above one cent), both working
      amounts move by it, and each index advances once its amount is
      within a cent of zero. */
  method MatchRound(ds: seq<Balance>, cs: seq<Balance>, i: int, j: int)
    returns (pushed: seq<Transfer>, ds': seq<Balance>, cs': seq<Balance>, i': int, j': int)
    requires 0 <= i < |ds| && 0 <= j < |cs|
    requires forall k | i <= k < |ds| :: ds[k].amount < 0
    requires forall k | j <= k < |cs| :: cs[k].amount > 0
    ensures |ds'| == |ds| && |cs'| == |cs|
    ensures i <= i' <= i + 1 && j <= j' <= j + 1 && (i' > i || j' > j)
    ensures forall k | i' <= k < |ds'| :: ds'[k].amount < 0
    ensures forall k | j' <= k < |cs'| :: cs'[k].amount > 0
    ensures Emitted(Steps(Magnitudes(ds)[i..], Amounts(cs)[j..]))
         == pushed + Emitted(Steps(Magnitudes(ds')[i'..], Amounts(cs')[j'..]))
  {
    var debtor, creditor := ds[i], cs[j];
    var amount := Min(Abs(debtor.amount), creditor.amount);
    pushed := if OverCent(amount) then [Transfer(debtor.userId, creditor.userId, amount)] else [];
    ds' := ds[i := debtor.(amount := debtor.amount + amount)];
    cs' := cs[j := creditor.(amount := creditor.amount - amount)];
    i', j' := i, j;
    if Settled(Abs(ds'[i].amount)) {
      i' := i + 1;
    }
    if Settled(Abs(cs'[j].amount)) {
      j' := j + 1;
    }
    RoundOnBalances(ds, cs, i, j, amount, ds', cs', i', j');
  }

  /** The two-index loop over debtors (negative amounts) and creditors
      (positive amounts). The source adjusts the caller's own `Balance`
      records in place; here the lists are working copies. */
  method MatchSorted(debtors: seq<Balance>, creditors: seq<Balance>) returns (txs: seq<Transfer>)
    requires forall k | 0 <= k < |debtors| :: debtors[k].amount < 0
    requires forall k | 0 <= k < |creditors| :: creditors[k].amount > 0
    ensures txs == Emitted(Steps(Magnitudes(debtors), Amounts(creditors)))
  {
    var ds, cs := debtors, creditors;
    txs := [];
    var i, j := 0, 0;
    ghost var plan := Emitted(Steps(Magnitudes(debtors), Amounts(creditors)));
    assert Magnitudes(ds)[i..] == Magnitudes(debtors) && Amounts(cs)[j..] == Amounts(creditors);
    while i < |ds| && j < |cs|
      invariant 0 <= i <= |ds| && 0 <= j <= |cs|
      invariant forall k | i <= k < |ds| :: ds[k].amount < 0
      invariant forall k | j <= k < |cs| :: cs[k].amount > 0
      invariant plan == txs + Emitted(Steps(Magnitudes(ds)[i..], Amounts(cs)[j..]))
      decreases |ds| - i + |cs| - j
    {
      var pushed;
      ghost var before := txs;
      pushed, ds, cs, i, j := MatchRound(ds, cs, i, j);
      txs := txs + pushed;
      AppendAssoc(before, pushed, Emitted(Steps(Magnitudes(ds)[i..], Amounts(cs)[j..])));
    }
    assert Steps(Magnitudes(ds)[i..], Amounts(cs)[j..]) == [];
  }

  /** `optimizeTransactions`: creditors largest first, debtors most negative
      first, then the two-index loop. */
  method OptimizeTransactions(balances: seq<Balance>) returns (txs: seq<Transfer>)
    ensures txs == Plan(balances)
  {
    var creditors := Creditors(balances);
    var debtors := Debtors(balances);
    DebtorsListed(balances);
    CreditorsListed(balances);
    txs := MatchSorted(debtors, creditors);
  }

  /* ---------- settling the plan ---------- */

  /** The debt of member `id` over its negative balances, as a magnitude. */
  function DebtOf(bs: seq<Balance>, id: Id): int {
    SumOf(bs, (b: Balance) => if b.userId == id && b.amount < 0 then -b.amount else 0)
  }

  /** The credit of member `id` over its positive balances. */
  function CreditOf(bs: seq<Balance>, id: Id): int {
    SumOf(bs, (b: Balance) => if b.userId == id && b.amount > 0 then b.amount else 0)
  }

  /** What the debtor parties of `id` owe is the magnitude of its balances. */
  lemma {:induction false} MagnitudesOwed(ds: seq<Balance>, id: Id)
    ensures Owed(Magnitudes(ds), id) == SumOf(ds, (b: Balance) => if b.userId == id then -b.amount else 0)
  {
    if ds != [] {
      assert Magnitudes(ds)[1..] == Magnitudes(ds[1..]);
      MagnitudesOwed(ds[1..], id);
    }
  }

  lemma {:induction false} MagnitudesTotal(ds: seq<Balance>)
    ensures Total(Magnitudes(ds)) == SumOf(ds, (b: Balance) => -b.amount)
  {
    if ds != [] {
      assert Magnitudes(ds)[1..] == Magnitudes(ds[1..]);
      MagnitudesTotal(ds[1..]);
    }
  }

  lemma {:induction false} AmountsOwed(cs: seq<Balance>, id: Id)
    ensures Owed(Amounts(cs), id) == SumOf(cs, (b: Balance) => if b.userId == id then b.amount else 0)
  {
    if cs != [] {
      assert Amounts(cs)[1..] == Amounts(cs[1..]);
      AmountsOwed(cs[1..], id);
    }
  }

  lemma {:induction false} AmountsTotal(cs: seq<Balance>)
    ensures Total(Amounts(cs)) == SumOf(cs, (b: Balance) => b.amount)
  {
    if cs != [] {
      assert Amounts(cs)[1..] == Amounts(cs[1..]);
      AmountsTotal(cs[1..]);
    }
  }

  /** The negative balances of `id` add up to its debt. */
  lemma {:induction false} NegativesDebt(bs: seq<Balance>, id: Id)
    ensures SumOf(Negatives(bs), (b: Balance) => if b.userId == id then -b.amount else 0) == DebtOf(bs, id)
  {
    if bs != [] {
      NegativesDebt(bs[1..], id);
      var head := if bs[0].amount < 0 then [bs[0]] else [];
      SumOfConcat(head, Negatives(bs[1..]), (b: Balance) => if b.userId == id then -b.amount else 0);
    }
  }

  /** The positive balances of `id` add up to its credit. */
  lemma {:induction false} PositivesCredit(bs: seq<Balance>, id: Id)
    ensures SumOf(Positives(bs), (b: Balance) => if b.userId == id then b.amount else 0) == CreditOf(bs, id)
  {
    if bs != [] {
      PositivesCredit(bs[1..], id);
      var head := if bs[0].amount > 0 then [bs[0]] else [];
      SumOfConcat(head, Positives(bs[1..]), (b: Balance) => if b.userId == id then b.amount else 0);
    }
  }

  /** Credit minus debt over the two filters is the sum of all balances. */
  lemma {:induction false} FilterTotals(bs: seq<Balance>)
    ensures SumOf(Positives(bs), (b: Balance) => b.amount) - SumOf(Negatives(bs), (b: Balance) => -b.amount)
         == BalanceTotal(bs)
  {
    if bs != [] {
      FilterTotals(bs[1..]);
      var dh := if bs[0].amount < 0 then [bs[0]] else [];
      var ch := if bs[0].amount > 0 then [bs[0]] else [];
      SumOfConcat(dh, Negatives(bs[1..]), (b: Balance) => -b.amount);
      SumOfConcat(ch, Positives(bs[1..]), (b: Balance) => b.amount);
    }
  }

  /** Sorting does not change what the debtor and creditor parties add up to. */
  lemma PartiesTotals(balances: seq<Balance>)
    ensures Total(CreditParties(balances)) - Total(DebtParties(balances)) == BalanceTotal(balances)
  {
    var ds, cs := Debtors(balances), Creditors(balances);
    DebtorsOrdered(balances);
    CreditorsOrdered(balances);
    MagnitudesTotal(ds);
    AmountsTotal(cs);
    SumOfPermutation(ds, Negatives(balances), (b: Balance) => -b.amount);
    SumOfPermutation(cs, Positives(balances), (b: Balance) => b.amount);
    FilterTotals(balances);
  }

  /** Sorting does not change what one member owes or is owed. */
  lemma PartiesOwed(balances: seq<Balance>, id: Id)
    ensures Owed(DebtParties(balances), id) == DebtOf(balances, id)
    ensures Owed(CreditParties(balances), id) == CreditOf(balances, id)
  {
    var ds, cs := Debtors(balances), Creditors(balances);
    DebtorsOrdered(balances);
    CreditorsOrdered(balances);
    MagnitudesOwed(ds, id);
    AmountsOwed(cs, id);
    SumOfPermutation(ds, Negatives(balances), (b: Balance) => if b.userId == id then -b.amount else 0);
    SumOfPermutation(cs, Positives(balances), (b: Balance) => if b.userId == id then b.amount else 0);
    NegativesDebt(balances, id);
    PositivesCredit(balances, id);
  }

  /** When the balances sum to zero, the loop settles everyone: over its
      rounds (the absorbed one-cent rounds included) each member pays out
      exactly its debt and receives exactly its credit. */
  lemma SettlementsCloseTheLoop(balances: seq<Balance>, id: Id)
    requires BalanceTotal(balances) == 0
    ensures Sent(Steps(DebtParties(balances), CreditParties(balances)), id) == DebtOf(balances, id)
    ensures Received(Steps(DebtParties(balances), CreditParties(balances)), id) == CreditOf(balances, id)
  {
    PartiesOwing(balances);
    PartiesTotals(balances);
    PartiesOwed(balances, id);
    StepsSettle(DebtParties(balances), CreditParties(balances), id);
  }
}
