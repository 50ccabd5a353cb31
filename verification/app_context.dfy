/** The app's shared state (`context/AppContext.tsx`): the fixed user list
    and the four list updates the screens call. Ids that `uuidv4` would
    generate are passed in as `freshId`. */
module AppContext {
  import opened Ledger
  import opened TypesV2
  import DebtV2

  function Avatar(id: Id): string {
    "https://i.pravatar.cc/150?u=" + id
  }

  /** The five members every screen works with. */
  const Users: seq<User> := [
    User("1", "Alice", Avatar("1")),
    User("2", "Bob", Avatar("2")),
    User("3", "Charlie", Avatar("3")),
    User("4", "Diana", Avatar("4")),
    User("5", "Eric", Avatar("5"))
  ]

  datatype State = State(users: seq<User>, expenses: seq<Expense>, settlements: seq<Settlement>)

  /** The provider's starting state; the demo expenses are a parameter. */
  function Initial(demoExpenses: seq<Expense>): (s: State)
    ensures s.settlements == []
    ensures s.users == Users
    ensures UserIds(s.users) == ["1", "2", "3", "4", "5"] && Distinct(UserIds(s.users))
    ensures s.expenses == demoExpenses
  {
    var ids := UserIds(Users);
    assert ids == ["1", "2", "3", "4", "5"];
    State(Users, demoExpenses, [])
  }

  /** Demo expenses that name only the five users and whose splits add up
      to their amounts start the app with balances summing to zero. */
  lemma InitialBalanced(demoExpenses: seq<Expense>)
    requires forall e | e in demoExpenses :: DebtV2.Within(e, UserIds(Users)) && SplitTotal(e.splits) == e.amount
    ensures var s := Initial(demoExpenses);
      DebtV2.BalanceTotal(DebtV2.CalculateBalances(s.expenses, s.users)) == 0
  {
    var s := Initial(demoExpenses);
    DebtV2.BalancesSumToZero(s.expenses, s.users);
  }

  function WithId(input: ExpenseInput, id: Id): Expense {
    Expense(id, input.description, input.amount, input.paidBy, input.splits, input.category)
  }

  /** `addExpense`: appends the new expense under a fresh id. */
  function AddExpense(expenses: seq<Expense>, input: ExpenseInput, freshId: Id): (r: seq<Expense>)
    ensures |r| == |expenses| + 1
    ensures r[..|expenses|] == expenses
    ensures r[|expenses|].id == freshId
    ensures r[|expenses|] == WithId(input, freshId)
  {
    expenses + [WithId(input, freshId)]
  }

  /** `deleteExpense`: keeps the expenses whose id differs, in order. */
  function DeleteExpense(expenses: seq<Expense>, id: Id): (r: seq<Expense>)
    ensures |r| <= |expenses|
    ensures forall e :: e in r <==> e in expenses && e.id != id
  {
    if expenses == [] then []
    else (if expenses[0].id == id then [] else [expenses[0]]) + DeleteExpense(expenses[1..], id)
  }

  /** Deleting keeps order: it distributes over concatenation. */
  lemma {:induction false} DeleteKeepsOrder(a: seq<Expense>, b: seq<Expense>, id: Id)
    ensures DeleteExpense(a + b, id) == DeleteExpense(a, id) + DeleteExpense(b, id)
  {
    if a == [] {
      assert a + b == b;
    } else {
      assert (a + b)[1..] == a[1..] + b;
      DeleteKeepsOrder(a[1..], b, id);
    }
  }

  /** Deleting an id no expense carries changes nothing. */
  lemma {:induction false} DeleteAbsent(expenses: seq<Expense>, id: Id)
    requires forall e | e in expenses :: e.id != id
    ensures DeleteExpense(expenses, id) == expenses
  {
    if expenses != [] {
      assert expenses[0] in expenses;
      DeleteAbsent(expenses[1..], id);
    }
  }

  /** Deleting twice is deleting once. */
  lemma DeleteIdempotent(expenses: seq<Expense>, id: Id)
    ensures DeleteExpense(DeleteExpense(expenses, id), id) == DeleteExpense(expenses, id)
  {
    DeleteAbsent(DeleteExpense(expenses, id), id);
  }

  /** Deleting an expense just added under a fresh id restores the list. */
  lemma DeleteUndoesAdd(expenses: seq<Expense>, input: ExpenseInput, freshId: Id)
    requires forall e | e in expenses :: e.id != freshId
    ensures DeleteExpense(AddExpense(expenses, input, freshId), freshId) == expenses
  {
    DeleteKeepsOrder(expenses, [WithId(input, freshId)], freshId);
    DeleteAbsent(expenses, freshId);
    assert DeleteExpense([WithId(input, freshId)], freshId) == [];
  }

  function SettlementWithId(input: SettlementInput, id: Id): Settlement {
    Settlement(id, input.from, input.to, input.amount, input.confirmed)
  }

  /** `addSettlement`: appends the new settlement under a fresh id. */
  function AddSettlement(settlements: seq<Settlement>, input: SettlementInput, freshId: Id): (r: seq<Settlement>)
    ensures |r| == |settlements| + 1
    ensures r[..|settlements|] == settlements
    ensures r[|settlements|] == SettlementWithId(input, freshId)
  {
    settlements + [SettlementWithId(input, freshId)]
  }

  /** `confirmSettlement`: marks the settlements with this id confirmed. */
  function ConfirmSettlement(settlements: seq<Settlement>, id: Id): (r: seq<Settlement>)
    ensures |r| == |settlements|
    ensures forall k | 0 <= k < |r| :: r[k].(confirmed := settlements[k].confirmed) == settlements[k]
    ensures forall k | 0 <= k < |r| :: r[k].confirmed <==> settlements[k].confirmed || settlements[k].id == id
  {
    if settlements == [] then []
    else
      var s := settlements[0];
      [if s.id == id then s.(confirmed := true) else s] + ConfirmSettlement(settlements[1..], id)
  }

  /** Confirming twice is confirming once. */
  lemma ConfirmIdempotent(settlements: seq<Settlement>, id: Id)
    ensures ConfirmSettlement(ConfirmSettlement(settlements, id), id) == ConfirmSettlement(settlements, id)
  {
    var once := ConfirmSettlement(settlements, id);
    var twice := ConfirmSettlement(once, id);
    forall k | 0 <= k < |twice| ensures twice[k] == once[k] {
      assert twice[k].(confirmed := once[k].confirmed) == once[k];
    }
  }

  /** An id no settlement carries changes nothing. */
  lemma ConfirmUnknown(settlements: seq<Settlement>, id: Id)
    requires forall s | s in settlements :: s.id != id
    ensures ConfirmSettlement(settlements, id) == settlements
  {
    var r := ConfirmSettlement(settlements, id);
    forall k | 0 <= k < |r| ensures r[k] == settlements[k] {
      assert settlements[k] in settlements;
      assert r[k].(confirmed := settlements[k].confirmed) == settlements[k];
    }
  }
}
