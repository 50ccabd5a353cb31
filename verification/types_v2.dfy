/** The records of the app's context and screens (`types/index.ts`), with
    amounts in integer cents. Dates, receipts, proofs and avatars beyond the
    user's own field are not modelled. */
module TypesV2 {
  import opened Ledger

  datatype User = User(id: Id, name: string, avatar: string)

  /** One member's share of an expense. */
  datatype Split = Split(userId: Id, amount: int)

  datatype Expense = Expense(
    id: Id,
    description: string,
    amount: int,
    paidBy: Id,
    splits: seq<Split>,
    category: string)

  datatype Settlement = Settlement(id: Id, from: Id, to: Id, amount: int, confirmed: bool)

  /** An expense before the context gives it an id (`Omit<Expense, 'id'>`). */
  datatype ExpenseInput = ExpenseInput(
    description: string,
    amount: int,
    paidBy: Id,
    splits: seq<Split>,
    category: string)

  /** A settlement before the context gives it an id (`Omit<Settlement, 'id'>`). */
  datatype SettlementInput = SettlementInput(from: Id, to: Id, amount: int, confirmed: bool)

  /** A member's signed net position: positive is owed money, negative owes money. */
  datatype Balance = Balance(userId: Id, amount: int)

  /** The sum of all split amounts. */
  function SplitTotal(splits: seq<Split>): int {
    SumOf(splits, (s: Split) => s.amount)
  }

  /** The ids of `users`, in order. */
  function UserIds(users: seq<User>): (ids: seq<Id>)
    ensures |ids| == |users|
    ensures forall k | 0 <= k < |users| :: ids[k] == users[k].id
  {
    if users == [] then [] else [users[0].id] + UserIds(users[1..])
  }

  /** Every user's id is listed. */
  lemma UsersListed(users: seq<User>)
    ensures forall u | u in users :: u.id in UserIds(users)
  {
    var ids := UserIds(users);
    forall u | u in users ensures u.id in ids {
      var k :| 0 <= k < |users| && users[k] == u;
      assert ids[k] == u.id;
    }
  }
}
