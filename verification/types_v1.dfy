/** The records of the group-based data model (`src/types/index.ts`), with
    amounts in integer cents. Dates, receipts, proofs and creation times are
    not modelled; a proposed `Transaction` is `Matching.Transfer`. */
module TypesV1 {
  import opened Ledger

  datatype User = User(id: Id, name: string, avatar: string, color: string)

  /** One member's share of an expense; a `paid` share no longer counts as owed. */
  datatype Split = Split(userId: Id, amount: int, paid: bool)

  datatype Expense = Expense(
    id: Id,
    title: string,
    amount: int,
    paidBy: Id,
    category: string,
    splits: seq<Split>)

  datatype Status = Pending | Confirmed

  datatype Settlement = Settlement(id: Id, from: Id, to: Id, amount: int, status: Status)

  /** The ids of `members`, in order. */
  function MemberIds(members: seq<User>): (ids: seq<Id>)
    ensures |ids| == |members|
    ensures forall k | 0 <= k < |members| :: ids[k] == members[k].id
  {
    if members == [] then [] else [members[0].id] + MemberIds(members[1..])
  }

  /** Every member's id is listed. */
  lemma MembersListed(members: seq<User>)
    ensures forall m | m in members :: m.id in MemberIds(members)
  {
    var ids := MemberIds(members);
    forall m | m in members ensures m.id in ids {
      var k :| 0 <= k < |members| && members[k] == m;
      assert ids[k] == m.id;
    }
  }
}
