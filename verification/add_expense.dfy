/** The add-expense form (`screens/AddExpenseScreen.tsx`): the member
    selection that can never become empty, the form's validation, and the
    even split whose first share absorbs the rounding remainder.

    Amounts are integer cents. `parseFloat` is not modelled: the caller
    passes what it yields as `parsed` (`Absent` for `NaN`). */
module AddExpense {
  import opened Ledger
  import opened TypesV2

  /* ---------- toggleUser ---------- */

  /** The selection with every occurrence of `userId` removed, order kept. */
  function Without(selected: seq<Id>, id: Id): (r: seq<Id>)
    ensures |r| <= |selected|
    ensures forall x :: x in r <==> x in selected && x != id
  {
    if selected == [] then []
    else (if selected[0] == id then [] else [selected[0]]) + Without(selected[1..], id)
  }

  /** Filtering keeps order: it distributes over concatenation. */
  lemma {:induction false} WithoutConcat(a: seq<Id>, b: seq<Id>, id: Id)
    ensures Without(a + b, id) == Without(a, id) + Without(b, id)
  {
    if a == [] {
      assert a + b == b;
    } else {
      assert (a + b)[1..] == a[1..] + b;
      WithoutConcat(a[1..], b, id);
    }
  }

  /** Ids that were never selected are untouched by the filter. */
  lemma {:induction false} WithoutAbsent(selected: seq<Id>, id: Id)
    requires id !in selected
    ensures Without(selected, id) == selected
  {
    if selected != [] {
      WithoutAbsent(selected[1..], id);
    }
  }

  lemma {:induction false} WithoutDistinct(selected: seq<Id>, id: Id)
    requires Distinct(selected)
    ensures Distinct(Without(selected, id))
  {
    if selected != [] {
      WithoutDistinct(selected[1..], id);
      var rest := Without(selected[1..], id);
      var head := if selected[0] == id then [] else [selected[0]];
      assert selected[0] !in selected[1..];
      assert forall i, j | 0 <= i < j < |head + rest| :: (head + rest)[i] != (head + rest)[j] by {
        forall i, j | 0 <= i < j < |head + rest| ensures (head + rest)[i] != (head + rest)[j] {
          if head != [] && i == 0 {
            assert (head + rest)[j] in rest;
          } else {
            assert (head + rest)[i] == rest[i - |head|] && (head + rest)[j] == rest[j - |head|];
          }
        }
      }
    }
  }

  /** Tapping a member: a selected one is removed unless it is the only one
      left, an unselected one is appended at the end. */
  function ToggleUser(selected: seq<Id>, id: Id): (r: seq<Id>)
    ensures Distinct(selected) && selected != [] ==> r != []
    ensures id !in selected ==> r == selected + [id]
    ensures id in selected && |selected| > 1 ==> forall x :: x in r <==> x in selected && x != id
    ensures id in selected && |selected| == 1 ==> r == selected
  {
    if id in selected then
      if |selected| > 1 then
        var r := Without(selected, id);
        assert Distinct(selected) ==> selected[0] in r || selected[1] in r;
        r
      else selected
    else selected + [id]
  }

  /** The selection never holds an id twice. The initial selection is every
      user's id, so with distinct user ids it is never empty either. */
  lemma ToggleKeepsDistinct(selected: seq<Id>, id: Id)
    requires Distinct(selected)
    ensures Distinct(ToggleUser(selected, id))
  {
    if id in selected {
      WithoutDistinct(selected, id);
    }
  }

  /** The members other than `id` keep their relative order. */
  lemma ToggleKeepsOthersInOrder(selected: seq<Id>, id: Id)
    ensures Without(ToggleUser(selected, id), id) == Without(selected, id)
  {
    if id in selected && |selected| > 1 {
      var r := Without(selected, id);
      WithoutAbsent(r, id);
    } else if id !in selected {
      WithoutConcat(selected, [id], id);
      assert Without([id], id) == [];
    }
  }

  /** Tapping an unselected member twice restores the selection. */
  lemma ToggleTwice(selected: seq<Id>, id: Id)
    requires selected != [] && id !in selected
    ensures ToggleUser(ToggleUser(selected, id), id) == selected
  {
    WithoutConcat(selected, [id], id);
    WithoutAbsent(selected, id);
    assert Without([id], id) == [];
  }

  /* ---------- handleSubmit ---------- */

  /** The characters `String.prototype.trim` removes: white space and line terminators. */
  predicate IsSpace(c: char) {
    var n := c as int;
    n == 0x09 || n == 0x0A || n == 0x0B || n == 0x0C || n == 0x0D || n == 0x20
    || n == 0xA0 || n == 0x1680 || (0x2000 <= n <= 0x200A) || n == 0x2028 || n == 0x2029
    || n == 0x202F || n == 0x205F || n == 0x3000 || n == 0xFEFF
  }

  /** The text is empty once surrounding whitespace is trimmed away. */
  predicate Blank(text: string) {
    forall i | 0 <= i < |text| :: IsSpace(text[i])
  }

  /** The equal share for a positive count of members, shown to two decimals:
      the quotient rounded to the nearest cent, halves rounded up. */
  function RoundedShare(total: int, n: int): (q: int)
    requires n > 0
    ensures -n < 2 * (n * q - total) <= n
  {
    (2 * total + n) / (2 * n)
  }

  /** A multiple of a positive `n` that stays below `n` is at most zero. */
  lemma BelowOneStep(n: int, d: int)
    requires n > 0 && n * d < n
    ensures d <= 0
  {
  }

  /** Only one value lies within half a member of `total / n`, ties broken upward. */
  lemma RoundedShareUnique(total: int, n: int, q: int)
    requires n > 0
    requires -n < 2 * (n * q - total) <= n
    ensures q == RoundedShare(total, n)
  {
    var p := RoundedShare(total, n);
    assert n * (q - p) == n * q - n * p && n * (p - q) == n * p - n * q;
    BelowOneStep(n, q - p);
    BelowOneStep(n, p - q);
  }

  lemma {:induction false} SumOfEqualShares(splits: seq<Split>, q: int)
    requires forall k | 0 <= k < |splits| :: splits[k].amount == q
    ensures SplitTotal(splits) == |splits| * q
  {
    if splits != [] {
      SumOfEqualShares(splits[1..], q);
    }
  }

  /** One split per selected member, in selection order, each the rounded
      share; if those do not add up to the total, the first absorbs the
      difference. */
  function EvenSplit(selected: seq<Id>, total: int): (r: seq<Split>)
    requires selected != []
    ensures |r| == |selected|
    ensures forall k | 0 <= k < |r| :: r[k].userId == selected[k]
    ensures forall k | 1 <= k < |r| :: r[k].amount == RoundedShare(total, |selected|)
    ensures SplitTotal(r) == total
  {
    var n := |selected|;
    var q := RoundedShare(total, n);
    var shares := seq(n, k requires 0 <= k < n => Split(selected[k], q));
    SumOfEqualShares(shares, q);
    var sum := SplitTotal(shares);
    if sum != total then
      var fixed := shares[0 := shares[0].(amount := shares[0].amount + (total - sum))];
      assert fixed[1..] == shares[1..];
      fixed
    else shares
  }

  /** The first share is within half the member count of the others; with
      a small total it can therefore be negative. */
  lemma FirstShareBound(selected: seq<Id>, total: int)
    requires selected != []
    ensures var r, q, n := EvenSplit(selected, total), RoundedShare(total, |selected|), |selected|;
      r[0].amount == total - (n - 1) * q && -n <= 2 * (r[0].amount - q) < n
  {
    var r, n := EvenSplit(selected, total), |selected|;
    var q := RoundedShare(total, n);
    SumOfEqualShares(r[1..], q);
    assert r == [r[0]] + r[1..];
  }

  /** Two cents over four members: the first member's share is minus one cent. */
  lemma NegativeFirstShare()
    ensures EvenSplit(["1", "2", "3", "4"], 2)[0].amount == -1
  {
    FirstShareBound(["1", "2", "3", "4"], 2);
    assert RoundedShare(2, 4) == 1;
  }

  datatype SubmitError =
    | MissingField    // description or amount trims to nothing
    | InvalidAmount   // the amount does not parse, or is not positive
    | EmptySelection  // no member selected: the source fails reading `splits[0]`

  /** `handleSubmit`: validates the form and builds the expense handed to
      `addExpense`. */
  function Submit(description: string, amountText: string, parsed: Maybe<int>, paidBy: Id,
                  selected: seq<Id>, category: string): (r: Outcome<ExpenseInput, SubmitError>)
    ensures r.Accepted? <==> !Blank(description) && !Blank(amountText) && parsed.Present? && parsed.value > 0 && selected != []
    ensures r == Rejected(MissingField) <==> Blank(description) || Blank(amountText)
    ensures r == Rejected(InvalidAmount) <==> !Blank(description) && !Blank(amountText) && (parsed.Absent? || parsed.value <= 0)
    ensures r.Accepted? ==>
      && r.value.description == description
      && r.value.amount == parsed.value
      && r.value.paidBy == paidBy
      && r.value.category == category
      && |r.value.splits| == |selected|
      && (forall k | 0 <= k < |selected| :: r.value.splits[k].userId == selected[k])
      && (forall k | 1 <= k < |selected| :: r.value.splits[k].amount == RoundedShare(parsed.value, |selected|))
      && SplitTotal(r.value.splits) == r.value.amount
  {
    if Blank(description) || Blank(amountText) then Rejected(MissingField)
    else if parsed.Absent? || parsed.value <= 0 then Rejected(InvalidAmount)
    else if selected == [] then Rejected(EmptySelection)
    else Accepted(ExpenseInput(description, parsed.value, paidBy, EvenSplit(selected, parsed.value), category))
  }
}
