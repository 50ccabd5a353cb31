/** The settlements screen (`screens/SettlementsScreen.tsx`): the
    `from-to` key of the suggestion being paid, the payment form's
    validation, and the list of suggestions not yet covered by a confirmed
    payment.

    Amounts are integer cents. `parseFloat` is not modelled: the caller
    passes what it yields as `parsed` (`Absent` for `NaN`). The text
    `toFixed(2)` shows for the suggested amount is a parameter too. */
module SettlementsScreen {
  import opened Ledger
  import opened TypesV2
  import opened Matching
  import AppContext

  /* ---------- the `from-to` key ---------- */

  const Dash: char := '-'

  /** The pieces of `text` between separators, empty pieces kept, as the
      string split of the source does for a one-character separator. */
  function SplitOn(text: string, sep: char): (r: seq<string>)
    ensures |r| >= 1
    ensures forall k | 0 <= k < |r| :: sep !in r[k]
    decreases |text|
  {
    if text == [] then [""]
    else
      var rest := SplitOn(text[1..], sep);
      if text[0] == sep then [""] + rest
      else [[text[0]] + rest[0]] + rest[1..]
  }

  /** The pieces glued back together with the separator between neighbours. */
  function JoinWith(pieces: seq<string>, sep: char): string
    requires |pieces| >= 1
  {
    if |pieces| == 1 then pieces[0] else pieces[0] + [sep] + JoinWith(pieces[1..], sep)
  }

  /** Joining the pieces back restores the text, and there is more than one
      piece exactly when the separator occurs. */
  lemma {:induction false} SplitJoin(text: string, sep: char)
    ensures JoinWith(SplitOn(text, sep), sep) == text
    ensures |SplitOn(text, sep)| >= 2 <==> sep in text
    decreases |text|
  {
    if text != [] {
      var rest := SplitOn(text[1..], sep);
      SplitJoin(text[1..], sep);
      assert text == [text[0]] + text[1..];
      if text[0] != sep {
        var r := [[text[0]] + rest[0]] + rest[1..];
        assert r[1..] == rest[1..];
        if |rest| > 1 {
          assert JoinWith(rest, sep) == rest[0] + [sep] + JoinWith(rest[1..], sep);
        }
      } else {
        assert ([""] + rest)[1..] == rest;
      }
    }
  }

  /** A text without the separator is a single piece. */
  lemma {:induction false} SplitWhole(text: string, sep: char)
    requires sep !in text
    ensures SplitOn(text, sep) == [text]
    decreases |text|
  {
    if text != [] {
      SplitWhole(text[1..], sep);
      assert text == [text[0]] + text[1..];
    }
  }

  /** A separator-free prefix becomes the first piece. */
  lemma {:induction false} SplitAfterPrefix(prefix: string, sep: char, rest: string)
    requires sep !in prefix
    ensures SplitOn(prefix + [sep] + rest, sep) == [prefix] + SplitOn(rest, sep)
    decreases |prefix|
  {
    var text := prefix + [sep] + rest;
    if prefix == [] {
      assert text == [sep] + rest;
      assert text[1..] == rest;
    } else {
      assert text[1..] == prefix[1..] + [sep] + rest;
      SplitAfterPrefix(prefix[1..], sep, rest);
      assert prefix == [prefix[0]] + prefix[1..];
    }
  }

  /** `handleSettle`'s key: `${from}-${to}`. */
  function EncodeKey(from: Id, to: Id): (key: string)
    ensures Dash in key
  {
    var key := from + [Dash] + to;
    assert key[|from|] == Dash;
    key
  }

  /** Reads the payer and the receiver back from a key: the first two pieces
      of the key cut at every dash; any further pieces are dropped. */
  function DecodeKey(key: string): (r: (Id, Id))
    requires Dash in key
    ensures Dash !in r.0 && Dash !in r.1
  {
    SplitJoin(key, Dash);
    var pieces := SplitOn(key, Dash);
    (pieces[0], pieces[1])
  }

  /** The key decodes to the pair it was made from exactly when neither id contains a dash. */
  lemma KeyRoundTrip(from: Id, to: Id)
    ensures DecodeKey(EncodeKey(from, to)) == (from, to) <==> Dash !in from && Dash !in to
  {
    if Dash !in from && Dash !in to {
      SplitAfterPrefix(from, Dash, to);
      SplitWhole(to, Dash);
    }
  }

  /** A dash in the payer's id splits it: the decoded payer is its part before the dash. */
  lemma DashInPayerIsLost()
    ensures DecodeKey(EncodeKey("a-b", "c")) == ("a", "b")
  {
    assert EncodeKey("a-b", "c") == "a-b-c";
    SplitAfterPrefix("a", Dash, "b-c");
    SplitAfterPrefix("b", Dash, "c");
  }

  /* ---------- the payment form ---------- */

  /** `settlingId` and `amount`; `Absent` is `null`. */
  datatype Form = Form(settling: Maybe<string>, amountText: string)

  /** Every key the screen stores comes from `handleSettle`, so it holds a dash. */
  predicate WellFormed(form: Form) {
    form.settling.Present? ==> Dash in form.settling.value
  }

  /** `handleSettle`: selects the suggestion and pre-fills its amount. */
  function HandleSettle(from: Id, to: Id, shownAmount: string): (f: Form)
    ensures WellFormed(f)
    ensures f.settling.Present? && DecodeKey(f.settling.value) == (from, to) <== Dash !in from && Dash !in to
  {
    KeyRoundTrip(from, to);
    Form(Present(EncodeKey(from, to)), shownAmount)
  }

  /** What one tap on "confirm" does: the settlement handed to
      `addSettlement` if any, whether the error alert is shown, and the
      form afterwards. */
  datatype Effect = Effect(recorded: Maybe<SettlementInput>, alerted: bool, form: Form)

  /** `!settlingId || !amount`: nothing selected, or an empty amount. */
  predicate Idle(form: Form) {
    form.settling.Absent? || form.settling.value == "" || form.amountText == ""
  }

  /** `confirmPayment` */
  function ConfirmPayment(form: Form, parsed: Maybe<int>): (r: Effect)
    requires WellFormed(form)
    ensures WellFormed(r.form)
    ensures Idle(form) ==> r == Effect(Absent, false, form)
    ensures !Idle(form) && (parsed.Absent? || parsed.value <= 0) ==> r == Effect(Absent, true, form)
    ensures r.recorded.Present? <==> !Idle(form) && parsed.Present? && parsed.value > 0
    ensures r.recorded.Present? ==>
      && r.recorded.value.from == DecodeKey(form.settling.value).0
      && r.recorded.value.to == DecodeKey(form.settling.value).1
      && r.recorded.value.amount == parsed.value
      && r.recorded.value.confirmed
      && !r.alerted
      && r.form == Form(Absent, "")
  {
    if Idle(form) then Effect(Absent, false, form)
    else
      var (from, to) := DecodeKey(form.settling.value);
      if parsed.Absent? || parsed.value <= 0 then Effect(Absent, true, form)
      else Effect(Present(SettlementInput(from, to, parsed.value, true)), false, Form(Absent, ""))
  }

  /** Paying a suggestion selected with dash-free ids records a confirmed
      settlement between exactly those two members. */
  lemma SettleThenConfirm(from: Id, to: Id, shownAmount: string, parsed: Maybe<int>)
    requires Dash !in from && Dash !in to
    requires shownAmount != "" && parsed.Present? && parsed.value > 0
    ensures ConfirmPayment(HandleSettle(from, to, shownAmount), parsed).recorded
         == Present(SettlementInput(from, to, parsed.value, true))
  {
    var form := HandleSettle(from, to, shownAmount);
    assert form.settling.value != "" by {
      assert Dash in form.settling.value;
    }
  }

  /* ---------- pendingSettlements ---------- */

  /** Some confirmed settlement goes from `from` to `to`, whatever its amount. */
  predicate ConfirmedBetween(settlements: seq<Settlement>, from: Id, to: Id) {
    exists s | s in settlements :: s.from == from && s.to == to && s.confirmed
  }

  /** The suggestions no confirmed settlement covers yet, in plan order. */
  function Pending(plan: seq<Transfer>, settlements: seq<Settlement>): (r: seq<Transfer>)
    ensures |r| <= |plan|
    ensures forall t :: t in r <==> t in plan && !ConfirmedBetween(settlements, t.from, t.to)
  {
    if plan == [] then []
    else
      (if ConfirmedBetween(settlements, plan[0].from, plan[0].to) then [] else [plan[0]])
      + Pending(plan[1..], settlements)
  }

  /** The filter keeps plan order: it distributes over concatenation. */
  lemma {:induction false} PendingKeepsOrder(a: seq<Transfer>, b: seq<Transfer>, settlements: seq<Settlement>)
    ensures Pending(a + b, settlements) == Pending(a, settlements) + Pending(b, settlements)
  {
    if a == [] {
      assert a + b == b;
    } else {
      assert (a + b)[1..] == a[1..] + b;
      PendingKeepsOrder(a[1..], b, settlements);
    }
  }

  /** With no confirmed settlement, every suggestion is pending. */
  lemma {:induction false} NothingConfirmed(plan: seq<Transfer>, settlements: seq<Settlement>)
    requires forall s | s in settlements :: !s.confirmed
    ensures Pending(plan, settlements) == plan
  {
    if plan != [] {
      NothingConfirmed(plan[1..], settlements);
    }
  }

  /** Unconfirmed settlements never hide a suggestion. */
  lemma {:induction false} UnconfirmedNeverHide(plan: seq<Transfer>, settlements: seq<Settlement>, more: seq<Settlement>)
    requires forall s | s in more :: !s.confirmed
    ensures Pending(plan, settlements + more) == Pending(plan, settlements)
  {
    if plan != [] {
      UnconfirmedNeverHide(plan[1..], settlements, more);
      var t := plan[0];
      assert ConfirmedBetween(settlements + more, t.from, t.to) == ConfirmedBetween(settlements, t.from, t.to) by {
        if ConfirmedBetween(settlements + more, t.from, t.to) {
          var s :| s in settlements + more && s.from == t.from && s.to == t.to && s.confirmed;
          assert s in settlements;
        }
      }
    }
  }

  /** Confirming a settlement in the context can only hide suggestions, never reveal one. */
  lemma ConfirmingHidesMore(plan: seq<Transfer>, settlements: seq<Settlement>, id: Id)
    ensures forall t | t in Pending(plan, AppContext.ConfirmSettlement(settlements, id)) :: t in Pending(plan, settlements)
  {
    var confirmed := AppContext.ConfirmSettlement(settlements, id);
    forall t | t in Pending(plan, confirmed) ensures t in Pending(plan, settlements) {
      if ConfirmedBetween(settlements, t.from, t.to) {
        assert false;
      }
    }
  }

  /** Once a payment for a suggestion is recorded, no suggestion between
      those two members is pending any more. */
  lemma PaymentHidesSuggestion(plan: seq<Transfer>, settlements: seq<Settlement>, form: Form,
                               parsed: Maybe<int>, freshId: Id)
    requires WellFormed(form)
    requires ConfirmPayment(form, parsed).recorded.Present?
    ensures var (from, to) := DecodeKey(form.settling.value);
      var after := AppContext.AddSettlement(settlements, ConfirmPayment(form, parsed).recorded.value, freshId);
      forall t | t in Pending(plan, after) :: !(t.from == from && t.to == to)
  {
    var input := ConfirmPayment(form, parsed).recorded.value;
    var after := AppContext.AddSettlement(settlements, input, freshId);
    var added := after[|settlements|];
    assert added in after;
  }
}
