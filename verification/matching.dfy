/** The greedy two-index matching that both settlement optimizers run:
    the head debtor pays the head creditor the smaller of their two
    outstanding magnitudes, and whichever side reaches zero is dropped.

    `Steps` lists every transfer the loop performs, the absorbed ones
    included; `Emitted` keeps those the loop actually pushes to its output. */
module Matching {
  import opened Ledger

  /** A debtor or a creditor with the magnitude (in cents) still outstanding. */
  datatype Party = Party(id: Id, rest: int)

  /** A payment of `amount` cents from `from` to `to`. */
  datatype Transfer = Transfer(from: Id, to: Id, amount: int)

  /** `amount > 0.01`: two cents or more. Transfers are pushed only above one cent. */
  predicate OverCent(amount: int) {
    amount > 1
  }

  /** A remainder below one cent (`< 0.01`) counts as settled and its index moves on. */
  predicate Settled(rest: int) {
    rest < 1
  }

  function Min(a: int, b: int): (m: int)
    ensures m <= a && m <= b
    ensures m == a || m == b
  {
    if a <= b then a else b
  }

  /** Every party still has something outstanding. */
  predicate Owing(ps: seq<Party>) {
    forall k | 0 <= k < |ps| :: ps[k].rest > 0
  }

  /** Some party with this id started with at least `amount` outstanding. */
  predicate Holds(ps: seq<Party>, id: Id, amount: int) {
    exists k | 0 <= k < |ps| :: ps[k].id == id && amount <= ps[k].rest
  }

  /** Sum of the outstanding magnitudes. */
  function Total(ps: seq<Party>): int {
    SumOf(ps, (p: Party) => p.rest)
  }

  /** Sum of the outstanding magnitudes of the parties with id `id`. */
  function Owed(ps: seq<Party>, id: Id): int {
    SumOf(ps, (p: Party) => if p.id == id then p.rest else 0)
  }

  /** Sum of the transferred amounts. */
  function Moved(ts: seq<Transfer>): int {
    SumOf(ts, (t: Transfer) => t.amount)
  }

  /** What `id` pays out over the transfers. */
  function Sent(ts: seq<Transfer>, id: Id): int {
    SumOf(ts, (t: Transfer) => if t.from == id then t.amount else 0)
  }

  /** What `id` is paid over the transfers. */
  function Received(ts: seq<Transfer>, id: Id): int {
    SumOf(ts, (t: Transfer) => if t.to == id then t.amount else 0)
  }

  /** The head party keeps `rest` outstanding, or is dropped when that is settled. */
  function Advance(ps: seq<Party>, rest: int): (r: seq<Party>)
    requires ps != []
    ensures |r| == if Settled(rest) then |ps| - 1 else |ps|
  {
    if Settled(rest) then ps[1..] else [ps[0].(rest := rest)] + ps[1..]
  }

  /** Every transfer of the two-index loop over debtors `ds` and creditors `cs`. */
  function Steps(ds: seq<Party>, cs: seq<Party>): seq<Transfer>
    decreases |ds| + |cs|
  {
    if ds == [] || cs == [] then []
    else
      var a := Min(ds[0].rest, cs[0].rest);
      [Transfer(ds[0].id, cs[0].id, a)] + Steps(Advance(ds, ds[0].rest - a), Advance(cs, cs[0].rest - a))
  }

  /** The transfers the loop pushes: those above one cent, in order. */
  function Emitted(ts: seq<Transfer>): (r: seq<Transfer>)
    ensures |r| <= |ts|
  {
    if ts == [] then []
    else (if OverCent(ts[0].amount) then [ts[0]] else []) + Emitted(ts[1..])
  }

  /** A transfer is pushed exactly when the loop performs it above one cent. */
  lemma {:induction false} EmittedMembers(ts: seq<Transfer>)
    ensures forall t :: t in Emitted(ts) <==> t in ts && OverCent(t.amount)
  {
    if ts != [] {
      EmittedMembers(ts[1..]);
    }
  }

  /** One round of the loop: the head pair's transfer is pushed when it is
      above one cent, then the loop carries on with the advanced lists. */
  lemma EmittedRound(ds: seq<Party>, cs: seq<Party>)
    requires ds != [] && cs != []
    ensures var a := Min(ds[0].rest, cs[0].rest);
      Emitted(Steps(ds, cs))
      == (if OverCent(a) then [Transfer(ds[0].id, cs[0].id, a)] else [])
         + Emitted(Steps(Advance(ds, ds[0].rest - a), Advance(cs, cs[0].rest - a)))
  {
    var a := Min(ds[0].rest, cs[0].rest);
    var t := Transfer(ds[0].id, cs[0].id, a);
    var later := Steps(Advance(ds, ds[0].rest - a), Advance(cs, cs[0].rest - a));
    assert Steps(ds, cs) == [t] + later;
    assert ([t] + later)[1..] == later;
  }

  /** Lowering the party at `i` of a working copy by `a`, and moving past it
      once it is settled, is `Advance` on the suffix from `i`. */
  lemma AdvanceOnCopy(ps: seq<Party>, i: int, a: int, ps': seq<Party>, i': int)
    requires 0 <= i < |ps|
    requires ps' == ps[i := ps[i].(rest := ps[i].rest - a)]
    requires i' == if Settled(ps'[i].rest) then i + 1 else i
    ensures ps[i..] != [] && ps'[i'..] == Advance(ps[i..], ps[i].rest - a)
  {
    var p := ps[i..];
    assert p[0] == ps[i];
    if Settled(ps[i].rest - a) {
      assert ps'[i'..] == p[1..];
    } else {
      assert ps'[i'..] == [p[0].(rest := ps[i].rest - a)] + p[1..];
    }
  }

  /** The same round, on working copies walked by two indices: the head
      pair sits at `ds[i]` and `cs[j]`, the round lowers both by `a`, and a
      index moves past its party once that party is settled. */
  lemma RoundOnCopies(ds: seq<Party>, cs: seq<Party>, i: int, j: int, a: int, ds': seq<Party>, cs': seq<Party>, i': int, j': int)
    requires 0 <= i < |ds| && 0 <= j < |cs|
    requires a == Min(ds[i].rest, cs[j].rest)
    requires ds' == ds[i := ds[i].(rest := ds[i].rest - a)]
    requires cs' == cs[j := cs[j].(rest := cs[j].rest - a)]
    requires i' == if Settled(ds'[i].rest) then i + 1 else i
    requires j' == if Settled(cs'[j].rest) then j + 1 else j
    ensures Emitted(Steps(ds[i..], cs[j..]))
         == (if OverCent(a) then [Transfer(ds[i].id, cs[j].id, a)] else []) + Emitted(Steps(ds'[i'..], cs'[j'..]))
  {
    AdvanceOnCopy(ds, i, a, ds', i');
    AdvanceOnCopy(cs, j, a, cs', j');
    var d, c := ds[i..], cs[j..];
    assert d[0] == ds[i] && c[0] == cs[j];
    EmittedRound(d, c);
  }

  lemma AppendAssoc(a: seq<Transfer>, b: seq<Transfer>, c: seq<Transfer>)
    ensures a + (b + c) == (a + b) + c
  {
  }

  /** Each round drops at least one party, and the last round leaves one list
      empty: at most `|ds| + |cs| - 1` transfers, none when a side is empty. */
  lemma {:induction false} StepsCount(ds: seq<Party>, cs: seq<Party>)
    ensures |Steps(ds, cs)| <= if ds == [] || cs == [] then 0 else |ds| + |cs| - 1
    decreases |ds| + |cs|
  {
    if ds != [] && cs != [] {
      var a := Min(ds[0].rest, cs[0].rest);
      StepsCount(Advance(ds, ds[0].rest - a), Advance(cs, cs[0].rest - a));
    }
  }

  lemma TotalOwing(ps: seq<Party>)
    requires Owing(ps)
    ensures Total(ps) >= |ps|
    decreases |ps|
  {
    if ps != [] {
      TotalOwing(ps[1..]);
    }
  }

  /** Paying `a` out of the head party lowers the total by exactly `a`. */
  lemma AdvanceTotal(ps: seq<Party>, a: int, id: Id)
    requires ps != [] && 0 <= a <= ps[0].rest
    ensures Total(Advance(ps, ps[0].rest - a)) == Total(ps) - a
    ensures Owed(Advance(ps, ps[0].rest - a), id) == Owed(ps, id) - (if ps[0].id == id then a else 0)
  {
    if !Settled(ps[0].rest - a) {
      assert ([ps[0].(rest := ps[0].rest - a)] + ps[1..])[1..] == ps[1..];
    }
  }

  /** Whatever a party of the advanced list holds, some party of the original held. */
  lemma AdvanceHolds(ps: seq<Party>, rest: int)
    requires ps != [] && rest <= ps[0].rest
    ensures forall id, amount | Holds(Advance(ps, rest), id, amount) :: Holds(ps, id, amount)
  {
    var qs := Advance(ps, rest);
    forall id, amount | Holds(qs, id, amount) ensures Holds(ps, id, amount) {
      var k :| 0 <= k < |qs| && qs[k].id == id && amount <= qs[k].rest;
      if Settled(rest) {
        assert ps[k + 1] == qs[k];
      } else if k == 0 {
        assert ps[0].id == id && amount <= ps[0].rest;
      } else {
        assert ps[k] == qs[k];
      }
    }
  }

  /** Every transfer goes from a debtor to a creditor, moves a positive amount,
      and never exceeds what either of them started with. */
  lemma {:induction false} StepsEnds(ds: seq<Party>, cs: seq<Party>)
    requires Owing(ds) && Owing(cs)
    ensures forall t | t in Steps(ds, cs) ::
      0 < t.amount && Holds(ds, t.from, t.amount) && Holds(cs, t.to, t.amount)
    decreases |ds| + |cs|
  {
    if ds != [] && cs != [] {
      var a := Min(ds[0].rest, cs[0].rest);
      var ds', cs' := Advance(ds, ds[0].rest - a), Advance(cs, cs[0].rest - a);
      assert Owing(ds') && Owing(cs');
      StepsEnds(ds', cs');
      AdvanceHolds(ds, ds[0].rest - a);
      AdvanceHolds(cs, cs[0].rest - a);
      assert Holds(ds, ds[0].id, a) && Holds(cs, cs[0].id, a) by {
        assert ds[0].id == ds[0].id && cs[0].id == cs[0].id;
      }
      assert Steps(ds, cs) == [Transfer(ds[0].id, cs[0].id, a)] + Steps(ds', cs');
    }
  }

  /** The loop moves exactly the smaller of total debt and total credit. */
  lemma {:induction false} StepsMoved(ds: seq<Party>, cs: seq<Party>)
    requires Owing(ds) && Owing(cs)
    ensures Moved(Steps(ds, cs)) == Min(Total(ds), Total(cs))
    decreases |ds| + |cs|
  {
    TotalOwing(ds);
    TotalOwing(cs);
    if ds != [] && cs != [] {
      var a := Min(ds[0].rest, cs[0].rest);
      var ds', cs' := Advance(ds, ds[0].rest - a), Advance(cs, cs[0].rest - a);
      assert Owing(ds') && Owing(cs');
      StepsMoved(ds', cs');
      AdvanceTotal(ds, a, "");
      AdvanceTotal(cs, a, "");
      var t := Transfer(ds[0].id, cs[0].id, a);
      assert ([t] + Steps(ds', cs'))[1..] == Steps(ds', cs');
    }
  }

  /** When total debt equals total credit, the loop settles everyone: each
      debtor pays out exactly what it owed and each creditor receives exactly
      what it was owed (counting the absorbed one-cent steps). */
  lemma {:induction false} StepsSettle(ds: seq<Party>, cs: seq<Party>, id: Id)
    requires Owing(ds) && Owing(cs)
    requires Total(ds) == Total(cs)
    ensures Sent(Steps(ds, cs), id) == Owed(ds, id)
    ensures Received(Steps(ds, cs), id) == Owed(cs, id)
    decreases |ds| + |cs|
  {
    TotalOwing(ds);
    TotalOwing(cs);
    if ds != [] && cs != [] {
      var a := Min(ds[0].rest, cs[0].rest);
      var ds', cs' := Advance(ds, ds[0].rest - a), Advance(cs, cs[0].rest - a);
      assert Owing(ds') && Owing(cs');
      AdvanceTotal(ds, a, id);
      AdvanceTotal(cs, a, id);
      StepsSettle(ds', cs', id);
      var t := Transfer(ds[0].id, cs[0].id, a);
      assert ([t] + Steps(ds', cs'))[1..] == Steps(ds', cs');
    }
  }

  /** Every absorbed step is a one-cent step: what is pushed plus one cent
      per dropped step is everything the loop moved. */
  lemma {:induction false} EmittedDust(ts: seq<Transfer>)
    requires forall t | t in ts :: t.amount > 0
    ensures Moved(Emitted(ts)) + (|ts| - |Emitted(ts)|) == Moved(ts)
  {
    if ts != [] {
      EmittedDust(ts[1..]);
      var head := if OverCent(ts[0].amount) then [ts[0]] else [];
      SumOfConcat(head, Emitted(ts[1..]), (t: Transfer) => t.amount);
    }
  }
}
