/** Small shared vocabulary: member ids, the running-total book both balance
    calculators build, and the two shapes of a value the screens may lack.

    Every amount in this project is an integer number of cents. */
module Ledger {

  /** A value the source may lack: `null`, or `NaN` from a failed number parse. */
  datatype Maybe<+T> = Absent | Present(value: T)

  /** A form submission either yields a record or is rejected with a reason. */
  datatype Outcome<+T, +E> = Accepted(value: T) | Rejected(error: E)

  /** Member, expense and settlement ids are strings. */
  type Id = string

  /** A running total per member id: the `Record<string, number>` the
      calculators fill in. Only ids opened in the book carry a total. */
  type Book = map<Id, int>

  predicate Distinct(ids: seq<Id>) {
    forall i, j | 0 <= i < j < |ids| :: ids[i] != ids[j]
  }

  /** Every id of `ids` has a running total in `b`. */
  predicate Covers(b: Book, ids: seq<Id>) {
    forall id | id in ids :: id in b
  }

  /** Opens a zero total for each id. */
  function Open(ids: seq<Id>): (b: Book)
    ensures forall id :: id in b <==> id in ids
    ensures forall id | id in b :: b[id] == 0
  {
    map id | id in ids :: 0
  }

  /** Adds `delta` to the total of `id`. In the source an id that was never
      opened gets `undefined + delta`, a key that no caller ever reads back;
      the book therefore leaves it out, which is observationally the same. */
  function Post(b: Book, id: Id, delta: int): (r: Book)
    ensures r.Keys == b.Keys
    ensures forall k | k in r && k != id :: r[k] == b[k]
    ensures id in b ==> r[id] == b[id] + delta
  {
    if id in b then b[id := b[id] + delta] else b
  }

  /** The sum of the totals of `ids`, with repetitions; an id without a
      total counts as zero. */
  function Tally(b: Book, ids: seq<Id>): int {
    if ids == [] then 0 else (if ids[0] in b then b[ids[0]] else 0) + Tally(b, ids[1..])
  }

  /** A book of zero totals tallies to zero. */
  lemma {:induction false} OpenTally(b: Book, ids: seq<Id>)
    requires forall id | id in b :: b[id] == 0
    ensures Tally(b, ids) == 0
  {
    if ids != [] {
      OpenTally(b, ids[1..]);
    }
  }

  /** Posting to an id moves the tally of a duplicate-free id list by exactly
      the posted amount when the id is listed, and not at all otherwise. */
  lemma {:induction false} PostTally(b: Book, ids: seq<Id>, id: Id, delta: int)
    requires Covers(b, ids) && Distinct(ids)
    ensures Covers(Post(b, id, delta), ids)
    ensures Tally(Post(b, id, delta), ids) == Tally(b, ids) + (if id in ids then delta else 0)
  {
    if ids != [] {
      var rest := ids[1..];
      assert Distinct(rest) by {
        forall i, j | 0 <= i < j < |rest| ensures rest[i] != rest[j] {
          assert rest[i] == ids[i + 1] && rest[j] == ids[j + 1];
        }
      }
      PostTally(b, rest, id, delta);
      if ids[0] == id {
        assert id !in rest by {
          forall k | 0 <= k < |rest| ensures rest[k] != id {
            assert rest[k] == ids[k + 1];
          }
        }
      }
    }
  }

  /** The sum of `f` over a sequence, left to right. */
  function SumOf<T>(s: seq<T>, f: T -> int): int {
    if s == [] then 0 else f(s[0]) + SumOf(s[1..], f)
  }

  lemma {:induction false} SumOfConcat<T>(a: seq<T>, b: seq<T>, f: T -> int)
    ensures SumOf(a + b, f) == SumOf(a, f) + SumOf(b, f)
    decreases |a|
  {
    if a != [] {
      assert (a + b)[1..] == a[1..] + b;
      SumOfConcat(a[1..], b, f);
    } else {
      assert a + b == b;
    }
  }

  /** A sum does not depend on the order of its terms. */
  lemma {:induction false} SumOfPermutation<T>(a: seq<T>, b: seq<T>, f: T -> int)
    requires multiset(a) == multiset(b)
    ensures SumOf(a, f) == SumOf(b, f)
    decreases |a|
  {
    if a == [] {
      assert |multiset(b)| == 0;
    } else {
      var x := a[0];
      assert x in multiset(b);
      var j :| 0 <= j < |b| && b[j] == x;
      var rest := b[..j] + b[j + 1..];
      assert b == b[..j] + ([x] + b[j + 1..]);
      assert a == [x] + a[1..];
      assert multiset(b) == multiset(b[..j]) + multiset([x]) + multiset(b[j + 1..]);
      assert multiset(a) == multiset([x]) + multiset(a[1..]);
      assert multiset(rest) == multiset(b[..j]) + multiset(b[j + 1..]);
      assert multiset(a[1..]) == multiset(a) - multiset([x]);
      assert multiset(rest) == multiset(b) - multiset([x]);
      SumOfPermutation(a[1..], rest, f);
      SumOfConcat(b[..j], [x] + b[j + 1..], f);
      SumOfConcat(b[..j], b[j + 1..], f);
      assert ([x] + b[j + 1..])[1..] == b[j + 1..];
    }
  }

  /** A sum of zero terms is zero. */
  lemma {:induction false} SumOfZero<T>(s: seq<T>, f: T -> int)
    requires forall x | x in s :: f(x) == 0
    ensures SumOf(s, f) == 0
  {
    if s != [] {
      SumOfZero(s[1..], f);
    }
  }
}
