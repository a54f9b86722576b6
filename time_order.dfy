/**
 * Ordering close approaches by time, as `sorted(approaches, key=lambda a: a.time)` does in
 * the database's query: Python's sort is stable, so approaches at the same time keep their
 * relative order.
 */
module TimeOrder {
  import opened Models

  /** Times never decrease along `s`. */
  predicate SortedByTime(s: seq<CloseApproach>) {
    forall i, j :: 0 <= i < j < |s| ==> s[i].time <= s[j].time
  }

  /** The approaches of `s` at time `t`, in their order in `s`. */
  function AtTime(s: seq<CloseApproach>, t: int): (r: seq<CloseApproach>)
    ensures forall a :: a in r ==> a in s && a.time == t
  {
    if s == [] then []
    else if s[0].time == t then [s[0]] + AtTime(s[1..], t)
    else AtTime(s[1..], t)
  }

  /** `x` placed into a sorted sequence before the first approach that is not earlier than it. */
  function Insert(x: CloseApproach, r: seq<CloseApproach>): seq<CloseApproach> {
    if r == [] || x.time <= r[0].time then [x] + r
    else [r[0]] + Insert(x, r[1..])
  }

  /** Prepending an approach no later than the head of a sorted sequence keeps it sorted. */
  lemma ConsSorted(a: CloseApproach, s: seq<CloseApproach>)
    requires SortedByTime(s)
    requires s != [] ==> a.time <= s[0].time
    ensures SortedByTime([a] + s)
  {
  }

  /** Inserting adds exactly `x`, and the result starts with `x` or with the old head. */
  lemma {:induction false} InsertPermutation(x: CloseApproach, r: seq<CloseApproach>)
    ensures multiset(Insert(x, r)) == multiset(r) + multiset{x}
    ensures |Insert(x, r)| == |r| + 1
    ensures Insert(x, r)[0] == x || Insert(x, r)[0] == r[0]
  {
    if r != [] && x.time > r[0].time {
      InsertPermutation(x, r[1..]);
      assert r == [r[0]] + r[1..];
    }
  }

  /** Inserting into a sorted sequence keeps it sorted. */
  lemma {:induction false} InsertSorted(x: CloseApproach, r: seq<CloseApproach>)
    requires SortedByTime(r)
    ensures SortedByTime(Insert(x, r))
  {
    if r == [] || x.time <= r[0].time {
      ConsSorted(x, r);
    } else {
      InsertSorted(x, r[1..]);
      InsertPermutation(x, r[1..]);
      var rest := Insert(x, r[1..]);
      assert rest[0] == x || rest[0] == r[1];
      ConsSorted(r[0], rest);
    }
  }

  /**
   * Inserting `x` into a sorted sequence puts it before every approach at its own time and
   * leaves the order among the others alone.
   */
  lemma {:induction false} InsertAtTime(x: CloseApproach, r: seq<CloseApproach>, t: int)
    requires SortedByTime(r)
    ensures AtTime(Insert(x, r), t) == (if x.time == t then [x] else []) + AtTime(r, t)
  {
    if r == [] || x.time <= r[0].time {
      assert ([x] + r)[1..] == r;
    } else {
      InsertAtTime(x, r[1..], t);
      assert ([r[0]] + Insert(x, r[1..]))[1..] == Insert(x, r[1..]);
    }
  }

  /**
   * The stable sort by time (insertion sort, each element placed before the later-inserted
   * equal ones that follow it in the input): the result is sorted, is a permutation of the
   * input, and at every time lists the input's approaches at that time in input order.
   */
  function SortByTime(s: seq<CloseApproach>): (r: seq<CloseApproach>)
    ensures SortedByTime(r)
    ensures multiset(r) == multiset(s)
    ensures forall t :: AtTime(r, t) == AtTime(s, t)
  {
    if s == [] then []
    else
      var rest := SortByTime(s[1..]);
      InsertSorted(s[0], rest);
      InsertPermutation(s[0], rest);
      assert s == [s[0]] + s[1..];
      assert forall t :: AtTime(Insert(s[0], rest), t) == AtTime(s, t) by {
        forall t ensures AtTime(Insert(s[0], rest), t) == AtTime(s, t) {
          InsertAtTime(s[0], rest, t);
        }
      }
      Insert(s[0], rest)
  }
}
