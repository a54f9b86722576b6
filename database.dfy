/**
 * The in-memory database of near-Earth objects and their close approaches: two indexes
 * over the objects, the linking of approaches to objects, lookups, and the query that
 * filters approaches with a stack of filters and returns them ordered by time.
 */
module Database {
  import opened Wrappers
  import opened Seqs
  import opened Models
  import opened Filters
  import opened TimeOrder

  /** The two indexes: by primary designation, and by name (only objects with a non-empty name). */
  datatype IndexKey = ByDesignation | ByName

  /** The key under which an object is entered in an index, if it is entered at all. */
  function KeyOf(k: IndexKey, n: NearEarthObject): Option<string> {
    match k
    case ByDesignation => Some(n.designation)
    case ByName => if Truthy(n.name) then Some(n.name.value) else None
  }

  /** `neos[i]` is entered under `key`, and no later object is. */
  predicate IsLastWithKey(k: IndexKey, neos: seq<NearEarthObject>, i: int, key: string) {
    0 <= i < |neos| && KeyOf(k, neos[i]) == Some(key) &&
    forall j :: i < j < |neos| ==> KeyOf(k, neos[j]) != Some(key)
  }

  /** A dict comprehension over the objects, in list order: later entries overwrite earlier ones. */
  function Index(k: IndexKey, neos: seq<NearEarthObject>): (r: map<string, NearEarthObject>)
    ensures forall key :: key in r ==> KeyOf(k, r[key]) == Some(key)
  {
    if neos == [] then map[]
    else
      var prev := Index(k, neos[..|neos| - 1]);
      var last := neos[|neos| - 1];
      var key := KeyOf(k, last);
      if key.Some? then prev[key.value := last] else prev
  }

  /** An index holds the key of every object, and no other key. */
  lemma {:induction false} IndexKeys(k: IndexKey, neos: seq<NearEarthObject>)
    ensures forall key :: key in Index(k, neos) <==>
      exists i :: 0 <= i < |neos| && KeyOf(k, neos[i]) == Some(key)
  {
    if neos != [] {
      var init, last := neos[..|neos| - 1], neos[|neos| - 1];
      IndexKeys(k, init);
      var prev := Index(k, init);
      var m := Index(k, neos);
      assert m == if KeyOf(k, last).Some? then prev[KeyOf(k, last).value := last] else prev;
      forall key ensures key in m <==> exists i :: 0 <= i < |neos| && KeyOf(k, neos[i]) == Some(key) {
        if key in m && KeyOf(k, last) != Some(key) {
          var i :| 0 <= i < |init| && KeyOf(k, init[i]) == Some(key);
          assert neos[i] == init[i];
        } else if key in m {
          assert KeyOf(k, neos[|neos| - 1]) == Some(key);
        }
        if exists i :: 0 <= i < |neos| && KeyOf(k, neos[i]) == Some(key) {
          var i :| 0 <= i < |neos| && KeyOf(k, neos[i]) == Some(key);
          if i < |init| { assert init[i] == neos[i]; }
        }
      }
    }
  }

  /** Each key of an index maps to the last object in the list that has that key. */
  lemma {:induction false} IndexLastWins(k: IndexKey, neos: seq<NearEarthObject>)
    ensures forall key :: key in Index(k, neos) ==>
      exists i :: IsLastWithKey(k, neos, i, key) && Index(k, neos)[key] == neos[i]
  {
    if neos != [] {
      var init, last := neos[..|neos| - 1], neos[|neos| - 1];
      IndexLastWins(k, init);
      var prev := Index(k, init);
      var m := Index(k, neos);
      assert m == if KeyOf(k, last).Some? then prev[KeyOf(k, last).value := last] else prev;
      forall key | key in m
        ensures exists i :: IsLastWithKey(k, neos, i, key) && m[key] == neos[i]
      {
        if KeyOf(k, last) != Some(key) {
          var i :| IsLastWithKey(k, init, i, key) && prev[key] == init[i];
          assert neos[i] == init[i];
          assert IsLastWithKey(k, neos, i, key) by {
            forall j | i < j < |neos| ensures KeyOf(k, neos[j]) != Some(key) {
              if j < |init| { assert neos[j] == init[j]; }
            }
          }
        } else {
          assert IsLastWithKey(k, neos, |neos| - 1, key);
        }
      }
    }
  }

  /**
   * The stack of lazy `filter` calls over a list of approaches, drained in list order:
   * each approach goes through the whole stack (stopping at the first filter that rejects
   * it) before the next approach is looked at, so the first error raised is that of the
   * earliest approach on which the stack raises. Without an error, the result keeps the
   * approaches the stack accepts, in their original order.
   */
  function ApplyFilters(fs: seq<Filter>, s: seq<CloseApproach>): (r: Result<seq<CloseApproach>, Error>)
    reads s
    ensures r.Ok? <==> forall a :: a in s ==> MatchAll(fs, a).Ok?
    ensures r.Ok? ==> IsSubsequence(r.value, s)
    ensures r.Ok? ==> forall a :: a in r.value ==> a in s && MatchAll(fs, a) == Ok(true)
    ensures r.Ok? ==> forall a :: a in s && MatchAll(fs, a) == Ok(true) ==> a in r.value
  {
    if s == [] then Ok([])
    else
      assert s == [s[0]] + s[1..];
      match MatchAll(fs, s[0])
      case Err(e) =>
        assert s[0] in s;
        Err(e)
      case Ok(pass) =>
        match ApplyFilters(fs, s[1..])
        case Err(e) =>
          assert forall a :: a in s[1..] ==> a in s;
          Err(e)
        case Ok(rest) =>
          SubsequenceCons(s[0], rest, s[1..]);
          Ok(if pass then [s[0]] + rest else rest)
  }

  /**
   * Each accepted approach appears in the result as often as in the input, and a rejected
   * one not at all.
   */
  lemma {:induction false} ApplyFiltersCount(fs: seq<Filter>, s: seq<CloseApproach>)
    requires ApplyFilters(fs, s).Ok?
    ensures forall a :: multiset(ApplyFilters(fs, s).value)[a] ==
                        if MatchAll(fs, a) == Ok(true) then multiset(s)[a] else 0
  {
    if s != [] {
      ApplyFiltersCount(fs, s[1..]);
      assert s == [s[0]] + s[1..];
    }
  }

  /** The error of a failed evaluation is the one the stack raises on the earliest approach it raises on. */
  lemma {:induction false} ApplyFiltersFirstError(fs: seq<Filter>, s: seq<CloseApproach>)
    requires ApplyFilters(fs, s).Err?
    ensures exists i :: 0 <= i < |s| && MatchAll(fs, s[i]) == Err(ApplyFilters(fs, s).error) &&
                        (forall j :: 0 <= j < i ==> MatchAll(fs, s[j]).Ok?)
  {
    if MatchAll(fs, s[0]).Ok? {
      ApplyFiltersFirstError(fs, s[1..]);
      var i :| 0 <= i < |s[1..]| && MatchAll(fs, s[1..][i]) == Err(ApplyFilters(fs, s[1..]).error) &&
               (forall j :: 0 <= j < i ==> MatchAll(fs, s[1..][j]).Ok?);
      assert s[i + 1] == s[1..][i];
      assert forall j :: 0 <= j < i + 1 ==> MatchAll(fs, s[j]).Ok? by {
        forall j | 0 <= j < i + 1 ensures MatchAll(fs, s[j]).Ok? {
          if j > 0 { assert s[j] == s[1..][j - 1]; }
        }
      }
    }
  }

  /** With no filters every approach is kept, in order. */
  lemma {:induction false} ApplyFiltersNone(s: seq<CloseApproach>)
    ensures ApplyFilters([], s) == Ok(s)
  {
    if s != [] {
      ApplyFiltersNone(s[1..]);
      assert s == [s[0]] + s[1..];
    }
  }

  /**
   * Putting more filters on top of a stack narrows its result: if the larger stack
   * evaluates without raising, so does the smaller one, and the larger stack's result is
   * a subsequence of the smaller one's.
   */
  lemma {:induction false} ApplyFiltersNarrowing(fs: seq<Filter>, gs: seq<Filter>, s: seq<CloseApproach>)
    requires ApplyFilters(fs + gs, s).Ok?
    ensures ApplyFilters(fs, s).Ok?
    ensures IsSubsequence(ApplyFilters(fs + gs, s).value, ApplyFilters(fs, s).value)
  {
    if s != [] {
      ApplyFiltersNarrowing(fs, gs, s[1..]);
      MatchAllPrefix(fs, gs, s[0]);
      var wide, narrow := ApplyFilters(fs, s[1..]).value, ApplyFilters(fs + gs, s[1..]).value;
      SubsequenceCons(s[0], narrow, wide);
    }
  }

  /**
   * Two stacks holding the same filters in different orders select the same approaches,
   * whenever neither raises.
   */
  lemma {:induction false} ApplyFiltersOrder(fs: seq<Filter>, gs: seq<Filter>, s: seq<CloseApproach>)
    requires forall f :: f in fs <==> f in gs
    requires ApplyFilters(fs, s).Ok? && ApplyFilters(gs, s).Ok?
    ensures ApplyFilters(fs, s) == ApplyFilters(gs, s)
  {
    if s != [] {
      ApplyFiltersOrder(fs, gs, s[1..]);
      MatchAllOrderIrrelevant(fs, gs, s[0]);
    }
  }

  /**
   * Filtering commutes with picking the approaches at one time: those at time `t` in the
   * result are exactly the accepted approaches at time `t` of the input, in input order.
   */
  lemma {:induction false} ApplyFiltersAtTime(fs: seq<Filter>, s: seq<CloseApproach>, t: int)
    requires ApplyFilters(fs, s).Ok?
    ensures ApplyFilters(fs, AtTime(s, t)) == Ok(AtTime(ApplyFilters(fs, s).value, t))
  {
    if s != [] {
      ApplyFiltersAtTime(fs, s[1..], t);
      var rest := ApplyFilters(fs, s[1..]).value;
      assert ([s[0]] + rest)[1..] == rest;
      if s[0].time == t {
        assert ([s[0]] + AtTime(s[1..], t))[1..] == AtTime(s[1..], t);
      }
    }
  }

  class NEODatabase {
    /** The objects, in the order they were given. */
    const neos: seq<NearEarthObject>
    /** The close approaches, in the order they were given. */
    const approaches: seq<CloseApproach>
    /** Objects by primary designation. */
    const byDesignation: map<string, NearEarthObject> := Index(ByDesignation, neos)
    /** Objects by name, for the objects whose name is non-empty. */
    const byName: map<string, NearEarthObject> := Index(ByName, neos)

    /**
     * `NEODatabase(neos, approaches)`: keeps both lists, builds the two indexes and links
     * every approach to the object it belongs to.
     */
    constructor (neos: seq<NearEarthObject>, approaches: seq<CloseApproach>)
      modifies neos, approaches
      ensures this.neos == neos && this.approaches == approaches
      ensures forall n :: n in neos ==> n.approaches == old(n.approaches) + LinkedTo(approaches, n)
      ensures forall a :: a in approaches ==>
                a.neo == if Owner(a) != null then Owner(a) else old(a.neo)
    {
      this.neos := neos;
      this.approaches := approaches;
      new;
      LinkNeosAndApproaches();
    }

    /**
     * The object an approach belongs to: the one the designation index holds under the
     * approach's designation, if any.
     */
    function Owner(a: CloseApproach): (r: NearEarthObject?)
      ensures r != null ==> r.designation == a.rawDesignation
    {
      if a.rawDesignation in byDesignation then byDesignation[a.rawDesignation] else null
    }

    /** The object an approach belongs to is one of the database's objects. */
    lemma OwnerListed(a: CloseApproach)
      ensures Owner(a) != null ==> Owner(a) in neos
    {
      IndexLastWins(ByDesignation, neos);
    }

    /** The approaches of `s` that belong to `n`, in their order in `s`. */
    ghost function LinkedTo(s: seq<CloseApproach>, n: NearEarthObject): seq<CloseApproach> {
      if s == [] then []
      else
        var prev := LinkedTo(s[..|s| - 1], n);
        if Owner(s[|s| - 1]) == n then prev + [s[|s| - 1]] else prev
    }

    /** Extending the approaches by one extends the list of the object it belongs to, and no other. */
    lemma LinkedToSnoc(s: seq<CloseApproach>, a: CloseApproach)
      ensures forall n :: LinkedTo(s + [a], n) == if Owner(a) == n then LinkedTo(s, n) + [a] else LinkedTo(s, n)
    {
    }

    /**
     * The approaches linked to an object are those of `s` that belong to it, each as often
     * as in `s` and in the order of `s`.
     */
    lemma {:induction false} LinkedToSelects(s: seq<CloseApproach>, n: NearEarthObject)
      ensures IsSubsequence(LinkedTo(s, n), s)
      ensures forall a :: multiset(LinkedTo(s, n))[a] == if Owner(a) == n then multiset(s)[a] else 0
    {
      if s != [] {
        var init, last := s[..|s| - 1], s[|s| - 1];
        LinkedToSelects(init, n);
        assert s == init + [last];
        SubsequenceSnoc(LinkedTo(init, n), init, last);
      }
    }

    /**
     * `_link_neos_and_approaches`: walks the approaches in order, appending each to the
     * approach list of its object and pointing it back at that object; approaches whose
     * designation names no object are left alone.
     */
    method LinkNeosAndApproaches()
      modifies neos, approaches
      ensures forall n :: n in neos ==> n.approaches == old(n.approaches) + LinkedTo(approaches, n)
      ensures forall a :: a in approaches ==>
                a.neo == if Owner(a) != null then Owner(a) else old(a.neo)
    {
      var i := 0;
      while i < |approaches|
        invariant 0 <= i <= |approaches|
        invariant forall n :: n in neos ==> n.approaches == old(n.approaches) + LinkedTo(approaches[..i], n)
        invariant forall j :: 0 <= j < i && Owner(approaches[j]) != null ==> approaches[j].neo == Owner(approaches[j])
        invariant forall a :: a in approaches && Owner(a) == null ==> a.neo == old(a.neo)
      {
        var approach := approaches[i];
        ghost var done := approaches[..i];
        assert approaches[..i + 1] == done + [approach];
        LinkedToSnoc(done, approach);
        OwnerListed(approach);
        Attach(approach);
        forall n | n in neos
          ensures n.approaches == old(n.approaches) + LinkedTo(done + [approach], n)
        {
          if n == Owner(approach) {
            assert old(n.approaches) + LinkedTo(done, n) + [approach] ==
                   old(n.approaches) + (LinkedTo(done, n) + [approach]);
          }
        }
        i := i + 1;
      }
      assert approaches[..i] == approaches;
    }

    /**
     * The body of the linking loop for one approach: when the designation index holds an
     * object for it, the approach is appended to that object's list and pointed back at it.
     */
    method Attach(approach: CloseApproach)
      modifies if Owner(approach) != null then {Owner(approach), approach} else {}
      ensures Owner(approach) != null ==>
                && Owner(approach).approaches == old(Owner(approach).approaches) + [approach]
                && approach.neo == Owner(approach)
    {
      var neo := Owner(approach);
      if neo != null {
        neo.approaches := neo.approaches + [approach];
        approach.neo := neo;
      }
    }

    /**
     * `get_neo_by_designation`: an object with that designation exists exactly when one is
     * found, and the one found is the last such object in the list.
     */
    function GetNeoByDesignation(designation: string): (r: NearEarthObject?)
      ensures r != null <==> exists i :: 0 <= i < |neos| && neos[i].designation == designation
      ensures r != null ==> exists i :: IsLastWithKey(ByDesignation, neos, i, designation) && r == neos[i]
      ensures r != null ==> r in neos && r.designation == designation
    {
      IndexKeys(ByDesignation, neos);
      IndexLastWins(ByDesignation, neos);
      if designation in byDesignation then byDesignation[designation] else null
    }

    /**
     * `get_neo_by_name`: only non-empty names are indexed, so asking for None or for the
     * empty name finds nothing; otherwise an object is found exactly when some object
     * carries that name, and the one found is the last such object in the list.
     */
    function GetNeoByName(name: Option<string>): (r: NearEarthObject?)
      ensures r != null <==> Truthy(name) && exists i :: 0 <= i < |neos| && neos[i].name == name
      ensures r != null ==> exists i :: IsLastWithKey(ByName, neos, i, name.value) && r == neos[i]
      ensures r != null ==> r in neos && r.name == name
    {
      IndexKeys(ByName, neos);
      IndexLastWins(ByName, neos);
      if name.Some? && name.value in byName then byName[name.value] else null
    }

    /**
     * `query(filters)`: the approaches the filter stack accepts, ordered by time. It raises
     * exactly when the stack raises on some approach; otherwise the result is sorted by
     * time and holds only accepted approaches of the database.
     */
    function Query(fs: seq<Filter>): (r: Result<seq<CloseApproach>, Error>)
      reads approaches
      ensures r.Ok? <==> forall a :: a in approaches ==> MatchAll(fs, a).Ok?
      ensures r.Ok? ==> SortedByTime(r.value)
      ensures r.Ok? ==> forall a :: a in r.value ==> a in approaches && MatchAll(fs, a) == Ok(true)
    {
      match ApplyFilters(fs, approaches)
      case Err(e) => Err(e)
      case Ok(selected) =>
        var sorted := SortByTime(selected);
        assert forall a :: a in sorted ==> a in selected by {
          forall a | a in sorted ensures a in selected {
            assert a in multiset(sorted);
          }
        }
        Ok(sorted)
    }

    /**
     * A query that does not raise returns each accepted approach as often as the database
     * holds it, and no rejected one.
     */
    lemma QueryCount(fs: seq<Filter>)
      requires Query(fs).Ok?
      ensures forall a :: multiset(Query(fs).value)[a] ==
                          (if MatchAll(fs, a) == Ok(true) then multiset(approaches)[a] else 0)
    {
      ApplyFiltersCount(fs, approaches);
    }

    /**
     * Sorting is stable: among the approaches at any one time, a query lists the accepted
     * ones in database order.
     */
    lemma QueryStable(fs: seq<Filter>, t: int)
      requires Query(fs).Ok?
      ensures ApplyFilters(fs, AtTime(approaches, t)) == Ok(AtTime(Query(fs).value, t))
    {
      ApplyFiltersAtTime(fs, approaches, t);
    }
 
    /** With no filters, a query returns every approach of the database. */
    lemma QueryNoFilters()
      ensures Query([]).Ok?
      ensures multiset(Query([]).value) == multiset(approaches)
    {
      ApplyFiltersNone(approaches);
    }

    /**
     * Removing trailing filters cannot introduce an error: if the longer stack does not
     * raise, neither does the shorter one, and the longer result holds no approach more
     * often than the shorter one's.
     */
    lemma QueryNarrowing(fs: seq<Filter>, gs: seq<Filter>)
      requires Query(fs + gs).Ok?
      ensures Query(fs).Ok?
      ensures multiset(Query(fs + gs).value) <= multiset(Query(fs).value)
    {
      ApplyFiltersNarrowing(fs, gs, approaches);
      SubsequenceMultiset(ApplyFilters(fs + gs, approaches).value, ApplyFilters(fs, approaches).value);
    }

    /** Two stacks of the same filters give the same query result, whenever neither raises. */
    lemma QueryFilterOrder(fs: seq<Filter>, gs: seq<Filter>)
      requires forall f :: f in fs <==> f in gs
      requires Query(fs).Ok? && Query(gs).Ok?
      ensures Query(fs) == Query(gs)
    {
      ApplyFiltersOrder(fs, gs, approaches);
    }
  }
}
