/**
 * Filters over close approaches (filters.py). A filter pairs a comparison operator with
 * a reference value and an accessor that reads one attribute of an approach, or of the
 * object it is linked to. The Python subclasses of `AttributeFilter` become one closed
 * datatype of filter kinds with a single dispatch function, `Get`.
 */
module Filters {
  import opened Wrappers
  import opened Models

  /** `operator.eq`, `operator.ge` and `operator.le`. */
  datatype Op = Eq | Ge | Le

  /**
   * The filter classes. `Attribute` is the base class `AttributeFilter`, whose accessor
   * is not implemented.
   */
  datatype FilterKind = Attribute | Date | Distance | Velocity | Diameter | Hazardous

  /** What an accessor returns and a filter compares against: a date, a float or a bool. */
  datatype Value = Day(day: int) | Number(f: Float) | Flag(b: bool)

  /** The exceptions that applying a filter can raise. */
  datatype Error =
    | UnsupportedCriterion  // `UnsupportedCriterionError`, raised by the base accessor
    | UnlinkedApproach      // the accessor dereferences `approach.neo` while it is None
    | Incomparable          // ordering a date against a number raises TypeError

  /** An instance of one of the filter classes: `Kind(op, value)`. */
  datatype Filter = Filter(kind: FilterKind, op: Op, value: Value)

  /** The operator on two reals. */
  predicate Holds(op: Op, x: real, y: real) {
    match op
    case Eq => x == y
    case Ge => x >= y
    case Le => x <= y
  }

  /** Python's numeric view of a float or a bool (a bool compares as 0 or 1). */
  function Numeric(v: Value): Float
    requires !v.Day?
  {
    match v
    case Number(f) => f
    case Flag(b) => Finite(if b then 1.0 else 0.0)
  }

  /**
   * `op(x, y)` with Python's semantics: dates compare with dates; floats and bools compare
   * numerically and every comparison involving NaN is false; a date is never equal to a
   * number, and ordering a date against a number raises.
   */
  function Compare(op: Op, x: Value, y: Value): (r: Result<bool, Error>)
    ensures r.Err? <==> op != Eq && x.Day? != y.Day?
    ensures r.Err? ==> r.error == Incomparable
    ensures x == Number(NaN) || y == Number(NaN) ==> r != Ok(true)
  {
    if x.Day? && y.Day? then Ok(Holds(op, x.day as real, y.day as real))
    else if x.Day? || y.Day? then (if op == Eq then Ok(false) else Err(Incomparable))
    else
      var nx, ny := Numeric(x), Numeric(y);
      Ok(nx.Finite? && ny.Finite? && Holds(op, nx.x, ny.x))
  }

  /** Filter kinds whose accessor reads the linked object rather than the approach. */
  predicate ReadsNeo(kind: FilterKind) {
    kind.Diameter? || kind.Hazardous?
  }

  /**
   * The accessor `Kind.get(approach)`: the approach's calendar date, distance or velocity,
   * or the linked object's diameter or hazardous flag. The base kind raises
   * `UnsupportedCriterionError`, and the last two raise when the approach is unlinked.
   */
  function Get(kind: FilterKind, a: CloseApproach): (r: Result<Value, Error>)
    reads a
    ensures r.Err? <==> kind.Attribute? || (ReadsNeo(kind) && a.neo == null)
    ensures kind.Attribute? ==> r == Err(UnsupportedCriterion)
    ensures ReadsNeo(kind) && a.neo == null ==> r == Err(UnlinkedApproach)
    ensures r.Ok? ==> (r.value.Day? <==> kind.Date?)
  {
    match kind
    case Attribute => Err(UnsupportedCriterion)
    case Date => Ok(Day(DateOf(a.time)))
    case Distance => Ok(Number(a.distance))
    case Velocity => Ok(Number(a.velocity))
    case Diameter => if a.neo == null then Err(UnlinkedApproach) else Ok(Number(a.neo.diameter))
    case Hazardous => if a.neo == null then Err(UnlinkedApproach) else Ok(Flag(a.neo.hazardous))
  }

  /**
   * `filter(approach)`: `op(get(approach), value)`. It raises exactly when the accessor
   * raises or when a date is ordered against a number; a raised error is never a result.
   */
  function Apply(f: Filter, a: CloseApproach): (r: Result<bool, Error>)
    reads a
    ensures r.Err? <==>
      || f.kind.Attribute?
      || (ReadsNeo(f.kind) && a.neo == null)
      || (f.op != Eq && f.kind.Date? != f.value.Day?)
    ensures f.kind.Attribute? ==> r == Err(UnsupportedCriterion)
    ensures ReadsNeo(f.kind) && a.neo == null ==> r == Err(UnlinkedApproach)
  {
    match Get(f.kind, a)
    case Err(e) => Err(e)
    case Ok(v) => Compare(f.op, v, f.value)
  }

  /**
   * Ordering with `ge` is ordering with `le` the other way round, and `eq` is symmetric,
   * errors included.
   */
  lemma CompareConverse(x: Value, y: Value)
    ensures Compare(Ge, x, y) == Compare(Le, y, x)
    ensures Compare(Eq, x, y) == Compare(Eq, y, x)
  {
  }

  /** A date filter sees only the calendar day of the approach: the time of day is ignored. */
  lemma DateFilterIgnoresTimeOfDay(f: Filter, a: CloseApproach, b: CloseApproach)
    requires f.kind.Date?
    requires DateOf(a.time) == DateOf(b.time)
    ensures Apply(f, a) == Apply(f, b)
  {
  }

  /** An object of unknown (NaN) diameter never passes a diameter filter. */
  lemma UnknownDiameterNeverMatches(f: Filter, a: CloseApproach)
    requires f.kind.Diameter?
    requires a.neo != null && a.neo.diameter == NaN
    ensures Apply(f, a) != Ok(true)
  {
  }

  /**
   * A stack of filters applied to one approach, as the nested lazy `filter` calls of the
   * database evaluate them: in order, stopping at the first filter that rejects the
   * approach or raises. The approach passes when every filter accepts it; otherwise the
   * result is that of the first filter that does not accept it.
   */
  function MatchAll(fs: seq<Filter>, a: CloseApproach): (r: Result<bool, Error>)
    reads a
    ensures r == Ok(true) <==> forall f :: f in fs ==> Apply(f, a) == Ok(true)
  {
    if fs == [] then Ok(true)
    else match Apply(fs[0], a)
      case Err(e) => Err(e)
      case Ok(pass) => if pass then MatchAll(fs[1..], a) else Ok(false)
  }

  /**
   * When a stack does not accept an approach, its result is that of its first filter that
   * does not accept it: a rejection or the error that filter raised.
   */
  lemma {:induction false} MatchAllFirstFailure(fs: seq<Filter>, a: CloseApproach)
    requires MatchAll(fs, a) != Ok(true)
    ensures exists k :: 0 <= k < |fs| && Apply(fs[k], a) == MatchAll(fs, a) &&
                        (forall j :: 0 <= j < k ==> Apply(fs[j], a) == Ok(true))
  {
    if Apply(fs[0], a) == Ok(true) {
      MatchAllFirstFailure(fs[1..], a);
      var k :| 0 <= k < |fs[1..]| && Apply(fs[1..][k], a) == MatchAll(fs[1..], a) &&
               (forall j :: 0 <= j < k ==> Apply(fs[1..][j], a) == Ok(true));
      assert Apply(fs[k + 1], a) == MatchAll(fs, a);
      assert forall j :: 0 <= j < k + 1 ==> Apply(fs[j], a) == Ok(true) by {
        forall j | 0 <= j < k + 1 ensures Apply(fs[j], a) == Ok(true) {
          if j > 0 { assert fs[j] == fs[1..][j - 1]; }
        }
      }
    } else {
      assert Apply(fs[0], a) == MatchAll(fs, a);
    }
  }

  /**
   * Adding filters after the existing ones never lets more approaches through, and never
   * turns a raised error into a result: a stack that evaluates cleanly on an approach
   * evaluates its prefix cleanly too, and a prefix rejects whatever it rejected before.
   */
  lemma {:induction false} MatchAllPrefix(fs: seq<Filter>, gs: seq<Filter>, a: CloseApproach)
    ensures MatchAll(fs + gs, a).Ok? ==> MatchAll(fs, a).Ok?
    ensures MatchAll(fs + gs, a) == Ok(true) ==> MatchAll(fs, a) == Ok(true)
    ensures MatchAll(fs, a) == Ok(false) ==> MatchAll(fs + gs, a) == Ok(false)
  {
    if fs != [] {
      assert (fs + gs)[0] == fs[0];
      assert (fs + gs)[1..] == fs[1..] + gs;
      MatchAllPrefix(fs[1..], gs, a);
    }
  }

  /**
   * When two stacks hold the same filters and both evaluate without raising, their order
   * does not matter. (Which stacks raise does depend on order: a filter that rejects an
   * approach shields it from the filters after it.)
   */
  lemma MatchAllOrderIrrelevant(fs: seq<Filter>, gs: seq<Filter>, a: CloseApproach)
    requires forall f :: f in fs <==> f in gs
    requires MatchAll(fs, a).Ok? && MatchAll(gs, a).Ok?
    ensures MatchAll(fs, a) == MatchAll(gs, a)
  {
    if MatchAll(fs, a) != Ok(true) && MatchAll(gs, a) != Ok(true) {
      var r, s := MatchAll(fs, a), MatchAll(gs, a);
      assert r == Ok(r.value) && s == Ok(s.value);
      assert !r.value && !s.value;
    }
  }

  /** The optional criteria of `create_filters`, in its argument order. Dates are day numbers. */
  datatype Criteria = Criteria(
    date: Option<int>, startDate: Option<int>, endDate: Option<int>,
    distanceMin: Option<Float>, distanceMax: Option<Float>,
    velocityMin: Option<Float>, velocityMax: Option<Float>,
    diameterMin: Option<Float>, diameterMax: Option<Float>,
    hazardous: Option<bool>)

  /** Number of arguments of `create_filters`. */
  const ArgumentCount: nat := 10

  /**
   * The table behind `create_filters`: the filter that its `k`-th argument asks for, or
   * None when that argument is absent. An exact date and the hazardous flag compare with
   * `eq`, a start date and every minimum with `ge`, an end date and every maximum with `le`.
   */
  function Asked(c: Criteria, k: nat): Option<Filter>
    requires k < ArgumentCount
  {
    match k
    case 0 => if c.date.Some? then Some(Filter(Date, Eq, Day(c.date.value))) else None
    case 1 => if c.startDate.Some? then Some(Filter(Date, Ge, Day(c.startDate.value))) else None
    case 2 => if c.endDate.Some? then Some(Filter(Date, Le, Day(c.endDate.value))) else None
    case 3 => if c.distanceMin.Some? then Some(Filter(Distance, Ge, Number(c.distanceMin.value))) else None
    case 4 => if c.distanceMax.Some? then Some(Filter(Distance, Le, Number(c.distanceMax.value))) else None
    case 5 => if c.velocityMin.Some? then Some(Filter(Velocity, Ge, Number(c.velocityMin.value))) else None
    case 6 => if c.velocityMax.Some? then Some(Filter(Velocity, Le, Number(c.velocityMax.value))) else None
    case 7 => if c.diameterMin.Some? then Some(Filter(Diameter, Ge, Number(c.diameterMin.value))) else None
    case 8 => if c.diameterMax.Some? then Some(Filter(Diameter, Le, Number(c.diameterMax.value))) else None
    case 9 => if c.hazardous.Some? then Some(Filter(Hazardous, Eq, Flag(c.hazardous.value))) else None
  }

  /** The filters asked for by the first `k` arguments, in argument order. */
  function AskedUpTo(c: Criteria, k: nat): seq<Filter>
    requires k <= ArgumentCount
  {
    if k == 0 then []
    else
      var entry := Asked(c, k - 1);
      if entry.Some? then AskedUpTo(c, k - 1) + [entry.value] else AskedUpTo(c, k - 1)
  }

  /** Whether the `k`-th argument of `create_filters` is given (not None). */
  predicate IsGiven(c: Criteria, k: nat)
    requires k < ArgumentCount
  {
    match k
    case 0 => c.date.Some?
    case 1 => c.startDate.Some?
    case 2 => c.endDate.Some?
    case 3 => c.distanceMin.Some?
    case 4 => c.distanceMax.Some?
    case 5 => c.velocityMin.Some?
    case 6 => c.velocityMax.Some?
    case 7 => c.diameterMin.Some?
    case 8 => c.diameterMax.Some?
    case 9 => c.hazardous.Some?
  }

  /**
   * `create_filters`: one filter per given criterion, appended in argument order, as the
   * table `Asked` lists them.
   */
  method CreateFilters(c: Criteria) returns (fs: seq<Filter>)
    ensures fs == AskedUpTo(c, ArgumentCount)
  {
    fs := [];
    if c.date.Some? { fs := fs + [Filter(Date, Eq, Day(c.date.value))]; }
    assert fs == AskedUpTo(c, 1);
    if c.startDate.Some? { fs := fs + [Filter(Date, Ge, Day(c.startDate.value))]; }
    assert fs == AskedUpTo(c, 2);
    if c.endDate.Some? { fs := fs + [Filter(Date, Le, Day(c.endDate.value))]; }
    assert fs == AskedUpTo(c, 3);
    if c.distanceMin.Some? { fs := fs + [Filter(Distance, Ge, Number(c.distanceMin.value))]; }
    assert fs == AskedUpTo(c, 4);
    if c.distanceMax.Some? { fs := fs + [Filter(Distance, Le, Number(c.distanceMax.value))]; }
    assert fs == AskedUpTo(c, 5);
    if c.velocityMin.Some? { fs := fs + [Filter(Velocity, Ge, Number(c.velocityMin.value))]; }
    assert fs == AskedUpTo(c, 6);
    if c.velocityMax.Some? { fs := fs + [Filter(Velocity, Le, Number(c.velocityMax.value))]; }
    assert fs == AskedUpTo(c, 7);
    if c.diameterMin.Some? { fs := fs + [Filter(Diameter, Ge, Number(c.diameterMin.value))]; }
    assert fs == AskedUpTo(c, 8);
    if c.diameterMax.Some? { fs := fs + [Filter(Diameter, Le, Number(c.diameterMax.value))]; }
    assert fs == AskedUpTo(c, 9);
    if c.hazardous.Some? { fs := fs + [Filter(Hazardous, Eq, Flag(c.hazardous.value))]; }
  }

  /** Whether some given criterion reads the linked object (a diameter bound or the hazardous flag). */
  predicate ReadsLinkedNeo(c: Criteria) {
    c.diameterMin.Some? || c.diameterMax.Some? || c.hazardous.Some?
  }

  /** `x >= y` on floats: false when either is NaN. */
  predicate AtLeast(x: Float, y: Float) {
    x.Finite? && y.Finite? && x.x >= y.x
  }

  /**
   * What the `k`-th argument of `create_filters` demands of an approach, stated directly on
   * its attributes: nothing when the argument is absent; otherwise the calendar date equals,
   * follows or precedes the given day, or the distance, velocity or diameter lies on the
   * right side of the bound (never when NaN), or the hazardous flag equals the given one.
   */
  predicate Meets(c: Criteria, k: nat, a: CloseApproach)
    requires k < ArgumentCount
    reads a
  {
    match k
    case 0 => c.date.Some? ==> DateOf(a.time) == c.date.value
    case 1 => c.startDate.Some? ==> DateOf(a.time) >= c.startDate.value
    case 2 => c.endDate.Some? ==> DateOf(a.time) <= c.endDate.value
    case 3 => c.distanceMin.Some? ==> AtLeast(a.distance, c.distanceMin.value)
    case 4 => c.distanceMax.Some? ==> AtLeast(c.distanceMax.value, a.distance)
    case 5 => c.velocityMin.Some? ==> AtLeast(a.velocity, c.velocityMin.value)
    case 6 => c.velocityMax.Some? ==> AtLeast(c.velocityMax.value, a.velocity)
    case 7 => c.diameterMin.Some? ==> a.neo != null && AtLeast(a.neo.diameter, c.diameterMin.value)
    case 8 => c.diameterMax.Some? ==> a.neo != null && AtLeast(c.diameterMax.value, a.neo.diameter)
    case 9 => c.hazardous.Some? ==> a.neo != null && a.neo.hazardous == c.hazardous.value
  }

  /** The filter asked for by argument `k` accepts an approach exactly when it meets that criterion. */
  lemma AskedMeaning(c: Criteria, k: nat, a: CloseApproach)
    requires k < ArgumentCount
    requires a.neo != null || !ReadsLinkedNeo(c)
    ensures Asked(c, k).None? ==> Meets(c, k, a)
    ensures Asked(c, k).Some? ==> Apply(Asked(c, k).value, a) == Ok(Meets(c, k, a))
  {
  }

  /** Filters applied one after another: a filter appended to a stack runs only if the stack passes. */
  lemma {:induction false} MatchAllSnoc(fs: seq<Filter>, f: Filter, a: CloseApproach)
    ensures MatchAll(fs + [f], a) == if MatchAll(fs, a) == Ok(true) then Apply(f, a) else MatchAll(fs, a)
  {
    if fs != [] {
      assert (fs + [f])[1..] == fs[1..] + [f];
      MatchAllSnoc(fs[1..], f, a);
    }
  }

  /**
   * The filters of `create_filters` never raise on an approach that is linked, or when no
   * criterion reads the linked object, and they accept it exactly when it meets every given
   * criterion.
   */
  lemma {:induction false} CreatedFiltersMeaning(c: Criteria, k: nat, a: CloseApproach)
    requires k <= ArgumentCount
    requires a.neo != null || !ReadsLinkedNeo(c)
    ensures MatchAll(AskedUpTo(c, k), a) == Ok(forall j :: 0 <= j < k ==> Meets(c, j, a))
  {
    if k > 0 {
      CreatedFiltersMeaning(c, k - 1, a);
      AskedMeaning(c, k - 1, a);
      var entry := Asked(c, k - 1);
      if entry.Some? {
        MatchAllSnoc(AskedUpTo(c, k - 1), entry.value, a);
      }
    }
  }

  /** How many of the first `k` arguments of `create_filters` are given. */
  function GivenUpTo(c: Criteria, k: nat): nat
    requires k <= ArgumentCount
  {
    if k == 0 then 0 else GivenUpTo(c, k - 1) + (if IsGiven(c, k - 1) then 1 else 0)
  }

  /**
   * `create_filters` asks for one filter per given argument, and for none when no argument
   * is given.
   */
  lemma {:induction false} CreatedFiltersCount(c: Criteria, k: nat)
    requires k <= ArgumentCount
    ensures |AskedUpTo(c, k)| == GivenUpTo(c, k)
    ensures AskedUpTo(c, k) == [] <==> forall j :: 0 <= j < k ==> !IsGiven(c, j)
  {
    if k > 0 {
      CreatedFiltersCount(c, k - 1);
      assert Asked(c, k - 1).Some? <==> IsGiven(c, k - 1);
    }
  }

  /** `itertools.islice(iterator, stop)`: the first `stop` items, or all of them when `stop` is None. */
  function Islice<T>(s: seq<T>, stop: Option<int>): (r: seq<T>)
    requires stop.None? || stop.value >= 0
    ensures r <= s
    ensures |r| == if stop.None? || stop.value > |s| then |s| else stop.value
  {
    if stop.None? || stop.value > |s| then s else s[..stop.value]
  }

  /**
   * `limit(iterator, n)`: everything when `n` is None or not positive, so that `n == 0`
   * means no limit; otherwise the first `min(n, |s|)` items, in order. The `n == 0` case
   * inside the `islice` call is never reached.
   */
  function Limit<T>(s: seq<T>, n: Option<int>): (r: seq<T>)
    ensures r <= s
    ensures |r| == if n.None? || n.value <= 0 || n.value >= |s| then |s| else n.value
  {
    if n.None? || n.value <= 0 then s
    else
      var stop := if n.value == 0 then None else Some(n.value);
      Islice(s, stop)
  }

  /** Limiting twice by the same bound is limiting once. */
  lemma LimitIdempotent<T>(s: seq<T>, n: Option<int>)
    ensures Limit(Limit(s, n), n) == Limit(s, n)
  {
  }
}
