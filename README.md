# Near-Earth object catalog — a Dafny model

This project models the in-memory catalog of near-Earth objects (NEOs) and their close
approaches to Earth. It covers three parts:

- the record types (`models.py`);
- the predicate filters and the filter factory (`filters.py`);
- the database that indexes the objects, links the approaches to them and answers
  filtered, time-ordered queries (`database.py`).

Modules, one concept each:

- `Wrappers`: `Option` and `Result`.
- `Seqs`: order-preserving subsequences.
- `Models`: the classes `NearEarthObject` and `CloseApproach`. Their identity fields never
  change, so they are `const`. The linkage fields `approaches` and `neo` are `var`, since the
  database writes them.
- `Filters`:
  - the filter kinds, as one closed datatype with one accessor `Get`;
  - applying a filter, and a stack of filters;
  - `create_filters`, as a method that appends step by step;
  - `limit`.
- `TimeOrder`: the stable sort by time that `sorted(..., key=time)` performs.
- `Database`: the class `NEODatabase`. It holds the two indexes, the linking loop, the two
  lookups and the query.
- `Scenario`: a two-object catalog, built and queried.

How Python values are represented:

- Times are integers counting minutes since the epoch. The calendar date of a time is its
  floor division by 1440.
- Floating-point values are `Finite(real)` or `NaN`. Every comparison with `NaN` is false.
- The outcome of a `float(...)` conversion is `Missing`, `Converts(f)` or `Malformed`.
- Filter reference values are days, numbers or flags. Comparisons follow Python's
  mixed-type rules:
  - a flag compares as 1 or 0;
  - a date is never `==` to a number;
  - ordering a date against a number raises.
- Each raised exception is an `Err` value:
  - `UnsupportedCriterion` for the base accessor;
  - `UnlinkedApproach` for `approach.neo.…` on an unlinked approach;
  - `Incomparable` for a mixed-type ordering.

How the query is evaluated:

- The nested lazy `filter` objects of `_apply_filters` are drained by `sorted`. Each
  approach therefore goes through the filters in order, and stops at the first filter that
  rejects it, before the next approach is examined.
- The first exception raised is the one on the earliest approach where the stack raises.
- Without an exception, the result is the accepted approaches in their original order.
  They are then sorted stably by time.

Behaviour of the program worth knowing, each proved or built into the model:

- Filter order matters once a filter raises. A filter that rejects an approach shields it
  from the filters after it, so a stack that raises in one order may not raise in another.
- Removing a filter can make a query raise where it did not before, for the same reason.
- Where no filter raises, both simplifications hold:
  - `QueryFilterOrder`: two orders of the same filters give the same result when neither
    raises.
  - `QueryNarrowing`: removing trailing filters cannot introduce an error, and the result
    can only grow.
- An unparsable velocity is not replaced by 0.0. Velocity is converted without a guard, so a
  malformed velocity raises.

## Model

| member | source | states |
|---|---|---|
| `Models.DateOf` | filters.py:62 | the calendar day is the one whose 1440-minute span contains the time (floor, also before the epoch) |
| `Models.NearEarthObject.constructor` | models.py:18-32 | designation defaults to the empty string; name defaults to None; an absent or unconvertible diameter becomes NaN; `hazardous` is the truth of `pha` (False when absent); `approaches` starts empty |
| `Models.NearEarthObject.FullName` | models.py:34-39 | with a non-empty name the result is the designation, then " (", the name and ")", and the name can be read back from it; otherwise the result is the designation alone |
| `Models.CloseApproach.constructor` | models.py:58-75 | designation defaults to the empty string; the time is kept; an absent or unconvertible distance becomes 0.0; an absent velocity becomes 0.0; the approach starts unlinked |
| `Filters.Compare` | filters.py:32 | `eq`/`ge`/`le` on the accessor's value and the reference: raises exactly when a date is ordered against a non-date; never true when either side is NaN |
| `Filters.Get` | filters.py:34-130 | the accessor of each kind; it raises exactly for the base kind (`UnsupportedCriterion`) and for object-reading kinds on an unlinked approach (`UnlinkedApproach`); a date accessor yields a day and the others yield numbers or flags |
| `Filters.Apply` | filters.py:30-32 | calling a filter raises exactly when its accessor raises or a date is ordered against a non-date, and never turns an error into False |
| `Filters.CompareConverse` | filters.py:32 | `ge(x, y)` is `le(y, x)` and `eq` is symmetric, errors included |
| `Filters.DateFilterIgnoresTimeOfDay` | filters.py:48-62 | two approaches on the same calendar day get the same verdict from any date filter |
| `Filters.UnknownDiameterNeverMatches` | filters.py:99-113 | an object whose diameter is NaN never passes a diameter filter |
| `Filters.MatchAll` | database.py:74-75 | a stack accepts an approach exactly when every filter in it accepts the approach |
| `Filters.MatchAllFirstFailure` | database.py:74-75 | when a stack does not accept an approach, its verdict is that of the first filter that does not accept it, and every filter before that one accepts |
| `Filters.MatchAllPrefix` | database.py:74-75 | if a stack evaluates without raising, so does each prefix of it; a prefix accepts whatever the whole stack accepts; a rejection by the prefix is final |
| `Filters.MatchAllOrderIrrelevant` | database.py:74-75 | two stacks of the same filters give the same verdict when neither raises |
| `Filters.MatchAllSnoc` | database.py:74-75 | pushing a filter on a stack consults it only for approaches the stack accepted |
| `Filters.CreateFilters` | filters.py:133-172 | the tuple holds one filter per given argument, in argument order, each as the argument table prescribes |
| `Filters.AskedMeaning` | filters.py:150-169 | the table: `date` and `hazardous` compare with `eq`, `start_date` and each minimum with `ge`, `end_date` and each maximum with `le`; each filter accepts exactly the approaches its criterion describes; an absent argument asks for nothing |
| `Filters.CreatedFiltersMeaning` | filters.py:146-172 | the created stack never raises on a linked approach, and accepts it exactly when it meets every given criterion |
| `Filters.CreatedFiltersCount` | filters.py:146-172 | one filter per non-None argument, and the empty tuple exactly when every argument is None |
| `Filters.Islice` | filters.py:183 | `islice(s, stop)` is a prefix of `s`, of length `min(stop, len(s))`, or all of `s` for a None stop |
| `Filters.Limit` | filters.py:175-183 | `limit(s, n)` is a prefix of `s`; it is all of `s` when `n` is None or `n <= 0`, and otherwise holds `min(n, len(s))` items |
| `Filters.LimitIdempotent` | filters.py:175-183 | limiting twice with the same `n` is limiting once |
| `TimeOrder.AtTime` | database.py:60 | the approaches of a sequence at one time are taken from it and have that time |
| `TimeOrder.InsertPermutation` | database.py:60 | one insertion step of the sort adds exactly the inserted approach |
| `TimeOrder.InsertSorted` | database.py:60 | one insertion step keeps a time-sorted sequence sorted |
| `TimeOrder.InsertAtTime` | database.py:60 | an inserted approach goes before the approaches already there at its own time, and the order among the others is unchanged |
| `TimeOrder.SortByTime` | database.py:60 | `sorted(..., key=time)`: the result is non-decreasing in time and a permutation of the input; at each time it lists that time's approaches in input order (stability) |
| `Database.Index` | database.py:17-18 | a dict comprehension over the objects: every entry is stored under its own object's key (the designation, or the non-empty name); `IndexKeys` shows which keys are present and `IndexLastWins` that the last object with a key wins |
| `Database.IndexKeys` | database.py:17-18 | the designation index holds every designation; the name index holds every non-empty name; neither holds anything else |
| `Database.IndexLastWins` | database.py:17-18 | with duplicate keys, each key maps to the last object in input order that has it |
| `Database.ApplyFilters` | database.py:66-77 | the drained filter stack raises exactly when it raises on some approach; otherwise the result is an order-preserving selection of the approaches, made of exactly those the stack accepts |
| `Database.ApplyFiltersCount` | database.py:66-77 | each accepted approach is kept as often as it occurs, and each rejected one is dropped |
| `Database.ApplyFiltersFirstError` | database.py:66-77 | the error raised is the one on the earliest approach where the stack raises |
| `Database.ApplyFiltersNone` | database.py:72-77 | with no filters, every approach is kept in order |
| `Database.ApplyFiltersNarrowing` | database.py:72-77 | adding filters on top: if the larger stack does not raise, neither does the smaller, and the larger result is a subsequence of the smaller |
| `Database.ApplyFiltersOrder` | database.py:72-77 | two stacks of the same filters select the same approaches when neither raises |
| `Database.ApplyFiltersAtTime` | database.py:66-77 | filtering commutes with picking out the approaches at one time |
| `Database.NEODatabase.constructor` | database.py:8-20 | both lists are kept as given; each object's list gains exactly its approaches, in input order; each approach whose designation is indexed points at its indexed object; every other approach keeps its link |
| `Database.NEODatabase.Owner` | database.py:29 | the designation index looked up under the approach's designation: an object found for an approach carries the approach's designation; `OwnerListed` shows it is a catalog object, and `GetNeoByDesignation` states the same lookup exactly |
| `Database.NEODatabase.OwnerListed` | database.py:29 | the object found for an approach is one of the catalog's objects |
| `Database.NEODatabase.LinkedToSnoc` | database.py:28-32 | one more approach extends only the list of the object it resolves to |
| `Database.NEODatabase.LinkedToSelects` | database.py:28-32 | an object's linked approaches are a subsequence of the input; each approach that resolves to the object occurs as often as in the input, and each other approach is absent, so every approach goes to at most one object |
| `Database.NEODatabase.LinkNeosAndApproaches` | database.py:22-32 | the loop appends each approach to its object's list, in input order; it points each resolved approach at its object; it changes no other approach and no other field |
| `Database.NEODatabase.Attach` | database.py:29-32 | one iteration: a resolved approach is appended to its object's list and pointed back at the object; an unresolved one changes nothing |
| `Database.NEODatabase.GetNeoByDesignation` | database.py:34-40 | an object is found exactly when one has that designation; with duplicates, the last such object in input order is found |
| `Database.NEODatabase.GetNeoByName` | database.py:42-48 | None and the empty name find nothing; otherwise an object is found exactly when one carries the name, and with duplicates the last one wins |
| `Database.NEODatabase.Query` | database.py:50-64 | raises exactly when the stack raises on some approach; otherwise the result is sorted by time and holds only accepted approaches of the catalog |
| `Database.NEODatabase.QueryCount` | database.py:50-77 | a query returns each accepted approach as often as the catalog holds it, and no rejected one |
| `Database.NEODatabase.QueryStable` | database.py:60-64 | at each time, the query lists the accepted approaches in catalog order |
| `Database.NEODatabase.QueryNoFilters` | database.py:50-77 | with no filters, a query returns every approach of the catalog |
| `Database.NEODatabase.QueryNarrowing` | database.py:72-77 | removing trailing filters cannot introduce an error: if the longer stack does not raise, neither does the shorter one, and its result holds no approach more often than the shorter one's |
| `Database.NEODatabase.QueryFilterOrder` | database.py:72-77 | the order of the filters does not change a query that raises for neither order |
| `Scenario.Indexes` | database.py:17-18 | over the two objects, the designation index holds both, and the name index holds only "Eros" |
| `Scenario.Lookups` | database.py:34-48 | designation "433" and name "Eros" both find the second object |
| `Scenario.Results` | database.py:60-77 | the earlier approach sorts first; the 0.05 au cap rejects the 0.15 au approach and keeps the 0.02 au one |
| `Scenario.Queries` | database.py:50-77 | the two queries over the two approaches give the sorted pair and the single near approach |
| `Scenario.Catalog` | database.py:8-77 | two objects and two approaches: with no filters, the 2019 approach of "2021 AB" comes before the 2020 approach of "433"; a cap of 0.05 au keeps only the first; the name "Eros" finds the object the 2020 approach is linked to |

## Left out

- Reading the CSV and JSON inputs (`extract.py`) and writing results (`write.py`) are file
  I/O. They are not part of this model.
- The date-time helpers `cd_to_datetime` and `datetime_to_str` are not part of this model.
  A time is an integer number of minutes, and its date is its floor division by 1440.
- Display strings are not modelled: `__str__`, `__repr__`, `time_str`, `full_description`
  and `AttributeFilter.__repr__`.
- Laziness is not modelled: the query generator, the `filter` iterators and
  `itertools.islice` are finite sequences. A query that raises is one `Err` result, not a
  generator that raises when it is first advanced. Single-pass iteration is not modelled.
- IEEE floating point is reduced to reals plus `NaN`. Infinities, signed zeros and
  rounding are left out.
- Filter reference values other than dates, numbers and booleans are not modelled (strings,
  `datetime` objects). Nor are comparison errors other than ordering a date against a
  number.
- `float(...)` parsing is an input outcome (`Missing`, `Converts`, `Malformed`), not a
  parser over strings.
- Models.CloseApproach.constructor: requires the velocity not to be malformed. The source
  converts it without a guard (models.py:71, repeated at 74), so a malformed velocity raises
  `ValueError` out of the constructor. A constructor cannot return that error.
- Models.CloseApproach.constructor: the repeated assignments at models.py:74-75 write the
  same values again and are modelled once.
- Models.NearEarthObject.constructor: `pha` is an optional boolean (the loader passes a
  bool). `bool()` of other Python values is not modelled.
- Database.NEODatabase.GetNeoByName: names are strings or None. A lookup with a value of
  another type is not modelled.
- Database.NEODatabase.LinkNeosAndApproaches: `if neo:` is a null test. A found
  `NearEarthObject` defines neither `__bool__` nor `__len__`, so it is always truthy.
- Database.NEODatabase.Attach: this helper is the loop body of `_link_neos_and_approaches`,
  split out as its own method. The source has no separate function for it.
- The constant-time cost of dict lookups is not modelled. Indexes are maps built by
  recursion over the objects.
