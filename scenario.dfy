/** A catalog of two objects and two approaches, built and queried. */
module Scenario {
  import opened Wrappers
  import opened Models
  import opened Filters
  import opened TimeOrder
  import opened Database

  /** Minutes from 1970-01-01 00:00 to 2019-06-01 00:00 and to 2020-01-01 00:00. */
  const June2019: int := 18048 * MinutesPerDay
  const January2020: int := 18262 * MinutesPerDay

  /** The distance cap of the scenario: at most 0.05 au. */
  const Nearby: seq<Filter> := [Filter(Distance, Le, Number(Finite(0.05)))]

  /** The indexes over the two objects: both designations, and only the named object by name. */
  lemma Indexes(ab: NearEarthObject, eros: NearEarthObject)
    requires ab.designation == "2021 AB" && ab.name == None
    requires eros.designation == "433" && eros.name == Some("Eros")
    ensures Index(ByDesignation, [ab, eros]) == map["2021 AB" := ab, "433" := eros]
    ensures Index(ByName, [ab, eros]) == map["Eros" := eros]
  {
    assert [ab, eros][..1] == [ab] && [ab][..0] == [];
    assert Index(ByDesignation, [ab]) == map["2021 AB" := ab];
    assert Index(ByName, [ab]) == map[];
  }

  /** The two approaches, queried without filters and with the distance cap. */
  lemma Results(toAb: CloseApproach, toEros: CloseApproach)
    requires toAb.time < toEros.time
    requires toAb.distance == Finite(0.02) && toEros.distance == Finite(0.15)
    ensures ApplyFilters([], [toEros, toAb]) == Ok([toEros, toAb])
    ensures SortByTime([toEros, toAb]) == [toAb, toEros]
    ensures ApplyFilters(Nearby, [toEros, toAb]) == Ok([toAb])
    ensures SortByTime([toAb]) == [toAb]
  {
    var early := [toAb];
    assert [toEros, toAb][1..] == early && early[1..] == [];
    assert SortByTime(early) == early;
    assert SortByTime([toEros, toAb]) == Insert(toEros, early);
    ApplyFiltersNone([toEros, toAb]);
    assert MatchAll(Nearby, toEros) == Ok(false);
    assert MatchAll(Nearby, toAb) == Ok(true);
    assert ApplyFilters(Nearby, early) == Ok(early);
  }

  /** The two lookups of the scenario's catalog. */
  lemma Lookups(db: NEODatabase, ab: NearEarthObject, eros: NearEarthObject)
    requires db.neos == [ab, eros]
    requires ab.designation == "2021 AB" && ab.name == None
    requires eros.designation == "433" && eros.name == Some("Eros")
    ensures db.GetNeoByDesignation("433") == eros
    ensures db.GetNeoByName(Some("Eros")) == eros
  {
  }

  /** The two queries of the scenario's catalog. */
  lemma Queries(db: NEODatabase, toAb: CloseApproach, toEros: CloseApproach)
    requires db.approaches == [toEros, toAb]
    requires toAb.time < toEros.time
    requires toAb.distance == Finite(0.02) && toEros.distance == Finite(0.15)
    ensures db.Query([]) == Ok([toAb, toEros])
    ensures db.Query(Nearby) == Ok([toAb])
  {
    Results(toAb, toEros);
  }

  /**
   * Building the catalog links each approach to its object; querying with no filters
   * yields the earlier "2021 AB" approach first, and the distance cap keeps only it.
   */
  method Catalog() returns (db: NEODatabase, toAb: CloseApproach, toEros: CloseApproach)
    ensures db.Query([]) == Ok([toAb, toEros])
    ensures db.Query(Nearby) == Ok([toAb])
    ensures db.GetNeoByName(Some("Eros")) == toEros.neo
  {
    var ab := new NearEarthObject(Some("2021 AB"), None, Converts(NaN), Some(false));
    var eros := new NearEarthObject(Some("433"), Some("Eros"), Converts(Finite(16.84)), Some(false));
    toEros := new CloseApproach(Some("433"), January2020, Converts(Finite(0.15)), Converts(Finite(5.2)));
    toAb := new CloseApproach(Some("2021 AB"), June2019, Converts(Finite(0.02)), Converts(Finite(12.0)));
    db := new NEODatabase([ab, eros], [toEros, toAb]);
    Lookups(db, ab, eros);
    Queries(db, toAb, toEros);
  }
}
