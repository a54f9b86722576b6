/**
 * The two record types of the catalog (models.py): a near-Earth object (NEO) and one
 * close approach of an NEO to Earth. Every field except the two linkage fields is fixed
 * when the record is built, so those fields are `const`; the linkage fields
 * `NearEarthObject.approaches` and `CloseApproach.neo` are filled in later by the
 * database and are `var`.
 */
module Models {
  import opened Wrappers

  /** A Python float: a real number or NaN. Infinities are not modelled. */
  datatype Float = NaN | Finite(x: real)

  /**
   * What `float(info.get(key, default))` meets: the key is missing (so the default is
   * converted), the conversion succeeds with the given float, or it raises ValueError.
   */
  datatype FloatInput = Missing | Converts(to: Float) | Malformed

  /** Times are whole minutes since the epoch (UTC); a day has this many of them. */
  const MinutesPerDay: int := 1440

  /** `datetime.date()`: the calendar day, counted from the epoch, on which `time` falls. */
  function DateOf(time: int): (day: int)
    ensures day * MinutesPerDay <= time < (day + 1) * MinutesPerDay
  {
    time / MinutesPerDay
  }

  /** Python truthiness of an optional string: present and non-empty. */
  predicate Truthy(s: Option<string>) {
    s.Some? && s.value != ""
  }

  class NearEarthObject {
    /** Primary designation (`pdes`). */
    const designation: string
    /** IAU name; may be absent or empty. */
    const name: Option<string>
    /** Diameter in km; NaN when unknown. */
    const diameter: Float
    /** Whether the object is potentially hazardous. */
    const hazardous: bool
    /** Close approaches of this object, appended by the database when it links records. */
    var approaches: seq<CloseApproach>

    /**
     * `NearEarthObject(**info)`: `pdes` defaults to the empty string, `name` to None,
     * an absent or unconvertible diameter becomes NaN, and `hazardous` is the truth
     * value of `pha`, False when absent.
     */
    constructor (pdes: Option<string>, name: Option<string>, diameter: FloatInput, pha: Option<bool>)
      ensures designation == (if pdes.Some? then pdes.value else "")
      ensures this.name == name
      ensures this.diameter == (if diameter.Converts? then diameter.to else NaN)
      ensures hazardous == (pha == Some(true))
      ensures approaches == []
    {
      designation := if pdes.Some? then pdes.value else "";
      this.name := name;
      this.diameter := match diameter
        case Converts(f) => f
        case Missing => NaN
        case Malformed => NaN;
      hazardous := match pha
        case Some(b) => b
        case None => false;
      approaches := [];
    }

    /**
     * `fullname`: the designation, followed by the name in parentheses when the name is
     * non-empty. The designation is a prefix of it, and the name can be read back from it.
     */
    function FullName(): (r: string)
      ensures designation <= r
      ensures r == designation <==> !Truthy(name)
      ensures Truthy(name) ==> |r| == |designation| + |name.value| + 3
      ensures Truthy(name) ==> r[|designation|..|designation| + 2] == " ("
      ensures Truthy(name) ==> r[|designation| + 2..|r| - 1] == name.value && r[|r| - 1] == ')'
    {
      if Truthy(name) then designation + " (" + name.value + ")" else designation
    }
  }

  class CloseApproach {
    /** Designation of the approaching object as the feed gives it (`_designation`). */
    const rawDesignation: string
    /** Time of closest approach, in minutes since the epoch. */
    const time: int
    /** Nominal approach distance, in astronomical units. */
    const distance: Float
    /** Velocity relative to Earth, in km/s. */
    const velocity: Float
    /** The object this approach belongs to; null until the database links it. */
    var neo: NearEarthObject?

    /**
     * `CloseApproach(**info)`: `des` defaults to the empty string, an absent or
     * unconvertible distance becomes 0.0, an absent velocity becomes 0.0, and the
     * approach starts unlinked. The velocity conversion is not guarded in the source,
     * so a malformed velocity raises; callers must not pass one.
     */
    constructor (des: Option<string>, time: int, dist: FloatInput, vRel: FloatInput)
      requires !vRel.Malformed?
      ensures rawDesignation == (if des.Some? then des.value else "")
      ensures this.time == time
      ensures distance == (if dist.Converts? then dist.to else Finite(0.0))
      ensures velocity == (if vRel.Converts? then vRel.to else Finite(0.0))
      ensures neo == null
    {
      rawDesignation := if des.Some? then des.value else "";
      this.time := time;
      distance := match dist
        case Converts(f) => f
        case Missing => Finite(0.0)
        case Malformed => Finite(0.0);
      velocity := if vRel.Converts? then vRel.to else Finite(0.0);
      neo := null;
    }
  }
}
