/** The amenity records loaded from the OpenStreetMap extract and the row
    filters the tour planner applies to them before theming (main.py). */
module Amenities {
  import opened Values
  import opened Sequences

  /** One row of the amenity table. `name` is None where the column is missing (NaN). */
  datatype Record = Record(name: Option<string>, amenity: string, lat: real, lon: real, tags: Cell)

  /** The tag keys whose presence marks a record as interesting, in the order main.py checks them. */
  const InterestingKeys: seq<string> :=
    ["brand:wikidata", "brand:wikipedia", "official_name", "opening_hours",
     "cuisine", "addr:street", "addr:housenumber", "website"]

  /** Amenity categories considered as starting points (transit and housing), as listed
      in main.py, including its spellings with spaces. */
  const TransitAndHousing: seq<string> :=
    ["ferry_terminal", "seaplane terminal", "bus_station", "taxi",
     "car_rental", "car_sharing", "bicycle_rental", "motorcycle_rental",
     "parking", "parking_entrance", "parking_space", "charging_station",
     "housing co-op", "EVSE"]

  predicate HasName(r: Record)
  {
    r.name.Some?
  }

  /** Rows whose name is present, in their original order. */
  function Named(data: seq<Record>): (r: seq<Record>)
    ensures forall x :: x in r <==> x in data && x.name.Some?
    ensures Filtered(r, data, HasName)
  {
    KeepIf(data, HasName)
  }

  /** `k` occurs as a contiguous piece of `s` (Python's `k in s` on strings). */
  predicate SubstringOf(k: string, s: string)
  {
    exists i :: 0 <= i <= |s| - |k| && OccursAt(k, s, i)
  }

  predicate OccursAt(k: string, s: string, i: int)
  {
    0 <= i <= |s| - |k| && s[i..i + |k|] == k
  }

  /** The cell's tags mention key `k`: as a dictionary key, or as a substring when the
      cell is a string. Other scalars mention nothing. */
  predicate Mentions(tags: Cell, k: string)
  {
    match tags
    case Dict(m) => k in m
    case Scalar(Str(s)) => SubstringOf(k, s)
    case Scalar(_) => false
  }

  /** Python's `k in tags` raises TypeError for a cell that is neither a dictionary nor a string. */
  predicate MembershipRaises(tags: Cell)
  {
    tags.Scalar? && !tags.v.Str?
  }

  /** Python's `k in tags` for one key: None when it raises. */
  function Contains(tags: Cell, k: string): Option<bool>
  {
    if MembershipRaises(tags) then None else Some(Mentions(tags, k))
  }

  /** The short-circuit `or` chain of membership tests over `keys`, left to right:
      it stops at the first key found and raises at the first test that raises. */
  function AnyMentioned(tags: Cell, keys: seq<string>): (r: Option<bool>)
    ensures r.None? <==> |keys| > 0 && MembershipRaises(tags)
    ensures r.Some? ==> (r.value <==> exists k :: k in keys && Mentions(tags, k))
  {
    if |keys| == 0 then Some(false)
    else
      match Contains(tags, keys[0])
      case None => None
      case Some(true) => Some(true)
      case Some(false) =>
        assert forall k :: k in keys ==> k == keys[0] || k in keys[1..];
        AnyMentioned(tags, keys[1..])
  }

  predicate IsInteresting(r: Record)
  {
    AnyMentioned(r.tags, InterestingKeys) == Some(true)
  }

  /** A record is interesting when its tags mention one of the interesting keys. */
  predicate HasInterestingKey(tags: Cell)
  {
    exists k :: k in InterestingKeys && Mentions(tags, k)
  }

  /** `data[data['tags'].apply(...)]`: the rows whose tags mention one of the interesting
      keys. None when the test raises on some row's tags. */
  function InterestingFilter(data: seq<Record>): (r: Option<seq<Record>>)
    ensures r.None? <==> exists i :: 0 <= i < |data| && MembershipRaises(data[i].tags)
    ensures r.Some? ==> forall x :: x in r.value <==> x in data && HasInterestingKey(x.tags)
    ensures r.Some? ==>
      forall x :: multiset(r.value)[x] == (if HasInterestingKey(x.tags) then multiset(data)[x] else 0)
    ensures r.Some? ==> SubseqOf(r.value, data)
  {
    if exists i | 0 <= i < |data| :: AnyMentioned(data[i].tags, InterestingKeys).None? then None
    else Some(KeepIf(data, IsInteresting))
  }

  /** For tags stored as a dictionary, interesting means one of the eight keys is present. */
  lemma InterestingDictIff(data: seq<Record>, x: Record)
    requires InterestingFilter(data).Some?
    requires x in data && x.tags.Dict?
    ensures x in InterestingFilter(data).value <==>
      || "brand:wikidata" in x.tags.entries || "brand:wikipedia" in x.tags.entries
      || "official_name" in x.tags.entries || "opening_hours" in x.tags.entries
      || "cuisine" in x.tags.entries || "addr:street" in x.tags.entries
      || "addr:housenumber" in x.tags.entries || "website" in x.tags.entries
  {
    var m := x.tags.entries;
    if x in InterestingFilter(data).value {
      var k :| k in InterestingKeys && Mentions(x.tags, k);
      assert k in m;
    } else {
      forall k | k in InterestingKeys
        ensures k !in m
      {
      }
    }
  }

  predicate IsStartingPoint(r: Record)
  {
    r.amenity in TransitAndHousing
  }

  /** `data[data['amenity'].isin(transit_and_housing)]`. */
  function StartingPoints(data: seq<Record>): (r: seq<Record>)
    ensures forall x :: x in r <==> x in data && x.amenity in TransitAndHousing
    ensures Filtered(r, data, IsStartingPoint)
  {
    KeepIf(data, IsStartingPoint)
  }
}
