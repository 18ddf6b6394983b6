/** The theme table and `filter_by_theme` (main.py). */
module Themes {
  import opened Values
  import opened Sequences
  import opened Amenities

  /** Theme name to amenity categories, as listed in main.py (the duplicate
      "events_venue" under "entertainment" included). */
  const ThemeTable: map<string, seq<string>> := map[
    "nature" := ["park", "watering_place", "fountain", "ranger_station", "hunting_stand",
                 "observation_platform"],
    "food" := ["cafe", "fast_food", "bbq", "restaurant", "pub", "bar", "food_court",
               "ice_cream", "juice_bar", "bistro", "biergarten"],
    "history" := ["place_of_worship", "monastery", "courthouse", "townhall"],
    "science" := ["research_institute", "science", "healthcare", "hospital", "pharmacy",
                  "clinic", "veterinary", "chiropractor", "ATLAS_clean_room"],
    "art" := ["arts_centre", "theatre", "studio", "music_school"],
    "entertainment" := ["cinema", "nightclub", "stripclub", "gambling", "casino",
                        "events_venue", "marketplace", "spa", "events_venue",
                        "internet_cafe", "lounge", "shop|clothes", "leisure"],
    "mode of travel" := ["car_rental", "bicycle_rental", "car_sharing", "taxi", "bus_station",
                         "ferry_terminal", "seaplane_terminal", "motorcycle_rental", "parking",
                         "charging_station", "EVSE"]
  ]

  /** `amenity.isin(values)`: membership of the record's amenity in a collection. */
  function AmenityIsin(values: set<string>): Record -> bool
  {
    (r: Record) => r.amenity in values
  }

  function Elements(xs: seq<string>): (s: set<string>)
    ensures forall x :: x in s <==> x in xs
  {
    set x | x in xs
  }

  /** The values handed to `isin`: the theme's list for a known theme; for any other
      name the table itself, whose members as a collection are its keys. */
  function IsinValues(theme: string): set<string>
  {
    if theme in ThemeTable then Elements(ThemeTable[theme]) else ThemeTable.Keys
  }

  /** `filter_by_theme(data, theme)`. */
  function FilterByTheme(data: seq<Record>, theme: string): (r: seq<Record>)
    ensures SubseqOf(r, data)
    ensures theme in ThemeTable ==>
      forall x :: multiset(r)[x] == (if x.amenity in ThemeTable[theme] then multiset(data)[x] else 0)
    ensures theme !in ThemeTable ==>
      forall x :: multiset(r)[x] == (if x.amenity in ThemeTable then multiset(data)[x] else 0)
  {
    KeepIf(data, AmenityIsin(IsinValues(theme)))
  }

  /** For a known theme the result is exactly the records of that theme, in input order. */
  lemma KnownThemeSelects(data: seq<Record>, theme: string)
    requires theme in ThemeTable
    ensures forall x :: x in FilterByTheme(data, theme) <==> x in data && x.amenity in ThemeTable[theme]
  {

  }

  /** For a name outside the table the records kept are those whose amenity string is
      itself one of the seven theme names; the categories of the themes play no role. */
  lemma UnknownThemeSelectsThemeNames(data: seq<Record>, theme: string)
    requires theme !in ThemeTable
    ensures forall x :: x in FilterByTheme(data, theme) <==>
      x in data && x.amenity in ["nature", "food", "history", "science", "art",
                                  "entertainment", "mode of travel"]
  {

  }

  /** Two unrecognised theme names filter identically. */
  lemma UnknownThemesAgree(data: seq<Record>, t1: string, t2: string)
    requires t1 !in ThemeTable && t2 !in ThemeTable
    ensures FilterByTheme(data, t1) == FilterByTheme(data, t2)
  {

  }

  /** Filtering twice by the same theme is the same as filtering once. */
  lemma FilterByThemeIdempotent(data: seq<Record>, theme: string)
    ensures FilterByTheme(FilterByTheme(data, theme), theme) == FilterByTheme(data, theme)
  {
    KeepIfIdempotent(data, AmenityIsin(IsinValues(theme)));
  }

  /** Filtering two records: each is kept exactly when its amenity is among the values
      `isin` receives for the theme. */
  lemma FilterPair(a: Record, b: Record, theme: string)
    ensures FilterByTheme([a, b], theme)
            == (if a.amenity in IsinValues(theme) then [a] else [])
               + (if b.amenity in IsinValues(theme) then [b] else [])
  {
    KeepIfPair(a, b, AmenityIsin(IsinValues(theme)));
  }

  /** Two sample records: a park, and a record whose amenity is literally "science". */
  const Park := Record(Some("Stanley Park"), "park", 49.30, -123.14, Dict(map[]))
  const Lab := Record(Some("Lab"), "science", 49.26, -123.25, Dict(map[]))

  lemma NatureScenario()
    ensures FilterByTheme([Park, Lab], "nature") == [Park]
  {
    assert "park" in ThemeTable["nature"] && "science" !in ThemeTable["nature"];
    FilterPair(Park, Lab, "nature");
  }

  lemma ScienceScenario()
    ensures FilterByTheme([Park, Lab], "science") == [Lab]
  {
    assert "science" in ThemeTable["science"] && "park" !in ThemeTable["science"];
    FilterPair(Park, Lab, "science");
  }

  lemma MisspeltScenario()
    ensures FilterByTheme([Park, Lab], "parks") == [Lab]
  {
    assert "parks" !in ThemeTable;
    FilterPair(Park, Lab, "parks");
  }

  /** A park survives the "nature" theme but not a misspelt theme, while a record whose
      amenity is literally "science" survives both "science" and a misspelt theme. */
  lemma ThemeScenario()
    ensures && FilterByTheme([Park, Lab], "nature") == [Park]
            && FilterByTheme([Park, Lab], "science") == [Lab]
            && FilterByTheme([Park, Lab], "parks") == [Lab]
  {
    NatureScenario();
    ScienceScenario();
    MisspeltScenario();
  }
}
