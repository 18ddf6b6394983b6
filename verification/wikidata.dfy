/** `extract_wikidata_ids` and its inner `get_wikidata_id` (test.py). */
module Wikidata {
  import opened Values

  /** A data table: its column labels in order, and one row per record mapping a label
      to that row's cell. */
  datatype Frame = Frame(columns: seq<string>, rows: seq<map<string, Cell>>)

  /** Every row has a cell for exactly the table's columns. */
  predicate Rectangular(f: Frame)
  {
    forall i :: 0 <= i < |f.rows| ==> f.rows[i].Keys == set c | c in f.columns
  }

  /** The cell of `row` in column `col`; a missing cell reads as None. */
  function CellAt(row: map<string, Cell>, col: string): Cell
  {
    if col in row then row[col] else Scalar(Null)
  }

  /** `get_wikidata_id(tags)`. */
  function GetWikidataId(tags: Cell): (id: Value)
    ensures !tags.Dict? ==> id == Null
    ensures tags.Dict? && "wikidata" in tags.entries && Truthy(tags.entries["wikidata"]) ==>
      id == tags.entries["wikidata"]
    ensures tags.Dict? && !("wikidata" in tags.entries && Truthy(tags.entries["wikidata"])) ==>
      id == (if "brand:wikidata" in tags.entries then tags.entries["brand:wikidata"] else Null)
  {
    match tags
    case Scalar(_) => Null
    case Dict(m) => Or(Get(m, "wikidata"), Get(m, "brand:wikidata"))
  }

  /** A non-None identifier is always one of the two entries of a tag dictionary, and a
      truthy "wikidata" entry is never overridden by "brand:wikidata". */
  lemma WikidataIdSource(tags: Cell)
    ensures var id := GetWikidataId(tags);
      id != Null ==>
        && tags.Dict?
        && (|| ("wikidata" in tags.entries && id == tags.entries["wikidata"] && Truthy(id))
            || ("brand:wikidata" in tags.entries && id == tags.entries["brand:wikidata"]))
    ensures tags.Dict? && "wikidata" !in tags.entries && "brand:wikidata" !in tags.entries ==>
      GetWikidataId(tags) == Null
  {
  }

  /** The column list after assigning column `c`: unchanged if it exists, else appended. */
  function WithColumn(columns: seq<string>, c: string): (r: seq<string>)
    ensures c in r
    ensures forall x :: x in r <==> x in columns || x == c
    ensures columns <= r
    ensures |r| == |columns| + (if c in columns then 0 else 1)
  {
    if c in columns then columns else columns + [c]
  }

  /** `extract_wikidata_ids(frame)`: adds (or overwrites) the "wikidata_id" column
      computed from each row's tags; a frame without a "tags" column is returned as is. */
  function ExtractWikidataIds(f: Frame): (r: Frame)
    ensures "tags" !in f.columns ==> r == f
    ensures "tags" in f.columns ==>
      && |r.rows| == |f.rows|
      && r.columns == WithColumn(f.columns, "wikidata_id")
      && forall i :: 0 <= i < |f.rows| ==>
           && r.rows[i].Keys == f.rows[i].Keys + {"wikidata_id"}
           && r.rows[i]["wikidata_id"] == Scalar(GetWikidataId(CellAt(f.rows[i], "tags")))
           && forall c :: c in f.rows[i] && c != "wikidata_id" ==> r.rows[i][c] == f.rows[i][c]
  {
    if "tags" !in f.columns then f
    else
      var rows := seq(|f.rows|, i requires 0 <= i < |f.rows| =>
        f.rows[i]["wikidata_id" := Scalar(GetWikidataId(CellAt(f.rows[i], "tags")))]);
      Frame(WithColumn(f.columns, "wikidata_id"), rows)
  }

  /** The result of a rectangular table is rectangular. */
  lemma ExtractKeepsRectangular(f: Frame)
    requires Rectangular(f)
    ensures Rectangular(ExtractWikidataIds(f))
  {

  }

  /** Running the extraction again changes nothing: the tags it reads are not touched. */
  lemma ExtractIdempotent(f: Frame)
    ensures ExtractWikidataIds(ExtractWikidataIds(f)) == ExtractWikidataIds(f)
  {
    var r := ExtractWikidataIds(f);
    if "tags" in f.columns {
      assert "tags" in r.columns;
      var r2 := ExtractWikidataIds(r);
      assert r2.columns == r.columns;
      forall i | 0 <= i < |r.rows|
        ensures r2.rows[i] == r.rows[i]
      {
        assert CellAt(r.rows[i], "tags") == CellAt(f.rows[i], "tags");
      }
      assert r2.rows == r.rows;
    }
  }
}
