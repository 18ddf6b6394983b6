/** The pure part of `main` (main.py): drop unnamed rows, keep interesting rows, filter
    by theme, take the first `n`, and order their coordinates greedily. */
module Tour {
  import opened Values
  import opened Sequences
  import opened Amenities
  import opened Themes
  import opened Route

  /** A `[lat, lon]` pair of `points_list`. */
  datatype Point = Point(lat: real, lon: real)

  /** The exceptions the pipeline can raise: the tag test's TypeError; the KeyError for
      'amenity' when no row has a name (applying the tag test to no rows gives an empty
      object-typed result, which pandas reads as an empty list of column labels, so the
      selected frame has no columns left); and the IndexError of `points[0]` when no tour
      point is left. */
  datatype Failure = TagTypeError | AmenityKeyError | NoTourPoints

  datatype Outcome<T> = Ok(value: T) | Err(failure: Failure)

  /** `points_list`: the coordinates of the rows, in row order. */
  function Coordinates(rows: seq<Record>): (r: seq<Point>)
    ensures |r| == |rows|
    ensures forall i :: 0 <= i < |rows| ==> r[i].lat == rows[i].lat && r[i].lon == rows[i].lon
  {
    seq(|rows|, i requires 0 <= i < |rows| => Point(rows[i].lat, rows[i].lon))
  }

  /** `filter_by_theme(interesting_data, theme).head(num_amenities)`, where `interesting_data`
      is computed from the named rows. */
  function TourPoints(data: seq<Record>, theme: string, n: int): (r: Outcome<seq<Record>>)
    ensures r == Err(AmenityKeyError) <==> forall i :: 0 <= i < |data| ==> data[i].name.None?
    ensures r == Err(TagTypeError) <==>
      exists i :: 0 <= i < |data| && data[i].name.Some? && MembershipRaises(data[i].tags)
    ensures r != Err(NoTourPoints)
    ensures r.Ok? && 0 <= n ==> |r.value| <= n
    ensures r.Ok? ==> SubseqOf(r.value, data)
    ensures r.Ok? ==> forall x :: x in r.value ==>
      && x.name.Some?
      && HasInterestingKey(x.tags)
      && (theme in ThemeTable ==> x.amenity in ThemeTable[theme])
      && (theme !in ThemeTable ==> x.amenity in ThemeTable)
  {
    var named := Named(data);
    NamedRaises(data);
    NoneNamed(data);
    if |named| == 0 then Err(AmenityKeyError)
    else
      match InterestingFilter(named)
      case None => Err(TagTypeError)
      case Some(interesting) =>
        var themed := FilterByTheme(interesting, theme);
        var r := Head(themed, n);
        PrefixIsSubseq(themed, |r|);
        SubseqTrans(r, themed, interesting);
        SubseqTrans(r, interesting, named);
        SubseqTrans(r, named, data);
        assert forall x :: x in r ==> x in themed;
        assert forall x :: x in themed ==> x in interesting && multiset(themed)[x] > 0;
        Ok(r)
  }

  /** No row survives the name filter exactly when no row has a name. */
  lemma NoneNamed(data: seq<Record>)
    ensures |Named(data)| == 0 <==> forall i :: 0 <= i < |data| ==> data[i].name.None?
  {
    if i :| 0 <= i < |data| && data[i].name.Some? {
      assert data[i] in Named(data);
    }
  }

  /** Some named row raises in the tag test exactly when some row does among the named rows. */
  lemma NamedRaises(data: seq<Record>)
    ensures (exists i :: 0 <= i < |Named(data)| && MembershipRaises(Named(data)[i].tags)) <==>
            (exists i :: 0 <= i < |data| && data[i].name.Some? && MembershipRaises(data[i].tags))
  {
    var named := Named(data);
    if i :| 0 <= i < |named| && MembershipRaises(named[i].tags) {
      assert named[i] in data;
      var j :| 0 <= j < |data| && data[j] == named[i];
    }
    if i :| 0 <= i < |data| && data[i].name.Some? && MembershipRaises(data[i].tags) {
      assert data[i] in named;
      var j :| 0 <= j < |named| && named[j] == data[i];
    }
  }

  /** When the tag test does not raise, the tour points are the `'amenity'` KeyError if no
      row has a name, and otherwise the first `min(n, length)` rows of the theme-filtered
      interesting, named rows, in order. */
  lemma TourPointsArePrefix(data: seq<Record>, theme: string, n: nat)
    requires InterestingFilter(Named(data)).Some?
    ensures var themed := FilterByTheme(InterestingFilter(Named(data)).value, theme);
      TourPoints(data, theme, n) ==
        if |Named(data)| == 0 then Err(AmenityKeyError)
        else Ok(themed[..if n < |themed| then n else |themed|])
  {
  }

  /** `nearest_neighbor_route(points_list)` for the tour points. */
  function TourRoute(data: seq<Record>, theme: string, n: int, dist: (Point, Point) -> real)
    : (r: Outcome<seq<Point>>)
    ensures TourPoints(data, theme, n).Err? ==> r == Err(TourPoints(data, theme, n).failure)
    ensures TourPoints(data, theme, n) == Ok([]) <==> r == Err(NoTourPoints)
    ensures r.Ok? <==> TourPoints(data, theme, n).Ok? && |TourPoints(data, theme, n).value| > 0
    ensures r.Ok? ==>
      var pts := TourPoints(data, theme, n);
      && pts.Ok? && |pts.value| > 0
      && multiset(r.value) == multiset(Coordinates(pts.value))
      && r.value[0] == Point(pts.value[0].lat, pts.value[0].lon)
  {
    match TourPoints(data, theme, n)
    case Err(e) => Err(e)
    case Ok(pts) =>
      if |pts| == 0 then Err(NoTourPoints)
      else Ok(NearestNeighborRoute(Coordinates(pts), dist))
  }

  /** Every step of a tour route picks what `min` picks among the remaining coordinates. */
  lemma TourRouteIsGreedy(data: seq<Record>, theme: string, n: int, dist: (Point, Point) -> real)
    ensures var route := TourRoute(data, theme, n, dist);
      route.Ok? ==>
        && TourPoints(data, theme, n).Ok?
        && var coords := Coordinates(TourPoints(data, theme, n).value);
        && |coords| > 0
        && route.value == NearestNeighborRoute(coords, dist)
        && AllGreedy(coords, route.value, dist)
  {
    match TourPoints(data, theme, n)
    case Err(_) =>
    case Ok(pts) =>
      if |pts| > 0 {
        RouteIsGreedy(Coordinates(pts), dist);
      }
  }
}
