/**
 * `toWkt4326`: a Polygon or MultiPolygon as Well-Known Text (OGC Simple
 * Feature Access Part 1, clause 7) behind the PostGIS-style `SRID=4326;`
 * prefix, and a reader for exactly that text, so the serialiser's output is
 * shown to determine the geometry it came from (up to the dropped third and
 * further coordinates).
 */
module Wkt {
  import opened Wrappers
  import opened Text
  import opened GeoJson

  // ---- the serialiser, shaped as the source writes it ----

  /** `${x} ${y}`: only the first two coordinates are written. */
  function PositionText(p: Position): string
  {
    IntToString(p.x) + " " + IntToString(p.y)
  }

  /** `fmt`: the positions of a ring joined by "," with no spaces. */
  function Fmt(ring: seq<Position>): string
  {
    Join(seq(|ring|, i requires 0 <= i < |ring| => PositionText(ring[i])), ",")
  }

  /** Every ring in its own parentheses, joined by ",". */
  function RingsText(rings: seq<seq<Position>>): string
  {
    Join(seq(|rings|, i requires 0 <= i < |rings| => "(" + Fmt(rings[i]) + ")"), ",")
  }

  function PolygonsText(polygons: seq<seq<seq<Position>>>): string
  {
    Join(seq(|polygons|, i requires 0 <= i < |polygons| => "(" + RingsText(polygons[i]) + ")"), ",")
  }

  const Srid: string := "SRID=4326;"

  function ToWkt4326(g: Geometry): (wkt: string)
    requires g.IsSurface()
    ensures |wkt| >= |Srid| && wkt[..|Srid|] == Srid
  {
    if g.Polygon? then Srid + ("POLYGON" + ("(" + RingsText(g.rings) + ")"))
    else Srid + ("MULTIPOLYGON" + ("(" + PolygonsText(g.polygons) + ")"))
  }

  // ---- the same text as nested parenthesised groups ----

  /** WKT coordinate text read without its geometry type: pairs and parenthesised lists. */
  datatype Nest = Pair(x: int, y: int) | Group(items: seq<Nest>)

  function NestText(n: Nest): string
    decreases n, 1
  {
    match n
    case Pair(x, y) => IntToString(x) + " " + IntToString(y)
    case Group(items) => "(" + Join(NestTexts(items), ",") + ")"
  }

  function NestTexts(items: seq<Nest>): (ts: seq<string>)
    decreases items, 0
    ensures |ts| == |items|
  {
    if items == [] then [] else [NestText(items[0])] + NestTexts(items[1..])
  }

  lemma {:induction false} NestTextsAt(items: seq<Nest>)
    ensures forall i :: 0 <= i < |items| ==> NestTexts(items)[i] == NestText(items[i])
  {
    if items != [] {
      NestTextsAt(items[1..]);
    }
  }

  function RingNest(ring: seq<Position>): Nest
  {
    Group(seq(|ring|, i requires 0 <= i < |ring| => Pair(ring[i].x, ring[i].y)))
  }

  function RingsNest(rings: seq<seq<Position>>): Nest
  {
    Group(seq(|rings|, i requires 0 <= i < |rings| => RingNest(rings[i])))
  }

  function PolygonsNest(polygons: seq<seq<seq<Position>>>): Nest
  {
    Group(seq(|polygons|, i requires 0 <= i < |polygons| => RingsNest(polygons[i])))
  }

  lemma FmtAsNest(ring: seq<Position>)
    ensures "(" + Fmt(ring) + ")" == NestText(RingNest(ring))
  {
    var items := RingNest(ring).items;
    NestTextsAt(items);
    assert NestTexts(items) == seq(|ring|, i requires 0 <= i < |ring| => PositionText(ring[i]));
  }

  lemma RingsAsNest(rings: seq<seq<Position>>)
    ensures "(" + RingsText(rings) + ")" == NestText(RingsNest(rings))
  {
    var items := RingsNest(rings).items;
    NestTextsAt(items);
    forall i | 0 <= i < |rings|
      ensures NestTexts(items)[i] == "(" + Fmt(rings[i]) + ")"
    {
      FmtAsNest(rings[i]);
    }
    assert NestTexts(items) == seq(|rings|, i requires 0 <= i < |rings| => "(" + Fmt(rings[i]) + ")");
  }

  lemma PolygonsAsNest(polygons: seq<seq<seq<Position>>>)
    ensures "(" + PolygonsText(polygons) + ")" == NestText(PolygonsNest(polygons))
  {
    var items := PolygonsNest(polygons).items;
    NestTextsAt(items);
    forall i | 0 <= i < |polygons|
      ensures NestTexts(items)[i] == "(" + RingsText(polygons[i]) + ")"
    {
      RingsAsNest(polygons[i]);
    }
    assert NestTexts(items)
        == seq(|polygons|, i requires 0 <= i < |polygons| => "(" + RingsText(polygons[i]) + ")");
  }

  // ---- the reader ----

  /** Reads `x y`. */
  function ParsePair(s: string): (r: Option<Parsed<Nest>>)
    ensures r.Some? ==> |r.value.rest| < |s|
  {
    match ParseInt(s)
    case None => None
    case Some(Parsed(x, r1)) =>
      if r1 == [] || r1[0] != ' ' then None
      else
        match ParseInt(r1[1..])
        case None => None
        case Some(Parsed(y, r2)) => Some(Parsed(Pair(x, y), r2))
  }

  /** Reads one item: a parenthesised group or a coordinate pair. */
  function ParseItem(s: string): (r: Option<Parsed<Nest>>)
    decreases |s|, 1
    ensures r.Some? ==> |r.value.rest| < |s|
  {
    if s != [] && s[0] == '(' then ParseGroupBody(s[1..]) else ParsePair(s)
  }

  /** Reads the inside of a group, just after its `(`, through its `)`. */
  function ParseGroupBody(s: string): (r: Option<Parsed<Nest>>)
    decreases |s|, 3
    ensures r.Some? ==> |r.value.rest| < |s|
  {
    if s != [] && s[0] == ')' then Some(Parsed(Group([]), s[1..]))
    else ParseItems(s, [])
  }

  /** Reads `item ("," item)* ")"`, adding the items to `acc`. */
  function ParseItems(s: string, acc: seq<Nest>): (r: Option<Parsed<Nest>>)
    decreases |s|, 2
    ensures r.Some? ==> |r.value.rest| < |s|
  {
    match ParseItem(s)
    case None => None
    case Some(Parsed(item, r)) =>
      if r != [] && r[0] == ',' then ParseItems(r[1..], acc + [item])
      else if r != [] && r[0] == ')' then Some(Parsed(Group(acc + [item]), r[1..]))
      else None
  }

  /** What may follow an item in the text the serialiser writes. */
  predicate Follows(rest: string) { rest == [] || rest[0] == ',' || rest[0] == ')' }

  lemma IntToStringStart(n: int)
    ensures |IntToString(n)| >= 1
    ensures IntToString(n)[0] == '-' || IsDigit(IntToString(n)[0])
  {
  }

  lemma NestTextStart(n: Nest)
    ensures |NestText(n)| >= 1 && NestText(n)[0] != ')'
  {
    if n.Pair? {
      IntToStringStart(n.x);
    }
  }

  lemma PairStep(s: string, x: int, tail: string, y: int, rest: string)
    requires ParseInt(s) == Some(Parsed(x, tail))
    requires tail != [] && tail[0] == ' '
    requires ParseInt(tail[1..]) == Some(Parsed(y, rest))
    ensures ParsePair(s) == Some(Parsed(Pair(x, y), rest))
  {
  }

  lemma FirstNumber(x: int, y: int, rest: string)
    ensures ParseInt(NestText(Pair(x, y)) + rest) == Some(Parsed(x, " " + IntToString(y) + rest))
  {
    var tail := " " + IntToString(y) + rest;
    assert NestText(Pair(x, y)) + rest == IntToString(x) + tail;
    ParseIntToString(x, tail);
  }

  lemma SecondNumber(y: int, rest: string)
    requires Follows(rest)
    ensures ParseInt((" " + IntToString(y) + rest)[1..]) == Some(Parsed(y, rest))
  {
    assert (" " + IntToString(y) + rest)[1..] == IntToString(y) + rest;
    ParseIntToString(y, rest);
  }

  lemma PairRoundTrip(x: int, y: int, rest: string)
    requires Follows(rest)
    ensures ParsePair(NestText(Pair(x, y)) + rest) == Some(Parsed(Pair(x, y), rest))
  {
    FirstNumber(x, y, rest);
    SecondNumber(y, rest);
    PairStep(NestText(Pair(x, y)) + rest, x, " " + IntToString(y) + rest, y, rest);
  }

  lemma ItemsComma(s: string, acc: seq<Nest>, item: Nest, r: string)
    requires ParseItem(s) == Some(Parsed(item, r))
    requires r != [] && r[0] == ','
    ensures ParseItems(s, acc) == ParseItems(r[1..], acc + [item])
  {
  }

  lemma ItemsClose(s: string, acc: seq<Nest>, item: Nest, r: string)
    requires ParseItem(s) == Some(Parsed(item, r))
    requires r != [] && r[0] == ')'
    ensures ParseItems(s, acc) == Some(Parsed(Group(acc + [item]), r[1..]))
  {
  }

  lemma GroupOpen(s: string)
    requires s != [] && s[0] == '('
    ensures ParseItem(s) == ParseGroupBody(s[1..])
  {
  }

  /** The reader reads back exactly the item the serialiser wrote. */
  lemma {:induction false} ItemRoundTrip(n: Nest, rest: string)
    requires Follows(rest)
    ensures ParseItem(NestText(n) + rest) == Some(Parsed(n, rest))
    decreases n, 1
  {
    match n
    case Pair(x, y) =>
      IntToStringStart(x);
      PairRoundTrip(x, y, rest);
    case Group(items) =>
      GroupRoundTrip(items, rest);
  }

  lemma {:induction false} GroupRoundTrip(items: seq<Nest>, rest: string)
    requires Follows(rest)
    ensures ParseItem(NestText(Group(items)) + rest) == Some(Parsed(Group(items), rest))
    decreases items, 2
  {
    var body := Join(NestTexts(items), ",") + ")" + rest;
    var s := "(" + body;
    assert NestText(Group(items)) + rest == s;
    assert s[1..] == body;
    GroupOpen(s);
    if items == [] {
      assert body == ")" + rest;
    } else {
      ItemsRoundTrip(items, [], rest);
      NestTextStart(items[0]);
      assert body[0] == NestText(items[0])[0];
      assert [] + items == items;
    }
  }

  lemma {:induction false} ItemsRoundTrip(items: seq<Nest>, acc: seq<Nest>, rest: string)
    requires items != []
    ensures ParseItems(Join(NestTexts(items), ",") + ")" + rest, acc) == Some(Parsed(Group(acc + items), rest))
    decreases items, 1
  {
    if |items| == 1 {
      LastItemRoundTrip(items, acc, rest);
    } else {
      var more := Join(NestTexts(items[1..]), ",") + ")" + rest;
      var r := "," + more;
      ItemsSplit(items, rest);
      ItemRoundTrip(items[0], r);
      assert r[1..] == more;
      ItemsComma(NestText(items[0]) + r, acc, items[0], r);
      ItemsRoundTrip(items[1..], acc + [items[0]], rest);
      assert acc + [items[0]] + items[1..] == acc + items;
    }
  }

  lemma ItemsSplit(items: seq<Nest>, rest: string)
    requires |items| >= 2
    ensures Join(NestTexts(items), ",") + ")" + rest
         == NestText(items[0]) + ("," + (Join(NestTexts(items[1..]), ",") + ")" + rest))
  {
    var ts := NestTexts(items);
    var j := Join(ts[1..], ",");
    assert Join(ts, ",") == ts[0] + "," + j;
    assert ts[0] == NestText(items[0]) && ts[1..] == NestTexts(items[1..]);
    Reassociate(ts[0], ",", j, ")", rest);
  }

  lemma Reassociate(a: string, b: string, c: string, d: string, e: string)
    ensures a + b + c + d + e == a + (b + (c + d + e))
  {
  }

  lemma LastItemRoundTrip(items: seq<Nest>, acc: seq<Nest>, rest: string)
    requires |items| == 1
    ensures ParseItems(Join(NestTexts(items), ",") + ")" + rest, acc) == Some(Parsed(Group(acc + items), rest))
    decreases items, 0
  {
    var r := ")" + rest;
    assert Join(NestTexts(items), ",") + ")" + rest == NestText(items[0]) + r;
    ItemRoundTrip(items[0], r);
    assert r[1..] == rest;
    ItemsClose(NestText(items[0]) + r, acc, items[0], r);
    assert acc + [items[0]] == acc + items;
  }

  // ---- from groups back to geometry ----

  function RingOf(n: Nest): Option<seq<Position>>
  {
    if n.Group? && forall i :: 0 <= i < |n.items| ==> n.items[i].Pair? then
      Some(seq(|n.items|, i requires 0 <= i < |n.items| => Position(n.items[i].x, n.items[i].y, [])))
    else None
  }

  function RingsOf(n: Nest): Option<seq<seq<Position>>>
  {
    if n.Group? && forall i :: 0 <= i < |n.items| ==> RingOf(n.items[i]).Some? then
      Some(seq(|n.items|, i requires 0 <= i < |n.items| => RingOf(n.items[i]).value))
    else None
  }

  function PolygonsOf(n: Nest): Option<seq<seq<seq<Position>>>>
  {
    if n.Group? && forall i :: 0 <= i < |n.items| ==> RingsOf(n.items[i]).Some? then
      Some(seq(|n.items|, i requires 0 <= i < |n.items| => RingsOf(n.items[i]).value))
    else None
  }

  function StripRing(ring: seq<Position>): seq<Position>
  {
    seq(|ring|, i requires 0 <= i < |ring| => Position(ring[i].x, ring[i].y, []))
  }

  function StripRings(rings: seq<seq<Position>>): seq<seq<Position>>
  {
    seq(|rings|, i requires 0 <= i < |rings| => StripRing(rings[i]))
  }

  lemma RingOfNest(ring: seq<Position>)
    ensures RingOf(RingNest(ring)) == Some(StripRing(ring))
  {
    var n := RingNest(ring);
    assert forall i :: 0 <= i < |n.items| ==> n.items[i] == Pair(ring[i].x, ring[i].y);
    assert RingOf(n).value == StripRing(ring);
  }

  lemma RingsOfNest(rings: seq<seq<Position>>)
    ensures RingsOf(RingsNest(rings)) == Some(StripRings(rings))
  {
    var n := RingsNest(rings);
    forall i | 0 <= i < |rings|
      ensures RingOf(n.items[i]) == Some(StripRing(rings[i]))
    {
      RingOfNest(rings[i]);
    }
    assert RingsOf(n).value == StripRings(rings);
  }

  function StripPolygons(polygons: seq<seq<seq<Position>>>): seq<seq<seq<Position>>>
  {
    seq(|polygons|, i requires 0 <= i < |polygons| => StripRings(polygons[i]))
  }

  lemma PolygonsOfNest(polygons: seq<seq<seq<Position>>>)
    ensures PolygonsOf(PolygonsNest(polygons)) == Some(StripPolygons(polygons))
  {
    var n := PolygonsNest(polygons);
    forall i | 0 <= i < |polygons|
      ensures RingsOf(n.items[i]) == Some(StripRings(polygons[i]))
    {
      RingsOfNest(polygons[i]);
    }
    assert PolygonsOf(n).value == StripPolygons(polygons);
  }

  /** A geometry keeping only the first two coordinates of every position. */
  function Strip(g: Geometry): Geometry
    requires g.IsSurface()
  {
    if g.Polygon? then Polygon(StripRings(g.rings)) else MultiPolygon(StripPolygons(g.polygons))
  }

  /** The coordinates after `POLYGON`, wholly consumed. */
  function ReadPolygon(body: string): Option<Geometry>
  {
    match ParseItem(body)
    case Some(Parsed(n, rest)) =>
      if rest == [] && RingsOf(n).Some? then Some(Polygon(RingsOf(n).value)) else None
    case None => None
  }

  /** The coordinates after `MULTIPOLYGON`, wholly consumed. */
  function ReadMultiPolygon(body: string): Option<Geometry>
  {
    match ParseItem(body)
    case Some(Parsed(n, rest)) =>
      if rest == [] && PolygonsOf(n).Some? then Some(MultiPolygon(PolygonsOf(n).value)) else None
    case None => None
  }

  function ReadTagged(t: string): Option<Geometry>
  {
    if |t| >= 7 && t[..7] == "POLYGON" then ReadPolygon(t[7..])
    else if |t| >= 12 && t[..12] == "MULTIPOLYGON" then ReadMultiPolygon(t[12..])
    else None
  }

  /** Reads `SRID=4326;POLYGON(...)` or `SRID=4326;MULTIPOLYGON(...)` and nothing after it. */
  function ParseWkt(s: string): Option<Geometry>
  {
    if |s| >= |Srid| && s[..|Srid|] == Srid then ReadTagged(s[|Srid|..]) else None
  }

  lemma ParseWktPrefix(t: string)
    ensures ParseWkt(Srid + t) == ReadTagged(t)
  {
    assert (Srid + t)[..|Srid|] == Srid && (Srid + t)[|Srid|..] == t;
  }

  lemma ReadPolygonTag(body: string)
    ensures ReadTagged("POLYGON" + body) == ReadPolygon(body)
  {
    assert ("POLYGON" + body)[..7] == "POLYGON" && ("POLYGON" + body)[7..] == body;
  }

  lemma ReadMultiPolygonTag(body: string)
    ensures ReadTagged("MULTIPOLYGON" + body) == ReadMultiPolygon(body)
  {
    var t := "MULTIPOLYGON" + body;
    assert t[0] == 'M';
    assert t[..12] == "MULTIPOLYGON" && t[12..] == body;
  }

  lemma PolygonRoundTrip(rings: seq<seq<Position>>)
    ensures ReadPolygon("(" + RingsText(rings) + ")") == Some(Polygon(StripRings(rings)))
  {
    RingsAsNest(rings);
    ItemRoundTrip(RingsNest(rings), []);
    assert NestText(RingsNest(rings)) + [] == NestText(RingsNest(rings));
    RingsOfNest(rings);
  }

  lemma MultiPolygonRoundTrip(polygons: seq<seq<seq<Position>>>)
    ensures ReadMultiPolygon("(" + PolygonsText(polygons) + ")") == Some(MultiPolygon(StripPolygons(polygons)))
  {
    PolygonsAsNest(polygons);
    ItemRoundTrip(PolygonsNest(polygons), []);
    assert NestText(PolygonsNest(polygons)) + [] == NestText(PolygonsNest(polygons));
    PolygonsOfNest(polygons);
  }

  /** The text `toWkt4326` writes reads back as the same polygon(s), only extra coordinates lost. */
  lemma WktRoundTrip(g: Geometry)
    requires g.IsSurface()
    ensures ParseWkt(ToWkt4326(g)) == Some(Strip(g))
  {
    if g.Polygon? {
      var body := "(" + RingsText(g.rings) + ")";
      ParseWktPrefix("POLYGON" + body);
      ReadPolygonTag(body);
      PolygonRoundTrip(g.rings);
    } else {
      var body := "(" + PolygonsText(g.polygons) + ")";
      ParseWktPrefix("MULTIPOLYGON" + body);
      ReadMultiPolygonTag(body);
      MultiPolygonRoundTrip(g.polygons);
    }
  }

  /** Two surfaces with the same WKT agree on every ring and every first two coordinates. */
  lemma WktDeterminesGeometry(g: Geometry, h: Geometry)
    requires g.IsSurface() && h.IsSurface()
    requires ToWkt4326(g) == ToWkt4326(h)
    ensures Strip(g) == Strip(h)
  {
    WktRoundTrip(g);
    WktRoundTrip(h);
  }
}
