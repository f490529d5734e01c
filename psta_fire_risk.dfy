/**
 * The PSTA fire-threat raster layer: the WMS 1.1.1 GetMap request it asks
 * DataBC for (OGC WMS 1.1.1, section 7.2), the tiles URL that restricts the
 * request to the AOI with a GeoServer `CQL_FILTER`, and the effect that
 * decides whether there is such a URL at all.
 */
module PstaFireRisk {
  import opened Wrappers
  import opened Text
  import opened GeoJson
  import opened Uri
  import opened Wkt

  const Endpoint: string := "https://openmaps.gov.bc.ca/geo/pub/ows"

  /** The DataBC object, `pub:` workspace, schema, then table. */
  const Schema: string := "WHSE_LAND_AND_NATURAL_RESOURCE"
  const Table: string := "PROT_PSTA_FIRE_THREAT_RTG_SP"
  const LayerName: string := "pub:" + Schema + "." + Table

  /** Errors come back drawn into the image rather than as XML. */
  const InImage: string := "application/vnd.ogc.se_inimage"

  /** One `name=value` query parameter. */
  datatype Param = Param(name: string, value: string)

  /** The WMS operation asked for. */
  function OperationParams(): seq<Param>
  {
    [Param("service", "WMS"), Param("version", "1.1.1"), Param("request", "GetMap")]
  }

  /** The layer drawn, in its default style. */
  function LayerParams(): seq<Param>
  {
    [Param("layers", LayerName), Param("styles", "")]
  }

  /** Transparent PNG tiles; errors come back drawn into the image. */
  function FormatParams(): seq<Param>
  {
    [Param("format", "image/png"), Param("transparent", "true"), Param("exceptions", InImage)]
  }

  /** Web Mercator, the box filled in by the map for each tile. */
  function ExtentParams(): seq<Param>
  {
    [Param("srs", "EPSG:3857"), Param("bbox", "{bbox-epsg-3857}")]
  }

  /** The parameters of `PSTA_WMS_BASE` that do not depend on the tile size, in the order written; `styles` is present though empty. */
  function FixedParams(): seq<Param>
  {
    OperationParams() + LayerParams() + FormatParams() + ExtentParams()
  }

  /** The tile size, in pixels, as both `width` and `height`. */
  function SizeParams(tileSize: int): seq<Param>
  {
    [Param("width", IntToString(tileSize)), Param("height", IntToString(tileSize))]
  }

  /** All query parameters of `PSTA_WMS_BASE(tileSize)`. */
  function BaseParams(tileSize: int): seq<Param>
  {
    FixedParams() + SizeParams(tileSize)
  }

  function Render(p: Param): string
  {
    p.name + "=" + p.value
  }

  /** The parameters written out as a query string. */
  function QueryString(ps: seq<Param>): string
  {
    Join(seq(|ps|, i requires 0 <= i < |ps| => Render(ps[i])), "&")
  }

  /** `PSTA_WMS_BASE(tileSize)`: the endpoint, `?`, and the parameters joined by `&`. */
  function PstaWmsBase(tileSize: int): string
  {
    Endpoint + "?" + QueryString(BaseParams(tileSize))
  }

  /** The CQL filter GeoServer evaluates: features whose `SHAPE` meets the WKT. */
  function Cql(wkt: string): string
  {
    "INTERSECTS(SHAPE, " + wkt + ")"
  }

  /** `buildTilesUrl`: the WKT goes into the CQL unescaped; the CQL is percent-encoded once. */
  function BuildTilesUrl(aoi: Feature, tileSize: int): (url: string)
    requires IsSurfaceFeature(aoi)
    ensures |url| >= |PstaWmsBase(tileSize)| && url[..|PstaWmsBase(tileSize)|] == PstaWmsBase(tileSize)
  {
    PstaWmsBase(tileSize) + "&CQL_FILTER=" + EncodeURIComponent(Cql(ToWkt4326(aoi.geometry.value)))
  }

  // ---- reading a URL's query parameters back ----

  /** The text before the first occurrence of `c`, or all of `s`. */
  function BeforeFirst(s: string, c: char): string
  {
    if s == [] || s[0] == c then [] else [s[0]] + BeforeFirst(s[1..], c)
  }

  /** The text after the first occurrence of `c`, if there is one. */
  function AfterFirst(s: string, c: char): Option<string>
  {
    if s == [] then None else if s[0] == c then Some(s[1..]) else AfterFirst(s[1..], c)
  }

  /** A query piece: the name runs to the first `=`; a piece without one has an empty value. */
  function ParseParam(piece: string): Param
  {
    Param(BeforeFirst(piece, '='), AfterFirst(piece, '=').GetOr(""))
  }

  /** The parameters of `url`'s query, as a server splitting on `?`, `&` and `=` reads them. */
  function Query(url: string): Option<seq<Param>>
  {
    match AfterFirst(url, '?')
    case None => None
    case Some(q) =>
      var pieces := Split(q, '&');
      Some(seq(|pieces|, i requires 0 <= i < |pieces| => ParseParam(pieces[i])))
  }

  /** The value of the first parameter called `name`. */
  function Lookup(ps: seq<Param>, name: string): Option<string>
  {
    if ps == [] then None else if ps[0].name == name then Some(ps[0].value) else Lookup(ps[1..], name)
  }

  function QueryParam(url: string, name: string): Option<string>
  {
    match Query(url)
    case None => None
    case Some(ps) => Lookup(ps, name)
  }

  /** A parameter that survives the round trip: no `&` anywhere, no `=` in the name. */
  predicate Clean(p: Param)
  {
    '&' !in p.name && '=' !in p.name && '&' !in p.value
  }

  lemma {:induction false} FirstAt(a: string, c: char, b: string)
    requires c !in a
    ensures AfterFirst(a + [c] + b, c) == Some(b)
    ensures BeforeFirst(a + [c] + b, c) == a
  {
    if a == [] {
      assert a + [c] + b == [c] + b;
    } else {
      assert (a + [c] + b)[1..] == a[1..] + [c] + b;
      FirstAt(a[1..], c, b);
      assert a == [a[0]] + a[1..];
    }
  }

  lemma ParseRender(p: Param)
    requires '=' !in p.name
    ensures ParseParam(Render(p)) == p
  {
    assert Render(p) == p.name + ['='] + p.value;
    FirstAt(p.name, '=', p.value);
  }

  predicate AllClean(ps: seq<Param>)
  {
    forall i :: 0 <= i < |ps| ==> Clean(ps[i])
  }

  /** No parameter of `ps` is called `name`. */
  predicate Avoids(ps: seq<Param>, name: string)
  {
    forall i :: 0 <= i < |ps| ==> ps[i].name != name
  }

  lemma CleanConcat(a: seq<Param>, b: seq<Param>)
    requires AllClean(a) && AllClean(b)
    ensures AllClean(a + b)
  {
    forall i | 0 <= i < |a + b|
      ensures Clean((a + b)[i])
    {
      if i < |a| {
        assert (a + b)[i] == a[i];
      } else {
        assert (a + b)[i] == b[i - |a|];
      }
    }
  }

  lemma AvoidsConcat(a: seq<Param>, b: seq<Param>, name: string)
    requires Avoids(a, name) && Avoids(b, name)
    ensures Avoids(a + b, name)
  {
    forall i | 0 <= i < |a + b|
      ensures (a + b)[i].name != name
    {
      if i < |a| {
        assert (a + b)[i] == a[i];
      } else {
        assert (a + b)[i] == b[i - |a|];
      }
    }
  }

  lemma {:induction false} QueryStringSnoc(ps: seq<Param>, p: Param)
    requires |ps| >= 1
    ensures QueryString(ps + [p]) == QueryString(ps) + "&" + Render(p)
  {
    var rb := seq(|ps|, i requires 0 <= i < |ps| => Render(ps[i]));
    var qs := ps + [p];
    var rp := seq(|qs|, i requires 0 <= i < |qs| => Render(qs[i]));
    assert rp == rb + [Render(p)];
    JoinSnoc(rb, "&", Render(p));
  }

  /** Clean parameters placed after `?` read back as themselves, in order. */
  lemma QueryOfParams(endpoint: string, ps: seq<Param>)
    requires '?' !in endpoint
    requires |ps| >= 1
    requires AllClean(ps)
    ensures Query(endpoint + "?" + QueryString(ps)) == Some(ps)
  {
    var rendered := seq(|ps|, i requires 0 <= i < |ps| => Render(ps[i]));
    assert endpoint + "?" + QueryString(ps) == endpoint + ['?'] + QueryString(ps);
    FirstAt(endpoint, '?', QueryString(ps));
    forall i | 0 <= i < |rendered|
      ensures '&' !in rendered[i]
    {
      assert rendered[i] == ps[i].name + "=" + ps[i].value;
    }
    SplitJoin(rendered, '&');
    forall i | 0 <= i < |ps|
      ensures ParseParam(rendered[i]) == ps[i]
    {
      ParseRender(ps[i]);
    }
    assert Split(QueryString(ps), '&') == rendered;
    assert seq(|rendered|, i requires 0 <= i < |rendered| => ParseParam(rendered[i])) == ps;
  }

  /** One more parameter written after a query adds one more parameter to it. */
  lemma AppendParam(endpoint: string, ps: seq<Param>, name: string, value: string)
    requires |ps| >= 1
    ensures endpoint + "?" + QueryString(ps) + "&" + name + "=" + value
         == endpoint + "?" + QueryString(ps + [Param(name, value)])
  {
    QueryStringSnoc(ps, Param(name, value));
  }

  lemma BaseParamsCount(tileSize: int)
    ensures |BaseParams(tileSize)| == 12
  {
  }

  lemma FilterSeparator(base: string, enc: string)
    ensures base + "&CQL_FILTER=" + enc == base + "&" + "CQL_FILTER" + "=" + enc
  {
    assert "&CQL_FILTER=" == "&" + "CQL_FILTER" + "=";
  }

  /** The tiles URL is the base request with `CQL_FILTER` as one more parameter. */
  lemma TilesUrlParamsList(aoi: Feature, tileSize: int)
    requires IsSurfaceFeature(aoi)
    ensures BuildTilesUrl(aoi, tileSize)
         == Endpoint + "?" + QueryString(BaseParams(tileSize) + [Param("CQL_FILTER", EncodeURIComponent(Cql(ToWkt4326(aoi.geometry.value))))])
  {
    var enc := EncodeURIComponent(Cql(ToWkt4326(aoi.geometry.value)));
    FilterSeparator(PstaWmsBase(tileSize), enc);
    BaseParamsCount(tileSize);
    AppendParam(Endpoint, BaseParams(tileSize), "CQL_FILTER", enc);
  }

  lemma {:induction false} LookupAppend(a: seq<Param>, b: seq<Param>, name: string)
    requires Avoids(a, name)
    ensures Lookup(a + b, name) == Lookup(b, name)
  {
    if a == [] {
      assert a + b == b;
    } else {
      assert (a + b)[0] == a[0] && a[0].name != name;
      assert (a + b)[1..] == a[1..] + b;
      LookupAppend(a[1..], b, name);
    }
  }

  lemma LayerNameClean()
    ensures '&' !in LayerName
  {
    assert '&' !in Schema;
    assert '&' !in Table;
  }

  lemma ServiceClean()
    ensures Clean(Param("service", "WMS")) && Clean(Param("version", "1.1.1"))
  {
  }

  lemma RequestClean()
    ensures Clean(Param("request", "GetMap"))
  {
  }

  lemma OperationClean()
    ensures AllClean(OperationParams())
  {
    ServiceClean();
    RequestClean();
  }

  lemma LayerClean()
    ensures AllClean(LayerParams())
  {
    LayerNameClean();
  }

  lemma InImageClean()
    ensures '&' !in InImage
  {
  }

  lemma ImageClean()
    ensures Clean(Param("format", "image/png")) && Clean(Param("transparent", "true"))
  {
  }

  lemma ExceptionsClean()
    ensures Clean(Param("exceptions", InImage))
  {
    InImageClean();
  }

  lemma FormatClean()
    ensures AllClean(FormatParams())
  {
    ImageClean();
    ExceptionsClean();
  }

  lemma ExtentClean()
    ensures AllClean(ExtentParams())
  {
  }

  lemma FixedClean()
    ensures AllClean(FixedParams())
  {
    OperationClean();
    LayerClean();
    FormatClean();
    ExtentClean();
    CleanConcat(OperationParams(), LayerParams());
    CleanConcat(OperationParams() + LayerParams(), FormatParams());
    CleanConcat(OperationParams() + LayerParams() + FormatParams(), ExtentParams());
  }

  /** Every parameter of the base request survives the round trip. */
  lemma BaseParamsClean(tileSize: int)
    ensures AllClean(BaseParams(tileSize))
  {
    FixedClean();
    IntToStringChars(tileSize);
    assert '&' !in IntToString(tileSize);
    CleanConcat(FixedParams(), SizeParams(tileSize));
  }

  /** None of the fixed parameters is `width`, `height` or `CQL_FILTER`. */
  lemma FixedNames(name: string)
    requires name == "width" || name == "height" || name == "CQL_FILTER"
    ensures Avoids(FixedParams(), name)
  {
    assert Avoids(OperationParams(), name);
    assert Avoids(LayerParams(), name);
    assert Avoids(FormatParams(), name);
    assert Avoids(ExtentParams(), name);
    AvoidsConcat(OperationParams(), LayerParams(), name);
    AvoidsConcat(OperationParams() + LayerParams(), FormatParams(), name);
    AvoidsConcat(OperationParams() + LayerParams() + FormatParams(), ExtentParams(), name);
  }

  lemma SizeLookup(tileSize: int, rest: seq<Param>)
    ensures Lookup(BaseParams(tileSize) + rest, "width") == Some(IntToString(tileSize))
    ensures Lookup(BaseParams(tileSize) + rest, "height") == Some(IntToString(tileSize))
  {
    var f, s := FixedParams(), SizeParams(tileSize);
    assert BaseParams(tileSize) + rest == f + (s + rest);
    FixedNames("width");
    FixedNames("height");
    LookupAppend(f, s + rest, "width");
    LookupAppend(f, s + rest, "height");
    assert (s + rest)[0] == s[0];
    assert (s + rest)[1..][0] == s[1];
  }

  /** The base request asks for tiles `tileSize` pixels wide and high. */
  lemma BaseSize(tileSize: int)
    ensures QueryParam(PstaWmsBase(tileSize), "width") == Some(IntToString(tileSize))
    ensures QueryParam(PstaWmsBase(tileSize), "height") == Some(IntToString(tileSize))
  {
    BaseParamsClean(tileSize);
    EndpointClean();
    QueryOfParams(Endpoint, BaseParams(tileSize));
    SizeLookup(tileSize, []);
    assert BaseParams(tileSize) + [] == BaseParams(tileSize);
  }

  lemma EndpointClean()
    ensures '?' !in Endpoint
  {
  }

  /** Percent-encoding leaves no `&` in the filter. */
  lemma FilterClean(cql: string)
    ensures AllClean([Param("CQL_FILTER", EncodeURIComponent(cql))])
  {
    var enc := EncodeURIComponent(cql);
    assert '&' !in enc by {
      forall i | 0 <= i < |enc|
        ensures enc[i] != '&'
      {
        assert IsUnescaped(enc[i]) || enc[i] == '%';
      }
    }
    assert '&' !in "CQL_FILTER" && '=' !in "CQL_FILTER";
  }

  /** The tiles URL reads back as the base parameters followed by `CQL_FILTER`. */
  lemma TilesQuery(aoi: Feature, tileSize: int)
    requires IsSurfaceFeature(aoi)
    ensures Query(BuildTilesUrl(aoi, tileSize))
         == Some(BaseParams(tileSize) + [Param("CQL_FILTER", EncodeURIComponent(Cql(ToWkt4326(aoi.geometry.value))))])
  {
    var enc := EncodeURIComponent(Cql(ToWkt4326(aoi.geometry.value)));
    var ps := BaseParams(tileSize) + [Param("CQL_FILTER", enc)];
    TilesUrlParamsList(aoi, tileSize);
    BaseParamsClean(tileSize);
    FilterClean(Cql(ToWkt4326(aoi.geometry.value)));
    CleanConcat(BaseParams(tileSize), [Param("CQL_FILTER", enc)]);
    EndpointClean();
    QueryOfParams(Endpoint, ps);
  }

  /**
   * The tiles URL keeps the base request's size, and its `CQL_FILTER`
   * decodes to the CQL around the AOI's WKT, which reads back as the AOI's
   * polygon(s).
   */
  lemma TilesUrlParams(aoi: Feature, tileSize: int)
    requires IsSurfaceFeature(aoi)
    ensures QueryParam(BuildTilesUrl(aoi, tileSize), "width") == Some(IntToString(tileSize))
    ensures QueryParam(BuildTilesUrl(aoi, tileSize), "height") == Some(IntToString(tileSize))
    ensures var wkt := ToWkt4326(aoi.geometry.value);
      && QueryParam(BuildTilesUrl(aoi, tileSize), "CQL_FILTER") == Some(EncodeURIComponent(Cql(wkt)))
      && DecodeURIComponent(EncodeURIComponent(Cql(wkt))) == Some(Cql(wkt))
      && ParseWkt(wkt) == Some(Strip(aoi.geometry.value))
  {
    var g := aoi.geometry.value;
    var wkt := ToWkt4326(g);
    var enc := EncodeURIComponent(Cql(wkt));
    var ps := BaseParams(tileSize) + [Param("CQL_FILTER", enc)];
    TilesQuery(aoi, tileSize);
    SizeLookup(tileSize, [Param("CQL_FILTER", enc)]);
    FixedNames("CQL_FILTER");
    var f, s := FixedParams(), SizeParams(tileSize);
    assert ps == f + (s + [Param("CQL_FILTER", enc)]);
    LookupAppend(f, s + [Param("CQL_FILTER", enc)], "CQL_FILTER");
    assert Avoids(s, "CQL_FILTER");
    LookupAppend(s, [Param("CQL_FILTER", enc)], "CQL_FILTER");
    DecodeEncode(Cql(wkt));
    WktRoundTrip(g);
  }

  // ---- the component ----

  /** The component's props; `None` is a prop left out, which takes its default. */
  datatype Props = Props(visible: Option<bool>, maxAreaKm2: Option<real>, tileSize: Option<int>)

  function Visible(p: Props): bool { p.visible.GetOr(true) }

  function MaxAreaKm2(p: Props): real { p.maxAreaKm2.GetOr(5000.0) }

  function TileSize(p: Props): int { p.tileSize.GetOr(512) }

  /**
   * What the effect leaves in `tilesUrl`: nothing when hidden or without an
   * AOI, nothing when the AOI's km² exceeds the maximum (an equal area still
   * gets a URL), otherwise the filtered tiles URL. `areaM2` is turf's area
   * in square metres.
   */
  function EffectUrl(props: Props, aoi: Option<AOI>, areaM2: AOI -> real): Option<string>
  {
    if !Visible(props) || aoi.None? then None
    else if areaM2(aoi.value) / 1000000.0 > MaxAreaKm2(props) then None
    else Some(BuildTilesUrl(aoi.value, TileSize(props)))
  }

  /** The component's `tilesUrl` state. */
  class Layer {
    var tilesUrl: Option<string>

    constructor()
      ensures tilesUrl == None
    {
      tilesUrl := None;
    }

    /** The effect, run on the current props and AOI. */
    method Refresh(props: Props, aoi: Option<AOI>, areaM2: AOI -> real)
      modifies this
      ensures tilesUrl == EffectUrl(props, aoi, areaM2)
      ensures tilesUrl.Some? <==> Visible(props) && aoi.Some? && areaM2(aoi.value) / 1000000.0 <= MaxAreaKm2(props)
      ensures tilesUrl.Some? ==> tilesUrl.value == BuildTilesUrl(aoi.value, TileSize(props))
    {
      if !Visible(props) || aoi.None? {
        tilesUrl := None;
        return;
      }
      var km2 := areaM2(aoi.value) / 1000000.0;
      if km2 > MaxAreaKm2(props) {
        tilesUrl := None;
        return;
      }
      tilesUrl := Some(BuildTilesUrl(aoi.value, TileSize(props)));
    }

    /** The source's tiles: the filtered URL, or the unfiltered base request when there is none. */
    function Tiles(props: Props): (url: string)
      reads this
      ensures tilesUrl.Some? ==> url == tilesUrl.value
      ensures tilesUrl.None? ==> url == PstaWmsBase(TileSize(props))
    {
      tilesUrl.GetOr(PstaWmsBase(TileSize(props)))
    }

    /** The layer's visibility: visible, and a URL that is not the empty (falsy) string. */
    predicate Shown(props: Props)
      reads this
    {
      Visible(props) && tilesUrl.Some? && tilesUrl.value != ""
    }
  }

  /** After the effect, the tiles asked for always start with the base request for the tile size. */
  lemma TilesStartWithBase(l: Layer, props: Props, aoi: Option<AOI>)
    requires l.tilesUrl.Some? ==> aoi.Some? && l.tilesUrl.value == BuildTilesUrl(aoi.value, TileSize(props))
    ensures var url := l.Tiles(props);
      |url| >= |PstaWmsBase(TileSize(props))| && url[..|PstaWmsBase(TileSize(props))|] == PstaWmsBase(TileSize(props))
  {
  }

  /** Shown exactly when visible and the AOI is present and within the area limit. */
  lemma ShownAfterRefresh(l: Layer, props: Props, aoi: Option<AOI>, areaM2: AOI -> real)
    requires l.tilesUrl.Some? <==> Visible(props) && aoi.Some? && areaM2(aoi.value) / 1000000.0 <= MaxAreaKm2(props)
    requires l.tilesUrl.Some? ==> l.tilesUrl.value == BuildTilesUrl(aoi.value, TileSize(props))
    ensures l.Shown(props) <==> Visible(props) && aoi.Some? && areaM2(aoi.value) / 1000000.0 <= MaxAreaKm2(props)
  {
    if l.tilesUrl.Some? {
      assert |PstaWmsBase(TileSize(props))| > 0 by { assert PstaWmsBase(TileSize(props))[0] == Endpoint[0]; }
    }
  }
}
