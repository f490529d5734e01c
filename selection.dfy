/**
 * `collectAndPostSelection`: for each requested layer, the candidate
 * features that the AOI contains (or that intersect it), each tagged with
 * its layer and mode, gathered one collection per layer and flattened into
 * the `SelectionBundle` payload. The map engine's rendered-feature query and
 * turf's predicates are parameters; a predicate may throw.
 */
module Selection {
  import opened Wrappers
  import opened GeoJson
  import opened JsObject
  import opened Sequences
  import opened MapInfoStore

  /** The result of calling a turf predicate: a boolean, or an exception. */
  datatype Outcome = Returned(ok: bool) | Threw

  /** turf's `booleanContains(a, b)` and `booleanIntersects(a, b)`. */
  datatype Predicates = Predicates(
    booleanContains: (Feature, Feature) -> Outcome,
    booleanIntersects: (Feature, Feature) -> Outcome)

  /** One requested layer; `mode` may be left out. */
  datatype LayerPick = LayerPick(layerId: string, mode: Option<LayerMode>)

  function PickMode(p: LayerPick): (m: LayerMode)
    ensures p.mode.None? ==> m == Intersects
    ensures p.mode.Some? ==> m == p.mode.value
  {
    p.mode.GetOr(Intersects)
  }

  function ModeName(m: LayerMode): string
  {
    match m
    case Intersects => "intersects"
    case Contains => "contains"
  }

  /** `contains` asks whether the AOI contains the feature; `intersects` asks with the feature first. */
  function Evaluate(preds: Predicates, aoi: Feature, mode: LayerMode, f: Feature): (o: Outcome)
    ensures mode == Contains ==> o == preds.booleanContains(aoi, f)
    ensures mode == Intersects ==> o == preds.booleanIntersects(f, aoi)
  {
    if mode == Contains then preds.booleanContains(aoi, f) else preds.booleanIntersects(f, aoi)
  }

  /** A candidate is kept when its predicate returns true; false and a throw both drop it. */
  predicate Kept(preds: Predicates, aoi: Feature, mode: LayerMode, f: Feature)
  {
    Evaluate(preds, aoi, mode, f) == Returned(true)
  }

  /** `g.properties._layerId` is the id `layerId`. */
  predicate TaggedWith(g: Feature, layerId: string)
  {
    g.properties.Some? && "_layerId" in g.properties.value && g.properties.value["_layerId"] == Str(layerId)
  }

  /** `{...f, properties: {...(f.properties || {}), _layerId, _mode}}`. */
  function Tag(f: Feature, layerId: string, mode: LayerMode): (g: Feature)
    ensures g.geometry == f.geometry && g.id == f.id && g.properties.Some?
    ensures "_layerId" in g.properties.value && g.properties.value["_layerId"] == Str(layerId)
    ensures "_mode" in g.properties.value && g.properties.value["_mode"] == Str(ModeName(mode))
    ensures forall k :: k != "_layerId" && k != "_mode" ==>
              (k in g.properties.value <==> f.properties.Some? && k in f.properties.value)
    ensures forall k :: k != "_layerId" && k != "_mode" && k in g.properties.value ==>
              g.properties.value[k] == f.properties.value[k]
  {
    var props := f.properties.GetOr(map[]);
    f.(properties := Some(props["_layerId" := Str(layerId)]["_mode" := Str(ModeName(mode))]))
  }

  /** The hits of one layer: its kept candidates, tagged, in candidate order. */
  function Hits(preds: Predicates, aoi: Feature, layerId: string, mode: LayerMode, cands: seq<Feature>): seq<Feature>
  {
    if cands == [] then []
    else
      (if Kept(preds, aoi, mode, cands[0]) then [Tag(cands[0], layerId, mode)] else [])
      + Hits(preds, aoi, layerId, mode, cands[1..])
  }

  /** One more candidate adds its tagged copy when it is kept, and nothing otherwise. */
  lemma HitsStep(preds: Predicates, aoi: Feature, layerId: string, mode: LayerMode, cands: seq<Feature>, j: int)
    requires 0 <= j < |cands|
    ensures Hits(preds, aoi, layerId, mode, cands[..j + 1])
         == Hits(preds, aoi, layerId, mode, cands[..j])
            + if Kept(preds, aoi, mode, cands[j]) then [Tag(cands[j], layerId, mode)] else []
  {
    assert cands[..j + 1] == cands[..j] + [cands[j]];
    HitsAppend(preds, aoi, layerId, mode, cands[..j], [cands[j]]);
    HitsOne(preds, aoi, layerId, mode, cands[j]);
  }

  /** Every candidate tagged; the hits are drawn from these in order. */
  function TagAll(cands: seq<Feature>, layerId: string, mode: LayerMode): (tagged: seq<Feature>)
    ensures |tagged| == |cands|
    ensures forall i :: 0 <= i < |cands| ==> tagged[i] == Tag(cands[i], layerId, mode)
  {
    seq(|cands|, i requires 0 <= i < |cands| => Tag(cands[i], layerId, mode))
  }

  /** Candidates are judged one by one, so splitting the candidate list splits the hits. */
  lemma {:induction false} HitsAppend(preds: Predicates, aoi: Feature, layerId: string, mode: LayerMode, a: seq<Feature>, b: seq<Feature>)
    ensures Hits(preds, aoi, layerId, mode, a + b)
         == Hits(preds, aoi, layerId, mode, a) + Hits(preds, aoi, layerId, mode, b)
  {
    if a == [] {
      assert a + b == b;
    } else {
      assert (a + b)[1..] == a[1..] + b;
      HitsAppend(preds, aoi, layerId, mode, a[1..], b);
    }
  }

  lemma HitsOne(preds: Predicates, aoi: Feature, layerId: string, mode: LayerMode, c: Feature)
    ensures Hits(preds, aoi, layerId, mode, [c])
         == if Kept(preds, aoi, mode, c) then [Tag(c, layerId, mode)] else []
  {
  }

  /** A candidate whose predicate throws is dropped, and the candidates after it are still judged. */
  lemma ThrowingCandidateDropped(preds: Predicates, aoi: Feature, layerId: string, mode: LayerMode,
                                 a: seq<Feature>, c: Feature, b: seq<Feature>)
    requires Evaluate(preds, aoi, mode, c) == Threw
    ensures Hits(preds, aoi, layerId, mode, a + [c] + b)
         == Hits(preds, aoi, layerId, mode, a) + Hits(preds, aoi, layerId, mode, b)
  {
    HitsAppend(preds, aoi, layerId, mode, a + [c], b);
    HitsAppend(preds, aoi, layerId, mode, a, [c]);
    HitsOne(preds, aoi, layerId, mode, c);
  }

  /** The hits are the tagged candidates with some left out, order kept; exactly the kept ones appear. */
  lemma {:induction false} HitsFacts(preds: Predicates, aoi: Feature, layerId: string, mode: LayerMode, cands: seq<Feature>)
    ensures IsSubsequence(Hits(preds, aoi, layerId, mode, cands), TagAll(cands, layerId, mode))
    ensures forall g :: g in Hits(preds, aoi, layerId, mode, cands) <==>
              exists c :: c in cands && Kept(preds, aoi, mode, c) && g == Tag(c, layerId, mode)
  {
    if cands != [] {
      var rest := Hits(preds, aoi, layerId, mode, cands[1..]);
      HitsFacts(preds, aoi, layerId, mode, cands[1..]);
      var tagged := TagAll(cands, layerId, mode);
      assert tagged == [Tag(cands[0], layerId, mode)] + TagAll(cands[1..], layerId, mode);
      if Kept(preds, aoi, mode, cands[0]) {
        assert Hits(preds, aoi, layerId, mode, cands) == [Tag(cands[0], layerId, mode)] + rest;
        SubsequenceCons(rest, TagAll(cands[1..], layerId, mode), Tag(cands[0], layerId, mode));
      } else {
        assert Hits(preds, aoi, layerId, mode, cands) == rest;
        SubsequenceSkip(rest, TagAll(cands[1..], layerId, mode), Tag(cands[0], layerId, mode));
      }
      assert forall c :: c in cands <==> c == cands[0] || c in cands[1..];
    }
  }

  /** Every hit carries the layer's id and mode. */
  lemma HitsTagged(preds: Predicates, aoi: Feature, layerId: string, mode: LayerMode, cands: seq<Feature>)
    ensures forall g :: g in Hits(preds, aoi, layerId, mode, cands) ==>
              TaggedWith(g, layerId)
              && "_mode" in g.properties.value && g.properties.value["_mode"] == Str(ModeName(mode))
  {
    HitsFacts(preds, aoi, layerId, mode, cands);
  }

  /** A pick without a mode keeps the candidates `booleanIntersects(f, aoi)` accepts, each tagged `_mode: "intersects"`. */
  lemma DefaultPickIntersects(preds: Predicates, aoi: Feature, query: string -> seq<Feature>, id: string)
    ensures forall g :: g in PickHits(preds, aoi, query, LayerPick(id, None)).features <==>
              exists c :: c in query(id) && preds.booleanIntersects(c, aoi) == Returned(true) && g == Tag(c, id, Intersects)
    ensures forall g :: g in PickHits(preds, aoi, query, LayerPick(id, None)).features ==>
              "_mode" in g.properties.value && g.properties.value["_mode"] == Str("intersects")
  {
    HitsFacts(preds, aoi, id, Intersects, query(id));
    HitsTagged(preds, aoi, id, Intersects, query(id));
  }

  /** A `contains` pick keeps the candidates the AOI contains, by `booleanContains(aoi, f)`, each tagged `_mode: "contains"`. */
  lemma ContainsPickContains(preds: Predicates, aoi: Feature, query: string -> seq<Feature>, id: string)
    ensures forall g :: g in PickHits(preds, aoi, query, LayerPick(id, Some(Contains))).features <==>
              exists c :: c in query(id) && preds.booleanContains(aoi, c) == Returned(true) && g == Tag(c, id, Contains)
    ensures forall g :: g in PickHits(preds, aoi, query, LayerPick(id, Some(Contains))).features ==>
              "_mode" in g.properties.value && g.properties.value["_mode"] == Str("contains")
  {
    HitsFacts(preds, aoi, id, Contains, query(id));
    HitsTagged(preds, aoi, id, Contains, query(id));
  }

  function PickHits(preds: Predicates, aoi: Feature, query: string -> seq<Feature>, p: LayerPick): FeatureCollection
  {
    FeatureCollection(Hits(preds, aoi, p.layerId, PickMode(p), query(p.layerId)))
  }

  /** `perLayer` after the picks, one assignment per pick from the left. */
  function PerLayer(preds: Predicates, aoi: Feature, query: string -> seq<Feature>, picks: seq<LayerPick>): (r: Record<FeatureCollection>)
    ensures WellFormed(r)
  {
    if picks == [] then Empty()
    else
      var last := picks[|picks| - 1];
      Put(PerLayer(preds, aoi, query, picks[..|picks| - 1]), last.layerId, PickHits(preds, aoi, query, last))
  }

  lemma PerLayerStep(preds: Predicates, aoi: Feature, query: string -> seq<Feature>, picks: seq<LayerPick>, i: int)
    requires 0 <= i < |picks|
    ensures PerLayer(preds, aoi, query, picks[..i + 1])
         == Put(PerLayer(preds, aoi, query, picks[..i]), picks[i].layerId, PickHits(preds, aoi, query, picks[i]))
  {
    assert picks[..i + 1][..i] == picks[..i];
  }

  function PickIds(picks: seq<LayerPick>): (ids: seq<string>)
    ensures |ids| == |picks| && forall i :: 0 <= i < |picks| ==> ids[i] == picks[i].layerId
  {
    seq(|picks|, i requires 0 <= i < |picks| => picks[i].layerId)
  }

  /** `picks[i]` is the last pick of its layer. */
  predicate LastPick(picks: seq<LayerPick>, i: int)
  {
    0 <= i < |picks| && forall j :: i < j < |picks| ==> picks[j].layerId != picks[i].layerId
  }

  /** Every requested layer has a key, placed at its first request, even with no hits. */
  lemma {:induction false} PerLayerKeys(preds: Predicates, aoi: Feature, query: string -> seq<Feature>, picks: seq<LayerPick>)
    ensures PerLayer(preds, aoi, query, picks).keys == FirstOccurrences(PickIds(picks))
  {
    if picks != [] {
      var init := picks[..|picks| - 1];
      var id := picks[|picks| - 1].layerId;
      PerLayerKeys(preds, aoi, query, init);
      assert PickIds(picks) == PickIds(init) + [id];
      PutKeys(PerLayer(preds, aoi, query, init), id, PickHits(preds, aoi, query, picks[|picks| - 1]), PickIds(init));
    }
  }

  /** Assigning `k` to a record whose keys are the first occurrences of `ids` adds `k` as an occurrence. */
  lemma PutKeys<V>(r: Record<V>, k: string, v: V, ids: seq<string>)
    requires WellFormed(r) && r.keys == FirstOccurrences(ids)
    ensures Put(r, k, v).keys == FirstOccurrences(ids + [k])
  {
    FirstOccurrencesSnoc(ids, k);
    assert k in r.entries <==> k in r.keys;
  }

  /** The keys of `perLayer` are exactly the requested layer ids. */
  lemma PerLayerKeySet(preds: Predicates, aoi: Feature, query: string -> seq<Feature>, picks: seq<LayerPick>)
    ensures forall k :: k in PerLayer(preds, aoi, query, picks).entries <==> k in PickIds(picks)
  {
    var r := PerLayer(preds, aoi, query, picks);
    PerLayerKeys(preds, aoi, query, picks);
    FirstOccurrencesFacts(PickIds(picks));
    assert forall k :: k in r.entries <==> k in r.keys;
  }

  /** A layer requested more than once holds the hits of its last request. */
  lemma {:induction false} PerLayerValues(preds: Predicates, aoi: Feature, query: string -> seq<Feature>, picks: seq<LayerPick>)
    ensures forall i :: LastPick(picks, i) ==>
              picks[i].layerId in PerLayer(preds, aoi, query, picks).entries
              && PerLayer(preds, aoi, query, picks).entries[picks[i].layerId] == PickHits(preds, aoi, query, picks[i])
  {
    if picks != [] {
      var init := picks[..|picks| - 1];
      PerLayerValues(preds, aoi, query, init);
      forall i | LastPick(picks, i)
        ensures picks[i].layerId in PerLayer(preds, aoi, query, picks).entries
             && PerLayer(preds, aoi, query, picks).entries[picks[i].layerId] == PickHits(preds, aoi, query, picks[i])
      {
        if i < |picks| - 1 {
          assert LastPick(init, i);
        }
      }
    }
  }

  /** Each collection of `perLayer` holds only hits tagged with its own key. */
  lemma {:induction false} PerLayerTagged(preds: Predicates, aoi: Feature, query: string -> seq<Feature>, picks: seq<LayerPick>)
    ensures forall k, g :: (k in PerLayer(preds, aoi, query, picks).entries
              && g in PerLayer(preds, aoi, query, picks).entries[k].features) ==>
              TaggedWith(g, k)
  {
    if picks != [] {
      var init := picks[..|picks| - 1];
      var last := picks[|picks| - 1];
      PerLayerTagged(preds, aoi, query, init);
      HitsTagged(preds, aoi, last.layerId, PickMode(last), query(last.layerId));
    }
  }

  /** `flatMap(fc => fc.features)`. */
  function Flatten(cs: seq<FeatureCollection>): seq<Feature>
  {
    if cs == [] then [] else cs[0].features + Flatten(cs[1..])
  }

  function TotalFeatures(cs: seq<FeatureCollection>): nat
  {
    if cs == [] then 0 else |cs[0].features| + TotalFeatures(cs[1..])
  }

  /** The flattened list is as long as all collections together. */
  lemma {:induction false} FlattenLength(cs: seq<FeatureCollection>)
    ensures |Flatten(cs)| == TotalFeatures(cs)
  {
    if cs != [] {
      FlattenLength(cs[1..]);
    }
  }

  /** The flattened list holds exactly the features of the collections. */
  lemma {:induction false} FlattenMembers(cs: seq<FeatureCollection>)
    ensures forall g :: g in Flatten(cs) <==> exists i :: 0 <= i < |cs| && g in cs[i].features
  {
    if cs != [] {
      FlattenMembers(cs[1..]);
      var rest := Flatten(cs[1..]);
      assert Flatten(cs) == cs[0].features + rest;
      forall g | g in Flatten(cs)
        ensures exists i :: 0 <= i < |cs| && g in cs[i].features
      {
        if g !in cs[0].features {
          assert g in rest;
          var i :| 0 <= i < |cs[1..]| && g in cs[1..][i].features;
          assert g in cs[i + 1].features;
        }
      }
      forall g, i | 0 <= i < |cs| && g in cs[i].features
        ensures g in Flatten(cs)
      {
        if i > 0 {
          assert g in cs[1..][i - 1].features;
          assert g in rest;
        }
      }
    }
  }

  datatype Meta = Meta(crs: string, ts: int)

  /** The payload posted to the selection endpoint. */
  datatype SelectionBundle = SelectionBundle(
    kind: string, selection: AOI, layers: Record<FeatureCollection>, features: FeatureCollection, meta: Meta)

  function Bundle(aoi: AOI, perLayer: Record<FeatureCollection>, ts: int): SelectionBundle
    requires WellFormed(perLayer)
  {
    SelectionBundle("SelectionBundle", aoi, perLayer, FeatureCollection(Flatten(Values(perLayer))), Meta("EPSG:4326", ts))
  }

  /** Every feature of the bundle is a hit of one of its layers and carries that layer's id. */
  lemma BundleFeaturesTagged(preds: Predicates, aoi: AOI, query: string -> seq<Feature>, picks: seq<LayerPick>, ts: int)
    ensures var b := Bundle(aoi, PerLayer(preds, aoi, query, picks), ts);
      forall g :: g in b.features.features ==>
        exists k :: k in b.layers.entries && g in b.layers.entries[k].features
          && TaggedWith(g, k)
  {
    var per := PerLayer(preds, aoi, query, picks);
    var b := Bundle(aoi, per, ts);
    assert b.layers == per && b.features.features == Flatten(Values(per));
    PerLayerTagged(preds, aoi, query, picks);
    FlattenedFromEntries(per);
  }

  /** When every collection of a record is tagged with its key, so is every feature of the flattened values. */
  lemma FlattenedFromEntries(per: Record<FeatureCollection>)
    requires WellFormed(per)
    requires forall k, g :: (k in per.entries && g in per.entries[k].features) ==>
               TaggedWith(g, k)
    ensures forall g :: g in Flatten(Values(per)) ==>
              exists k :: k in per.entries && g in per.entries[k].features
                && TaggedWith(g, k)
  {
    var vs := Values(per);
    FlattenMembers(vs);
    forall g | g in Flatten(vs)
      ensures exists k :: (k in per.entries && g in per.entries[k].features
        && TaggedWith(g, k))
    {
      var i :| 0 <= i < |vs| && g in vs[i].features;
      var k := per.keys[i];
      assert k in per.entries && g in per.entries[k].features;
    }
  }

  /** The bundle's flat list is as long as all per-layer collections together. */
  lemma BundleSize(preds: Predicates, aoi: AOI, query: string -> seq<Feature>, picks: seq<LayerPick>, ts: int)
    ensures var per := PerLayer(preds, aoi, query, picks);
      |Bundle(aoi, per, ts).features.features| == TotalFeatures(Values(per))
  {
    FlattenLength(Values(PerLayer(preds, aoi, query, picks)));
  }

  /**
   * The loop of `collectAndPostSelection` up to the payload; the rendered
   * features of a layer are `query(layerId)` and the clock reads `now`.
   */
  method CollectSelection(aoi: AOI, picks: seq<LayerPick>, query: string -> seq<Feature>, preds: Predicates, now: int)
    returns (payload: SelectionBundle)
    ensures payload == Bundle(aoi, PerLayer(preds, aoi, query, picks), now)
    ensures payload.kind == "SelectionBundle" && payload.selection == aoi && payload.meta.crs == "EPSG:4326"
  {
    var perLayer: Record<FeatureCollection> := Empty();
    for i := 0 to |picks|
      invariant WellFormed(perLayer)
      invariant perLayer == PerLayer(preds, aoi, query, picks[..i])
    {
      var pick := picks[i];
      var mode := pick.mode.GetOr(Intersects);
      var candidates := query(pick.layerId);
      var hits: seq<Feature> := [];
      for j := 0 to |candidates|
        invariant hits == Hits(preds, aoi, pick.layerId, mode, candidates[..j])
      {
        var f := candidates[j];
        var outcome := if mode == Contains then preds.booleanContains(aoi, f) else preds.booleanIntersects(f, aoi);
        HitsStep(preds, aoi, pick.layerId, mode, candidates, j);
        if outcome == Returned(true) {
          hits := hits + [Tag(f, pick.layerId, mode)];
        }
      }
      assert candidates[..|candidates|] == candidates;
      PerLayerStep(preds, aoi, query, picks, i);
      perLayer := Put(perLayer, pick.layerId, FeatureCollection(hits));
    }
    assert picks[..|picks|] == picks;
    var flat := Flatten(Values(perLayer));
    payload := SelectionBundle("SelectionBundle", aoi, perLayer, FeatureCollection(flat), Meta("EPSG:4326", now));
  }
}
