/**
 * The AOI panel: the derived metrics shown for the current AOI, and the
 * per-layer preview of the features the AOI selects. The preview applies the
 * rule of `collectAndPostSelection` to the store's selected layers, keeping
 * the candidates untagged. turf's `bbox`, `area` and `JSON.stringify` are
 * parameters, as are the map engine's rendered-feature query and turf's
 * predicates.
 */
module AoiPanel {
  import opened Wrappers
  import opened GeoJson
  import opened JsObject
  import opened Sequences
  import opened MapInfoStore
  import opened Selection
  import opened PstaFireRisk

  /** The text shown while there is no AOI. */
  const Placeholder: string := "（画一个多边形后会显示）"

  /** What the panel shows about the AOI: `bbox`, `areaKm2` and the text. */
  datatype Metrics = Metrics(bbox: Option<seq<real>>, areaKm2: Option<real>, text: string)

  /** The metrics memo: both numbers absent together with the AOI; otherwise turf's values and the AOI's JSON. */
  function ComputeMetrics(aoi: Option<AOI>, bbox: AOI -> seq<real>, areaM2: AOI -> real, stringify: AOI -> string): (m: Metrics)
    ensures m.bbox.None? <==> aoi.None?
    ensures m.areaKm2.None? <==> aoi.None?
    ensures aoi.None? ==> m.text == Placeholder
    ensures aoi.Some? ==> m.bbox == Some(bbox(aoi.value)) && m.text == stringify(aoi.value)
    ensures aoi.Some? ==> m.areaKm2 == Some(areaM2(aoi.value) / 1000000.0)
  {
    match aoi
    case None => Metrics(None, None, Placeholder)
    case Some(a) => Metrics(Some(bbox(a)), Some(areaM2(a) / 1000000.0), stringify(a))
  }

  /**
   * The Copy button: what it writes to the clipboard. Nothing without an AOI
   * or when the browser has no clipboard API (`navigator.clipboard?.`);
   * otherwise exactly the text the panel shows.
   */
  function Copied(aoi: Option<AOI>, hasClipboard: bool, bbox: AOI -> seq<real>, areaM2: AOI -> real, stringify: AOI -> string): (r: Option<string>)
    ensures r.Some? <==> aoi.Some? && hasClipboard
    ensures r.Some? ==> r.value == ComputeMetrics(aoi, bbox, areaM2, stringify).text
  {
    match aoi
    case None => None
    case Some(a) => if hasClipboard then Some(stringify(a)) else None
  }

  /**
   * The panel and the fire-risk layer read the same turf area: the layer's
   * effect produces a filtered URL exactly when the layer is visible and the
   * panel shows an area of at most the layer's maximum in km²; that URL is
   * the one built for the panel's AOI.
   */
  lemma PanelAreaDecidesFireRisk(props: Props, aoi: Option<AOI>, bbox: AOI -> seq<real>, areaM2: AOI -> real, stringify: AOI -> string)
    ensures var m := ComputeMetrics(aoi, bbox, areaM2, stringify);
      EffectUrl(props, aoi, areaM2).Some?
      <==> (Visible(props) && m.areaKm2.Some? && m.areaKm2.value <= MaxAreaKm2(props))
    ensures EffectUrl(props, aoi, areaM2).Some? ==>
      EffectUrl(props, aoi, areaM2).value == BuildTilesUrl(aoi.value, TileSize(props))
  {
  }

  // ---- the preview ----

  /** The candidates the layer's rule keeps, unchanged and in candidate order. */
  function Matches(preds: Predicates, aoi: Feature, mode: LayerMode, cands: seq<Feature>): seq<Feature>
  {
    if cands == [] then []
    else (if Kept(preds, aoi, mode, cands[0]) then [cands[0]] else []) + Matches(preds, aoi, mode, cands[1..])
  }

  lemma {:induction false} MatchesAppend(preds: Predicates, aoi: Feature, mode: LayerMode, a: seq<Feature>, b: seq<Feature>)
    ensures Matches(preds, aoi, mode, a + b) == Matches(preds, aoi, mode, a) + Matches(preds, aoi, mode, b)
  {
    if a == [] {
      assert a + b == b;
    } else {
      assert (a + b)[1..] == a[1..] + b;
      MatchesAppend(preds, aoi, mode, a[1..], b);
    }
  }

  /** The matches are some of the candidates, in order; exactly those whose predicate returned true. */
  lemma {:induction false} MatchesFacts(preds: Predicates, aoi: Feature, mode: LayerMode, cands: seq<Feature>)
    ensures IsSubsequence(Matches(preds, aoi, mode, cands), cands)
    ensures forall f :: f in Matches(preds, aoi, mode, cands) <==> f in cands && Kept(preds, aoi, mode, f)
  {
    if cands != [] {
      var rest := Matches(preds, aoi, mode, cands[1..]);
      MatchesFacts(preds, aoi, mode, cands[1..]);
      assert cands == [cands[0]] + cands[1..];
      if Kept(preds, aoi, mode, cands[0]) {
        assert Matches(preds, aoi, mode, cands) == [cands[0]] + rest;
        SubsequenceCons(rest, cands[1..], cands[0]);
      } else {
        assert Matches(preds, aoi, mode, cands) == rest;
        SubsequenceSkip(rest, cands[1..], cands[0]);
      }
    }
  }

  lemma TagAllCons(c: Feature, m: seq<Feature>, layerId: string, mode: LayerMode)
    ensures TagAll([c] + m, layerId, mode) == [Tag(c, layerId, mode)] + TagAll(m, layerId, mode)
  {
    var l, r := TagAll([c] + m, layerId, mode), [Tag(c, layerId, mode)] + TagAll(m, layerId, mode);
    assert |l| == |r|;
    forall i | 0 <= i < |l|
      ensures l[i] == r[i]
    {
      if i > 0 {
        assert ([c] + m)[i] == m[i - 1];
      }
    }
  }

  /** The upload's hits are the preview's matches, tagged: same rule, same argument order, same candidates. */
  lemma {:induction false} HitsAreTaggedMatches(preds: Predicates, aoi: Feature, layerId: string, mode: LayerMode, cands: seq<Feature>)
    ensures Hits(preds, aoi, layerId, mode, cands) == TagAll(Matches(preds, aoi, mode, cands), layerId, mode)
  {
    if cands != [] {
      var c := cands[0];
      var m := Matches(preds, aoi, mode, cands[1..]);
      var h := Hits(preds, aoi, layerId, mode, cands[1..]);
      HitsAreTaggedMatches(preds, aoi, layerId, mode, cands[1..]);
      if Kept(preds, aoi, mode, c) {
        assert Hits(preds, aoi, layerId, mode, cands) == [Tag(c, layerId, mode)] + h;
        assert Matches(preds, aoi, mode, cands) == [c] + m;
        TagAllCons(c, m, layerId, mode);
      } else {
        assert Hits(preds, aoi, layerId, mode, cands) == h;
        assert Matches(preds, aoi, mode, cands) == m;
      }
    }
  }

  function LayerPreview(preds: Predicates, aoi: Feature, query: string -> seq<Feature>, l: LayerMeta): FeatureCollection
  {
    FeatureCollection(Matches(preds, aoi, l.mode, query(l.id)))
  }

  /** `next` after visiting the layers `ls` in order: unselected ones are skipped, selected ones assigned. */
  function PreviewOf(preds: Predicates, aoi: Feature, query: string -> seq<Feature>, ls: seq<LayerMeta>): (r: Record<FeatureCollection>)
    ensures WellFormed(r)
  {
    if ls == [] then Empty()
    else
      var init := PreviewOf(preds, aoi, query, ls[..|ls| - 1]);
      var l := ls[|ls| - 1];
      if l.selected then Put(init, l.id, LayerPreview(preds, aoi, query, l)) else init
  }

  /** The preview state the effect computes; no map or no AOI gives `{}`. */
  function Preview(mapReady: bool, aoi: Option<AOI>, layers: Table, query: string -> seq<Feature>, preds: Predicates): Record<FeatureCollection>
    requires WellFormed(layers)
  {
    if !mapReady || aoi.None? then Empty() else PreviewOf(preds, aoi.value, query, Values(layers))
  }

  lemma {:induction false} SelectedOnlySnoc(ls: seq<LayerMeta>, l: LayerMeta)
    ensures SelectedOnly(ls + [l]) == SelectedOnly(ls) + (if l.selected then [l] else [])
  {
    var tail: seq<LayerMeta> := if l.selected then [l] else [];
    if ls == [] {
      assert ls + [l] == [l];
      assert [l][1..] == [];
    } else {
      var head: seq<LayerMeta> := if ls[0].selected then [ls[0]] else [];
      assert (ls + [l])[0] == ls[0];
      assert (ls + [l])[1..] == ls[1..] + [l];
      SelectedOnlySnoc(ls[1..], l);
      assert SelectedOnly(ls + [l]) == head + (SelectedOnly(ls[1..]) + tail);
      assert head + (SelectedOnly(ls[1..]) + tail) == (head + SelectedOnly(ls[1..])) + tail;
    }
  }

  lemma IdsSnoc(ls: seq<LayerMeta>, l: LayerMeta)
    ensures Ids(ls + [l]) == Ids(ls) + [l.id]
  {
  }

  /** The preview's keys are the selected layers' ids, first occurrence first. */
  lemma {:induction false} PreviewOfKeys(preds: Predicates, aoi: Feature, query: string -> seq<Feature>, ls: seq<LayerMeta>)
    ensures PreviewOf(preds, aoi, query, ls).keys == FirstOccurrences(Ids(SelectedOnly(ls)))
  {
    if ls != [] {
      var init := ls[..|ls| - 1];
      var l := ls[|ls| - 1];
      var before := PreviewOf(preds, aoi, query, init);
      PreviewOfKeys(preds, aoi, query, init);
      assert ls == init + [l];
      SelectedOnlySnoc(init, l);
      var ids := Ids(SelectedOnly(init));
      if l.selected {
        IdsSnoc(SelectedOnly(init), l);
        FirstOccurrencesSnoc(ids, l.id);
        assert l.id in before.entries <==> l.id in before.keys;
      } else {
        assert SelectedOnly(ls) == SelectedOnly(init);
      }
    }
  }

  /** With distinct ids, every selected layer's entry is its own preview, and nothing else has an entry. */
  lemma {:induction false} PreviewOfEntries(preds: Predicates, aoi: Feature, query: string -> seq<Feature>, ls: seq<LayerMeta>)
    requires Distinct(Ids(ls))
    ensures forall i :: 0 <= i < |ls| && ls[i].selected ==>
              ls[i].id in PreviewOf(preds, aoi, query, ls).entries
              && PreviewOf(preds, aoi, query, ls).entries[ls[i].id] == LayerPreview(preds, aoi, query, ls[i])
    ensures forall k :: k in PreviewOf(preds, aoi, query, ls).entries ==>
              exists i :: 0 <= i < |ls| && ls[i].selected && ls[i].id == k
  {
    if ls != [] {
      var init := ls[..|ls| - 1];
      var l := ls[|ls| - 1];
      assert Distinct(Ids(init)) by {
        forall i, j | 0 <= i < j < |Ids(init)|
          ensures Ids(init)[i] != Ids(init)[j]
        {
          assert Ids(init)[i] == Ids(ls)[i] && Ids(init)[j] == Ids(ls)[j];
        }
      }
      PreviewOfEntries(preds, aoi, query, init);
      var r := PreviewOf(preds, aoi, query, ls);
      forall i | 0 <= i < |ls| && ls[i].selected
        ensures ls[i].id in r.entries && r.entries[ls[i].id] == LayerPreview(preds, aoi, query, ls[i])
      {
        if i < |ls| - 1 {
          assert Ids(ls)[i] != Ids(ls)[|ls| - 1];
          assert init[i] == ls[i];
        }
      }
      forall k | k in r.entries
        ensures exists i :: 0 <= i < |ls| && ls[i].selected && ls[i].id == k
      {
        if !(l.selected && k == l.id) {
          var i :| 0 <= i < |init| && init[i].selected && init[i].id == k;
          assert ls[i] == init[i];
        }
      }
    }
  }

  /** With a map and an AOI, the preview's keys are the selected ids in the table's order, zero hits included. */
  lemma PreviewKeys(aoi: AOI, layers: Table, query: string -> seq<Feature>, preds: Predicates)
    requires Keyed(layers)
    ensures Preview(true, Some(aoi), layers, query, preds).keys == SelectedIds(layers)
  {
    SelectedIdsFacts(layers);
    PreviewOfKeys(preds, aoi, query, Values(layers));
    FirstOccurrencesOfDistinct(SelectedIds(layers));
  }

  /** With a map and an AOI, exactly the selected layers have an entry; unselected ones never appear. */
  lemma PreviewMembers(aoi: AOI, layers: Table, query: string -> seq<Feature>, preds: Predicates)
    requires Keyed(layers)
    ensures forall k :: k in Preview(true, Some(aoi), layers, query, preds).entries <==>
              k in layers.entries && layers.entries[k].selected
  {
    var vs := Values(layers);
    var p := PreviewOf(preds, aoi, query, vs);
    IdsOfValues(layers);
    PreviewOfEntries(preds, aoi, query, vs);
    forall k
      ensures k in p.entries <==> k in layers.entries && layers.entries[k].selected
    {
      if k in p.entries {
        var i :| 0 <= i < |vs| && vs[i].selected && vs[i].id == k;
        assert vs[i] == layers.entries[layers.keys[i]];
      }
      if k in layers.entries && layers.entries[k].selected {
        var i :| 0 <= i < |layers.keys| && layers.keys[i] == k;
        assert vs[i].id == k;
      }
    }
  }

  /** With a map and an AOI, each entry holds its layer's matches under the layer's own mode. */
  lemma PreviewEntries(aoi: AOI, layers: Table, query: string -> seq<Feature>, preds: Predicates)
    requires Keyed(layers)
    ensures forall k :: k in Preview(true, Some(aoi), layers, query, preds).entries ==>
              k in layers.entries && Preview(true, Some(aoi), layers, query, preds).entries[k]
              == FeatureCollection(Matches(preds, aoi, layers.entries[k].mode, query(k)))
  {
    var vs := Values(layers);
    var p := PreviewOf(preds, aoi, query, vs);
    IdsOfValues(layers);
    PreviewOfEntries(preds, aoi, query, vs);
    forall k | k in p.entries
      ensures k in layers.entries && p.entries[k] == FeatureCollection(Matches(preds, aoi, layers.entries[k].mode, query(k)))
    {
      var i :| 0 <= i < |vs| && vs[i].selected && vs[i].id == k;
      assert layers.keys[i] == k;
      assert vs[i] == layers.entries[layers.keys[i]];
    }
  }

  /** For a selected layer, uploading it in its mode sends exactly the preview's features, tagged. */
  lemma PreviewAgreesWithUpload(aoi: AOI, layers: Table, query: string -> seq<Feature>, preds: Predicates, k: string)
    requires Keyed(layers) && k in layers.entries && layers.entries[k].selected
    ensures k in Preview(true, Some(aoi), layers, query, preds).entries
    ensures PickHits(preds, aoi, query, LayerPick(k, Some(layers.entries[k].mode))).features
         == TagAll(Preview(true, Some(aoi), layers, query, preds).entries[k].features, k, layers.entries[k].mode)
  {
    PreviewMembers(aoi, layers, query, preds);
    PreviewEntries(aoi, layers, query, preds);
    HitsAreTaggedMatches(preds, aoi, k, layers.entries[k].mode, query(k));
  }

  /** The panel's `preview` state. */
  class Panel {
    var preview: Record<FeatureCollection>

    constructor()
      ensures preview == Empty()
    {
      preview := Empty();
    }

    /** The preview effect: loop over `Object.values(layers)`, then replace `preview` with `next`. */
    method RefreshPreview(mapReady: bool, aoi: Option<AOI>, layers: Table, query: string -> seq<Feature>, preds: Predicates)
      requires WellFormed(layers)
      modifies this
      ensures preview == Preview(mapReady, aoi, layers, query, preds)
      ensures !mapReady || aoi.None? ==> preview == Empty()
    {
      if !mapReady || aoi.None? {
        preview := Empty();
        return;
      }
      var a := aoi.value;
      var vs := Values(layers);
      var next: Record<FeatureCollection> := Empty();
      for i := 0 to |vs|
        invariant WellFormed(next)
        invariant next == PreviewOf(preds, a, query, vs[..i])
      {
        var l := vs[i];
        assert vs[..i + 1][..i] == vs[..i];
        if !l.selected {
          continue;
        }
        var candidates := query(l.id);
        var hits: seq<Feature> := [];
        for j := 0 to |candidates|
          invariant hits == Matches(preds, a, l.mode, candidates[..j])
        {
          var f := candidates[j];
          var outcome := if l.mode == Contains then preds.booleanContains(a, f) else preds.booleanIntersects(f, a);
          MatchesAppend(preds, a, l.mode, candidates[..j], [f]);
          assert candidates[..j + 1] == candidates[..j] + [f];
          if outcome == Returned(true) {
            hits := hits + [f];
          }
        }
        assert candidates[..|candidates|] == candidates;
        next := Put(next, l.id, FeatureCollection(hits));
      }
      assert vs[..|vs|] == vs;
      preview := next;
    }
  }
}
