/**
 * The draw control's handlers: a `draw.create` or `draw.update` event makes
 * the first drawn feature the AOI when it is a polygon, and `draw.delete`
 * clears the AOI. The draw tool itself is left out; its events are values.
 */
module DrawControl {
  import opened Wrappers
  import opened GeoJson
  import opened AoiStore

  /** The events the control listens to; `features` is absent when the event carries none. */
  datatype DrawEvent =
    | Create(features: Option<seq<Feature>>)
    | Update(features: Option<seq<Feature>>)
    | Delete

  /** `e.features?.[0]`. */
  function FirstFeature(features: Option<seq<Feature>>): (f: Option<Feature>)
    ensures f.Some? <==> features.Some? && |features.value| > 0
    ensures f.Some? ==> f.value == features.value[0]
  {
    if features.Some? && |features.value| > 0 then Some(features.value[0]) else None
  }

  /** The AOI built from a drawn feature: only a polygon gives one; it keeps the geometry and the properties (or `{}`) and no id. */
  function AoiOf(f: Feature): (a: Option<AOI>)
    ensures a.Some? <==> IsPolygonFeature(f)
    ensures a.Some? ==> a.value.geometry == f.geometry && a.value.id.None?
    ensures a.Some? && f.properties.Some? ==> a.value.properties == f.properties
    ensures a.Some? && f.properties.None? ==> a.value.properties == Some(map[])
  {
    if IsPolygonFeature(f) then Some(Feature(f.geometry, Some(f.properties.GetOr(map[])), None)) else None
  }

  /** The AOI cell after handling one event. */
  function Next(cur: Option<AOI>, ev: DrawEvent): Option<AOI>
  {
    match ev
    case Delete => None
    case _ =>
      match FirstFeature(ev.features)
      case None => cur
      case Some(f) => if AoiOf(f).Some? then AoiOf(f) else cur
  }

  /** `onCreateOrUpdate`: nothing without a first feature or when it is not a polygon; otherwise `setAOI`. */
  method OnCreateOrUpdate(store: Store, features: Option<seq<Feature>>)
    modifies store
    ensures store.aoi == Next(old(store.aoi), Create(features))
    ensures store.aoi == Next(old(store.aoi), Update(features))
  {
    var f := FirstFeature(features);
    if f.None? {
      return;
    }
    if f.value.geometry.Some? && f.value.geometry.value.Polygon? {
      var aoi: AOI := Feature(f.value.geometry, Some(f.value.properties.GetOr(map[])), None);
      store.SetAOI(Some(aoi));
    }
  }

  /** `onDelete`: the AOI becomes null whatever it was. */
  method OnDelete(store: Store)
    modifies store
    ensures store.aoi == None
    ensures store.aoi == Next(old(store.aoi), Delete)
  {
    store.SetAOI(None);
  }

  /** The registrations: create and update go to `onCreateOrUpdate`, delete to `onDelete`. */
  method Dispatch(store: Store, ev: DrawEvent)
    modifies store
    ensures store.aoi == Next(old(store.aoi), ev)
  {
    match ev
    case Delete => OnDelete(store);
    case Create(fs) => OnCreateOrUpdate(store, fs);
    case Update(fs) => OnCreateOrUpdate(store, fs);
  }

  /** The AOI cell after the events, in order, from `init`. */
  function After(init: Option<AOI>, evs: seq<DrawEvent>): Option<AOI>
  {
    if evs == [] then init else Next(After(init, evs[..|evs| - 1]), evs[|evs| - 1])
  }

  /** An event that sets the cell: a delete, or a create/update whose first feature is a polygon. */
  predicate Sets(ev: DrawEvent)
  {
    ev.Delete? || (FirstFeature(ev.features).Some? && IsPolygonFeature(FirstFeature(ev.features).value))
  }

  /** `evs[i]` sets the cell and no later event does. */
  predicate LastSetter(evs: seq<DrawEvent>, i: int)
  {
    0 <= i < |evs| && Sets(evs[i]) && forall j :: i < j < |evs| ==> !Sets(evs[j])
  }

  /** An event that does not set the cell leaves it unchanged; one that does ignores the old value. */
  lemma NextCases(cur: Option<AOI>, other: Option<AOI>, ev: DrawEvent)
    ensures !Sets(ev) ==> Next(cur, ev) == cur
    ensures Sets(ev) ==> Next(cur, ev) == Next(other, ev)
    ensures ev.Delete? ==> Next(cur, ev) == None
    ensures !ev.Delete? && Sets(ev) ==> Next(cur, ev) == AoiOf(FirstFeature(ev.features).value)
  {
  }

  /**
   * After any events, the cell is what the last setting event put there
   * (null for a delete, the first feature's polygon otherwise), or the
   * initial value when no event set it.
   */
  lemma {:induction false} LastSetterWins(init: Option<AOI>, evs: seq<DrawEvent>)
    ensures (forall i :: 0 <= i < |evs| ==> !Sets(evs[i])) ==> After(init, evs) == init
    ensures forall i :: LastSetter(evs, i) ==> After(init, evs) == Next(init, evs[i])
  {
    if evs != [] {
      var prefix := evs[..|evs| - 1];
      var last := evs[|evs| - 1];
      LastSetterWins(init, prefix);
      NextCases(After(init, prefix), init, last);
      forall i | LastSetter(evs, i)
        ensures After(init, evs) == Next(init, evs[i])
      {
        if i < |evs| - 1 {
          assert LastSetter(prefix, i);
        }
      }
    }
  }

  /** The `setAOI` calls the handlers make for the events, in order: `null` for a delete, the polygon for a create or update that draws one. */
  function Calls(evs: seq<DrawEvent>): seq<Option<AOI>>
  {
    if evs == [] then []
    else
      var last := evs[|evs| - 1];
      Calls(evs[..|evs| - 1])
      + if last.Delete? then [None]
        else if Sets(last) then [AoiOf(FirstFeature(last.features).value)]
        else []
  }

  /** Handling the events leaves the cell the store's own fold gives for the `setAOI` calls they make. */
  lemma {:induction false} HandlersAreSetCalls(init: Option<AOI>, evs: seq<DrawEvent>)
    ensures After(init, evs) == AfterCalls(init, Calls(evs))
  {
    if evs != [] {
      var prefix := evs[..|evs| - 1];
      var last := evs[|evs| - 1];
      HandlersAreSetCalls(init, prefix);
      NextCases(After(init, prefix), init, last);
      if last.Delete? {
        AfterCallsSnoc(init, Calls(prefix), None);
      } else if Sets(last) {
        AfterCallsSnoc(init, Calls(prefix), AoiOf(FirstFeature(last.features).value));
      } else {
        assert Calls(evs) == Calls(prefix) + [];
        assert Calls(prefix) + [] == Calls(prefix);
      }
    }
  }

  /** `draw.update` handled as `draw.create`. */
  function AsCreate(ev: DrawEvent): DrawEvent
  {
    if ev.Update? then Create(ev.features) else ev
  }

  /** Create and update are handled identically: turning every update into a create changes nothing. */
  lemma {:induction false} UpdatesAsCreates(init: Option<AOI>, evs: seq<DrawEvent>)
    ensures After(init, seq(|evs|, i requires 0 <= i < |evs| => AsCreate(evs[i]))) == After(init, evs)
  {
    var cs := seq(|evs|, i requires 0 <= i < |evs| => AsCreate(evs[i]));
    if evs != [] {
      var prefix := evs[..|evs| - 1];
      var cp := seq(|prefix|, i requires 0 <= i < |prefix| => AsCreate(prefix[i]));
      assert cs[..|cs| - 1] == cp;
      UpdatesAsCreates(init, prefix);
    }
  }

  /** Every AOI the cell holds that was not there initially was drawn: it has properties and no id. */
  lemma {:induction false} DrawnShape(init: Option<AOI>, evs: seq<DrawEvent>)
    requires After(init, evs) != init && After(init, evs).Some?
    ensures After(init, evs).value.properties.Some? && After(init, evs).value.id.None?
  {
    var prefix := evs[..|evs| - 1];
    var last := evs[|evs| - 1];
    if Next(After(init, prefix), last) == After(init, prefix) {
      DrawnShape(init, prefix);
    }
  }
}
