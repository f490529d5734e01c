/**
 * The layer registry (`useMapInfoStore`): a table from layer id to the
 * layer's display label, whether it takes part in a submitted selection, and
 * its spatial filter mode. Every action replaces the whole table; lookups,
 * the registration fold and the selected-id query are functions of the
 * table, and class `MapInfo` holds the table as its one field.
 */
module MapInfoStore {
  import opened Wrappers
  import opened JsObject
  import opened Sequences

  datatype LayerMode = Intersects | Contains

  datatype LayerMeta = LayerMeta(id: string, title: string, selected: bool, mode: LayerMode)

  /** An argument of `registerLayers`; absent fields are `undefined`. `title` is the source's `label`. */
  datatype LayerDef = LayerDef(id: string, title: Option<string>, defaultSelected: Option<bool>, defaultMode: Option<LayerMode>)

  type Table = Record<LayerMeta>

  /** The invariant every action keeps: a well-formed table whose entries carry their own key. */
  ghost predicate Keyed(t: Table)
  {
    WellFormed(t) && forall k :: k in t.entries ==> t.entries[k].id == k
  }

  /** The entry registration creates for an id not yet present: the `??` defaults. */
  function NewMeta(d: LayerDef): (m: LayerMeta)
    ensures m.id == d.id
    ensures d.title.None? ==> m.title == d.id
    ensures d.title.Some? ==> m.title == d.title.value
    ensures m.selected <==> d.defaultSelected != Some(false)
    ensures m.mode == Contains <==> d.defaultMode == Some(Contains)
  {
    LayerMeta(d.id, d.title.GetOr(d.id), d.defaultSelected.GetOr(true), d.defaultMode.GetOr(Intersects))
  }

  /** One turn of the loop: `next[d.id] = next[d.id] ?? {...}`. */
  function RegisterOne(t: Table, d: LayerDef): (r: Table)
    requires WellFormed(t)
    ensures WellFormed(r)
  {
    Put(t, d.id, if d.id in t.entries then t.entries[d.id] else NewMeta(d))
  }

  /** The table after `registerLayers(defs)`, one definition at a time from the left. */
  function Register(t: Table, defs: seq<LayerDef>): (r: Table)
    requires WellFormed(t)
    ensures WellFormed(r)
  {
    if defs == [] then t else RegisterOne(Register(t, defs[..|defs| - 1]), defs[|defs| - 1])
  }

  function DefIds(defs: seq<LayerDef>): (ids: seq<string>)
    ensures |ids| == |defs| && forall i :: 0 <= i < |defs| ==> ids[i] == defs[i].id
  {
    seq(|defs|, i requires 0 <= i < |defs| => defs[i].id)
  }

  /** `defs[i]` is the first definition with its id. */
  predicate FirstDef(defs: seq<LayerDef>, i: int)
  {
    0 <= i < |defs| && forall j :: 0 <= j < i ==> defs[j].id != defs[i].id
  }

  /** A present id keeps its entry, including its label, flag and mode; so does a repeated id. */
  lemma RegisterOneExisting(t: Table, d: LayerDef)
    requires WellFormed(t) && d.id in t.entries
    ensures RegisterOne(t, d) == t
  {
    assert t.entries[d.id := t.entries[d.id]] == t.entries;
  }

  /** Registration keeps every old entry and adds the ids of the definitions, and nothing else. */
  lemma {:induction false} RegisterDomain(t: Table, defs: seq<LayerDef>)
    requires WellFormed(t)
    ensures forall k :: k in Register(t, defs).entries <==> k in t.entries || k in DefIds(defs)
    ensures forall k :: k in t.entries ==> Register(t, defs).entries[k] == t.entries[k]
  {
    if defs != [] {
      var init := defs[..|defs| - 1];
      RegisterDomain(t, init);
      assert DefIds(defs) == DefIds(init) + [defs[|defs| - 1].id];
    }
  }

  /** A new id holds the entry built from the first definition with that id. */
  lemma {:induction false} RegisterFirstDefs(t: Table, defs: seq<LayerDef>)
    requires WellFormed(t)
    ensures forall i :: FirstDef(defs, i) && defs[i].id !in t.entries ==>
              defs[i].id in Register(t, defs).entries && Register(t, defs).entries[defs[i].id] == NewMeta(defs[i])
  {
    if defs != [] {
      var init := defs[..|defs| - 1];
      var d := defs[|defs| - 1];
      var before := Register(t, init);
      RegisterFirstDefs(t, init);
      RegisterDomain(t, init);
      RegisterOneEntries(before, d);
      assert Register(t, defs) == RegisterOne(before, d);
      forall i | FirstDef(defs, i) && defs[i].id !in t.entries
        ensures defs[i].id in Register(t, defs).entries && Register(t, defs).entries[defs[i].id] == NewMeta(defs[i])
      {
        if i < |defs| - 1 {
          assert FirstDef(init, i);
        } else {
          assert d.id !in DefIds(init);
          assert d.id !in before.entries;
        }
      }
    }
  }

  lemma RegisterOneEntries(t: Table, d: LayerDef)
    requires WellFormed(t)
    ensures forall k :: k in t.entries ==> k in RegisterOne(t, d).entries && RegisterOne(t, d).entries[k] == t.entries[k]
    ensures d.id !in t.entries ==> d.id in RegisterOne(t, d).entries && RegisterOne(t, d).entries[d.id] == NewMeta(d)
  {
  }

  /** The keys in order: the old keys, then each new id at its first definition. */
  lemma {:induction false} RegisterKeys(t: Table, defs: seq<LayerDef>)
    requires WellFormed(t)
    ensures Register(t, defs).keys == FirstOccurrences(t.keys + DefIds(defs))
  {
    if defs == [] {
      assert t.keys + DefIds(defs) == t.keys;
      FirstOccurrencesOfDistinct(t.keys);
    } else {
      var init := defs[..|defs| - 1];
      var d := defs[|defs| - 1];
      RegisterKeys(t, init);
      var before := Register(t, init);
      assert t.keys + DefIds(defs) == (t.keys + DefIds(init)) + [d.id];
      FirstOccurrencesSnoc(t.keys + DefIds(init), d.id);
    }
  }

  /** Every table operation keeps each entry's `id` equal to its key. */
  lemma {:induction false} RegisterKeyed(t: Table, defs: seq<LayerDef>)
    requires Keyed(t)
    ensures Keyed(Register(t, defs))
  {
    if defs != [] {
      RegisterKeyed(t, defs[..|defs| - 1]);
    }
  }

  /** `toggleLayer(id, selected)`: `selected ?? !cur.selected`; an unknown id changes nothing. */
  function Toggle(t: Table, id: string, selected: Option<bool>): (r: Table)
    requires WellFormed(t)
    ensures WellFormed(r) && r.keys == t.keys
    ensures id !in t.entries ==> r == t
    ensures id in t.entries ==> r.entries == t.entries[id := t.entries[id].(selected := selected.GetOr(!t.entries[id].selected))]
  {
    if id !in t.entries then t
    else
      var cur := t.entries[id];
      Put(t, id, cur.(selected := selected.GetOr(!cur.selected)))
  }

  /** `setLayerMode(id, mode)`: only that layer's mode changes; an unknown id changes nothing. */
  function SetMode(t: Table, id: string, mode: LayerMode): (r: Table)
    requires WellFormed(t)
    ensures WellFormed(r) && r.keys == t.keys
    ensures id !in t.entries ==> r == t
    ensures id in t.entries ==> r.entries == t.entries[id := t.entries[id].(mode := mode)]
  {
    if id !in t.entries then t
    else
      var cur := t.entries[id];
      Put(t, id, cur.(mode := mode))
  }

  lemma ToggleKeyed(t: Table, id: string, selected: Option<bool>)
    requires Keyed(t)
    ensures Keyed(Toggle(t, id, selected))
  {
  }

  lemma SetModeKeyed(t: Table, id: string, mode: LayerMode)
    requires Keyed(t)
    ensures Keyed(SetMode(t, id, mode))
  {
  }

  /** Toggling without a flag twice gives the table back. */
  lemma ToggleTwice(t: Table, id: string)
    requires WellFormed(t)
    ensures Toggle(Toggle(t, id, None), id, None) == t
  {
    if id in t.entries {
      var cur := t.entries[id];
      assert cur.(selected := !!cur.selected) == cur;
      assert t.entries[id := cur] == t.entries;
    }
  }

  /** Toggling with a flag sets it: doing so again changes nothing, and the flag is the new value. */
  lemma ToggleSet(t: Table, id: string, b: bool)
    requires WellFormed(t)
    ensures Toggle(Toggle(t, id, Some(b)), id, Some(b)) == Toggle(t, id, Some(b))
    ensures id in t.entries ==> Toggle(t, id, Some(b)).entries[id].selected == b
  {
    if id in t.entries {
      var once := Toggle(t, id, Some(b));
      assert once.entries[id].(selected := b) == once.entries[id];
      assert once.entries[id := once.entries[id]] == once.entries;
    }
  }

  lemma SetModeIdempotent(t: Table, id: string, mode: LayerMode)
    requires WellFormed(t)
    ensures SetMode(SetMode(t, id, mode), id, mode) == SetMode(t, id, mode)
  {
    if id in t.entries {
      var once := SetMode(t, id, mode);
      assert once.entries[id].(mode := mode) == once.entries[id];
      assert once.entries[id := once.entries[id]] == once.entries;
    }
  }

  // ---- selectedLayerIds ----

  /** `filter(l => l.selected)`. */
  function SelectedOnly(ls: seq<LayerMeta>): seq<LayerMeta>
  {
    if ls == [] then [] else (if ls[0].selected then [ls[0]] else []) + SelectedOnly(ls[1..])
  }

  /** `map(l => l.id)`. */
  function Ids(ls: seq<LayerMeta>): (ids: seq<string>)
    ensures |ids| == |ls| && forall i :: 0 <= i < |ls| ==> ids[i] == ls[i].id
  {
    seq(|ls|, i requires 0 <= i < |ls| => ls[i].id)
  }

  function SelectedIds(t: Table): seq<string>
    requires WellFormed(t)
  {
    Ids(SelectedOnly(Values(t)))
  }

  /** The selected layers' ids appear in the same order as in the whole list. */
  lemma {:induction false} SelectedOnlyOrder(ls: seq<LayerMeta>)
    ensures IsSubsequence(Ids(SelectedOnly(ls)), Ids(ls))
  {
    if ls != [] {
      SelectedOnlyOrder(ls[1..]);
      var rest := SelectedOnly(ls[1..]);
      assert Ids(ls) == [ls[0].id] + Ids(ls[1..]);
      if ls[0].selected {
        assert Ids(SelectedOnly(ls)) == [ls[0].id] + Ids(rest);
        SubsequenceCons(Ids(rest), Ids(ls[1..]), ls[0].id);
      } else {
        assert SelectedOnly(ls) == rest;
        SubsequenceSkip(Ids(rest), Ids(ls[1..]), ls[0].id);
      }
    }
  }

  /** A layer survives the filter exactly when it is in the list and selected. */
  lemma {:induction false} SelectedOnlyMembers(ls: seq<LayerMeta>)
    ensures forall l :: l in SelectedOnly(ls) <==> l in ls && l.selected
  {
    if ls != [] {
      SelectedOnlyMembers(ls[1..]);
      var rest := SelectedOnly(ls[1..]);
      if ls[0].selected {
        assert SelectedOnly(ls) == [ls[0]] + rest;
      } else {
        assert SelectedOnly(ls) == rest;
      }
      assert forall l :: l in ls <==> l == ls[0] || l in ls[1..];
    }
  }

  lemma IdsOfValues(t: Table)
    requires Keyed(t)
    ensures Ids(Values(t)) == t.keys
  {
  }

  /** Exactly the selected ids, in key-insertion order, each once. */
  lemma SelectedIdsFacts(t: Table)
    requires Keyed(t)
    ensures forall k :: k in SelectedIds(t) <==> k in t.entries && t.entries[k].selected
    ensures IsSubsequence(SelectedIds(t), t.keys)
    ensures Distinct(SelectedIds(t))
  {
    var vs := Values(t);
    SelectedOnlyOrder(vs);
    SelectedOnlyMembers(vs);
    IdsOfValues(t);
    SubsequenceDistinct(SelectedIds(t), t.keys);
    forall k
      ensures k in SelectedIds(t) <==> k in t.entries && t.entries[k].selected
    {
      if k in SelectedIds(t) {
        var i :| 0 <= i < |SelectedIds(t)| && SelectedIds(t)[i] == k;
        var l := SelectedOnly(vs)[i];
        assert l in vs;
      }
      if k in t.entries && t.entries[k].selected {
        var i :| 0 <= i < |t.keys| && t.keys[i] == k;
        assert vs[i] in SelectedOnly(vs);
        var j :| 0 <= j < |SelectedOnly(vs)| && SelectedOnly(vs)[j] == vs[i];
        assert SelectedIds(t)[j] == k;
      }
    }
  }

  /** The store: its `layers` table, replaced by every action. */
  class MapInfo {
    var layers: Table

    ghost predicate Valid()
      reads this
    {
      Keyed(layers)
    }

    /** The store starts with no layers. */
    constructor()
      ensures Valid() && layers == Empty()
    {
      layers := Empty();
    }

    /** Copies the table and registers the definitions into the copy, then stores it. */
    method RegisterLayers(defs: seq<LayerDef>)
      requires Valid()
      modifies this
      ensures Valid()
      ensures layers == Register(old(layers), defs)
    {
      var next := layers;
      var i := 0;
      while i < |defs|
        invariant 0 <= i <= |defs|
        invariant WellFormed(next)
        invariant next == Register(layers, defs[..i])
      {
        var d := defs[i];
        assert defs[..i + 1][..i] == defs[..i];
        next := Put(next, d.id, if d.id in next.entries then next.entries[d.id] else NewMeta(d));
        i := i + 1;
      }
      assert defs[..i] == defs;
      RegisterKeyed(layers, defs);
      layers := next;
    }

    method ToggleLayer(id: string, selected: Option<bool>)
      requires Valid()
      modifies this
      ensures Valid()
      ensures layers == Toggle(old(layers), id, selected)
    {
      if id !in layers.entries {
        return;
      }
      var cur := layers.entries[id];
      layers := Put(layers, id, cur.(selected := selected.GetOr(!cur.selected)));
    }

    method SetLayerMode(id: string, mode: LayerMode)
      requires Valid()
      modifies this
      ensures Valid()
      ensures layers == SetMode(old(layers), id, mode)
    {
      if id !in layers.entries {
        return;
      }
      var cur := layers.entries[id];
      layers := Put(layers, id, cur.(mode := mode));
    }

    /** The ids of the selected layers, in insertion order, without repeats. */
    function SelectedLayerIds(): (ids: seq<string>)
      requires Valid()
      reads this
      ensures forall k :: k in ids <==> k in layers.entries && layers.entries[k].selected
      ensures IsSubsequence(ids, layers.keys)
      ensures Distinct(ids)
    {
      SelectedIdsFacts(layers);
      SelectedIds(layers)
    }
  }
}
