/**
 * The AOI store (`useAOIStore`): one cell holding the drawn area of
 * interest or nothing. `setAOI` overwrites it, so at most one AOI exists.
 */
module AoiStore {
  import opened Wrappers
  import opened GeoJson

  class Store {
    var aoi: Option<AOI>

    /** The store starts empty. */
    constructor()
      ensures aoi == None
    {
      aoi := None;
    }

    /** `setAOI(f)`: the cell becomes exactly `f`; `None` clears it. */
    method SetAOI(f: Option<AOI>)
      modifies this
      ensures aoi == f
      ensures aoi == SetStep(old(aoi), f)
    {
      aoi := f;
    }
  }

  /** What one `setAOI(f)` does to the cell `cur`. */
  function SetStep(cur: Option<AOI>, f: Option<AOI>): Option<AOI>
  {
    f
  }

  /** The cell after the calls `setAOI(calls[0])`, ..., in order, from `init`. */
  function AfterCalls(init: Option<AOI>, calls: seq<Option<AOI>>): Option<AOI>
  {
    if calls == [] then init else SetStep(AfterCalls(init, calls[..|calls| - 1]), calls[|calls| - 1])
  }

  /** One more call is one more step. */
  lemma AfterCallsSnoc(init: Option<AOI>, calls: seq<Option<AOI>>, f: Option<AOI>)
    ensures AfterCalls(init, calls + [f]) == SetStep(AfterCalls(init, calls), f)
  {
    assert (calls + [f])[..|calls|] == calls;
  }

  /** Whatever came before, the last call decides the cell. */
  lemma {:induction false} LastCallWins(init: Option<AOI>, calls: seq<Option<AOI>>)
    ensures AfterCalls(init, calls) == if calls == [] then init else calls[|calls| - 1]
  {
  }

  /** Repeating a call changes nothing. */
  lemma RepeatedCall(init: Option<AOI>, calls: seq<Option<AOI>>, f: Option<AOI>)
    ensures AfterCalls(init, calls + [f, f]) == AfterCalls(init, calls + [f])
  {
    LastCallWins(init, calls + [f, f]);
    LastCallWins(init, calls + [f]);
  }

  /** The calls so far can be replaced by the last one alone. */
  lemma OnlyLastCallMatters(init: Option<AOI>, other: Option<AOI>, calls: seq<Option<AOI>>)
    requires calls != []
    ensures AfterCalls(init, calls) == AfterCalls(other, [calls[|calls| - 1]])
  {
    LastCallWins(init, calls);
    LastCallWins(other, [calls[|calls| - 1]]);
  }
}
