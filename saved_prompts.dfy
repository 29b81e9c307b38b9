/** The viewer's saved-id set (`useSavedPrompts`). */
module SavedPrompts {

  /** `new Set(ids)`: each listed id once, duplicates collapsed. */
  function SetOf(ids: seq<int>): (r: set<int>)
    ensures forall x :: x in r <==> x in ids
    ensures |r| <= |ids|
  {
    if ids == [] then {} else {ids[0]} + SetOf(ids[1..])
  }

  /** The set with the membership of `id` flipped. */
  function Toggled(s: set<int>, id: int): (r: set<int>)
    ensures id in r <==> id !in s
    ensures forall x :: x != id ==> (x in r <==> x in s)
  {
    if id in s then s - {id} else s + {id}
  }

  /** Toggling an absent id adds exactly that id. */
  lemma ToggleAbsent(s: set<int>, id: int)
    requires id !in s
    ensures Toggled(s, id) == s + {id} && |Toggled(s, id)| == |s| + 1
  {
  }

  /** Toggling a present id removes exactly that id. */
  lemma TogglePresent(s: set<int>, id: int)
    requires id in s
    ensures Toggled(s, id) == s - {id} && |Toggled(s, id)| == |s| - 1
  {
  }

  /** Toggling the same id twice gives back the original set. */
  lemma ToggleTwice(s: set<int>, id: int)
    ensures Toggled(Toggled(s, id), id) == s
  {
  }

  /** Toggles of different ids do not interfere, so their order does not matter. */
  lemma ToggleCommutes(s: set<int>, a: int, b: int)
    ensures Toggled(Toggled(s, a), b) == Toggled(Toggled(s, b), a)
  {
  }

  /** The state object behind the hook; `ids` is replaced on every toggle. */
  class SavedSet {
    var ids: set<int>

    /** `useSavedPrompts(initialSavedIds)`; the argument defaults to `[]`, i.e. the empty set. */
    constructor (initialSavedIds: seq<int>)
      ensures ids == SetOf(initialSavedIds)
      ensures forall x :: x in ids <==> x in initialSavedIds
    {
      ids := SetOf(initialSavedIds);
    }

    predicate Has(id: int)
      reads this
    {
      id in ids
    }

    /**
     * `toggleSave`: copies the current set, flips `promptId` in the copy and
     * installs the copy. Any integer is accepted.
     */
    method Toggle(promptId: int)
      modifies this
      ensures ids == Toggled(old(ids), promptId)
      ensures promptId in ids <==> promptId !in old(ids)
      ensures forall x :: x != promptId ==> (x in ids <==> x in old(ids))
    {
      var newSet := ids;
      if promptId in newSet {
        newSet := newSet - {promptId};
      } else {
        newSet := newSet + {promptId};
      }
      ids := newSet;
    }
  }
}
