/**
 * The selection: the ordered list of selected product ids kept in a
 * module-level array, its persisted copy in the browser's storage slot, and
 * the two operations that change them (toggling from a product card,
 * removing from the sidebar).
 */
module Selection {
  import opened Wrappers
  import opened Seqs
  import opened Catalog
  import opened Requests

  /** The ids other than `x`, in their order: `ids.filter(id => id !== x)`. */
  function Without(ids: seq<int>, x: int): (r: seq<int>)
    ensures x !in r
    ensures forall y :: y != x ==> multiset(r)[y] == multiset(ids)[y]
    ensures IsSubsequence(r, ids)
  {
    var keep := (y: int) => y != x;
    FilterIsSubsequence(ids, keep);
    assert forall y :: multiset(Filter(ids, keep))[y] == if keep(y) then multiset(ids)[y] else 0 by {
      forall y { FilterCount(ids, keep, y); }
    }
    Filter(ids, keep)
  }

  /** The selection after clicking the card of product `x`. */
  function Toggled(ids: seq<int>, x: int): (r: seq<int>)
    ensures x in r <==> x !in ids
    ensures forall y :: y != x ==> multiset(r)[y] == multiset(ids)[y]
    ensures x !in ids ==> r == ids + [x]
    ensures x in ids ==> IsSubsequence(r, ids)
  {
    if x in ids then Without(ids, x) else ids + [x]
  }

  /** Removing an id that is not selected changes nothing. */
  lemma WithoutAbsent(ids: seq<int>, x: int)
    requires x !in ids
    ensures Without(ids, x) == ids
  {
    FilterKeepsAll(ids, (y: int) => y != x);
  }

  /** Removing twice is removing once. */
  lemma WithoutIdempotent(ids: seq<int>, x: int)
    ensures Without(Without(ids, x), x) == Without(ids, x)
  {
    WithoutAbsent(Without(ids, x), x);
  }

  /** On a selected id, removing from the sidebar and clicking the card give the same selection. */
  lemma RemoveAgreesWithToggleOff(ids: seq<int>, x: int)
    requires x in ids
    ensures Without(ids, x) == Toggled(ids, x)
  {
  }

  /** Removing keeps a duplicate-free selection duplicate-free. */
  lemma WithoutKeepsNoDuplicates(ids: seq<int>, x: int)
    requires NoDuplicates(ids)
    ensures NoDuplicates(Without(ids, x))
  {
    FilterNoDuplicates(ids, (y: int) => y != x);
  }

  /** Toggling keeps a duplicate-free selection duplicate-free. */
  lemma ToggleKeepsNoDuplicates(ids: seq<int>, x: int)
    requires NoDuplicates(ids)
    ensures NoDuplicates(Toggled(ids, x))
  {
    if x in ids {
      WithoutKeepsNoDuplicates(ids, x);
    } else {
      var r := ids + [x];
      forall i, j | 0 <= i < j < |r| ensures r[i] != r[j] {
        if j == |ids| { assert r[i] == ids[i]; }
      }
    }
  }

  /** Selecting then deselecting an id restores the selection exactly. */
  lemma ToggleTwiceFromAbsent(ids: seq<int>, x: int)
    requires x !in ids
    ensures Toggled(Toggled(ids, x), x) == ids
  {
    FilterConcat(ids, [x], (y: int) => y != x);
    WithoutAbsent(ids, x);
    assert Without([x], x) == [];
  }

  /** Deselecting then reselecting a selected id moves it to the end of the selection. */
  lemma ToggleTwiceMovesToEnd(ids: seq<int>, x: int)
    requires x in ids
    ensures Toggled(Toggled(ids, x), x) == Without(ids, x) + [x]
  {
  }

  /**
   * On a selection without duplicates, deselecting then reselecting an id
   * restores the same ids, each as often as before, with the id at the end.
   */
  lemma ToggleTwiceFromPresent(ids: seq<int>, x: int)
    requires NoDuplicates(ids) && x in ids
    ensures Toggled(Toggled(ids, x), x) == Without(ids, x) + [x]
    ensures multiset(Toggled(Toggled(ids, x), x)) == multiset(ids)
  {
    ToggleTwiceMovesToEnd(ids, x);
    var r := Toggled(Toggled(ids, x), x);
    NoDuplicatesCount(ids, x);
    forall y ensures multiset(r)[y] == multiset(ids)[y] {
      if y != x {
        assert multiset(r)[y] == multiset(Without(ids, x))[y];
      }
    }
  }

  /** `[1, 2]` toggled on 1 twice is `[2, 1]`: two toggles restore membership, not order. */
  lemma ToggleTwiceReorders()
    ensures Toggled(Toggled([1, 2], 1), 1) == [2, 1]
  {
  }

  /** One click flips the membership of the clicked id and of no other. */
  lemma ToggledMembership(ids: seq<int>, x: int, y: int)
    ensures y in Toggled(ids, x) <==> ((y in ids) != (y == x))
  {
  }

  /** The selection after clicking the cards of `clicks`, in that order. */
  function ToggleAll(ids: seq<int>, clicks: seq<int>): seq<int>
    decreases |clicks|
  {
    if clicks == [] then ids else ToggleAll(Toggled(ids, clicks[0]), clicks[1..])
  }

  /**
   * After any sequence of clicks, an id is selected exactly when it was
   * selected before and was clicked an even number of times, or was not
   * selected before and was clicked an odd number of times.
   */
  lemma {:induction false} ToggleParity(ids: seq<int>, clicks: seq<int>, y: int)
    ensures y in ToggleAll(ids, clicks) <==> ((y in ids) != Odd(multiset(clicks)[y]))
    decreases |clicks|
  {
    if clicks != [] {
      var c, rest := clicks[0], clicks[1..];
      ToggleParity(Toggled(ids, c), rest, y);
      ToggledMembership(ids, c, y);
      CountUncons(clicks, y);
      OddSucc(multiset(rest)[y]);
    }
  }

  predicate Odd(n: nat) {
    n % 2 == 1
  }

  lemma OddSucc(n: nat)
    ensures Odd(n + 1) == !Odd(n)
  {
  }

  lemma CountUncons(clicks: seq<int>, y: int)
    requires clicks != []
    ensures multiset(clicks)[y] == (if clicks[0] == y then 1 else 0) + multiset(clicks[1..])[y]
  {
    assert clicks == [clicks[0]] + clicks[1..];
  }

  /** Clicks keep a duplicate-free selection duplicate-free. */
  lemma {:induction false} ToggleAllKeepsNoDuplicates(ids: seq<int>, clicks: seq<int>)
    requires NoDuplicates(ids)
    ensures NoDuplicates(ToggleAll(ids, clicks))
    decreases |clicks|
  {
    if clicks != [] {
      ToggleKeepsNoDuplicates(ids, clicks[0]);
      ToggleAllKeepsNoDuplicates(Toggled(ids, clicks[0]), clicks[1..]);
    }
  }

  /** `n` clicks on the same card. */
  function Repeat(x: int, n: nat): (r: seq<int>)
    ensures |r| == n
    ensures forall i :: 0 <= i < n ==> r[i] == x
  {
    seq(n, _ => x)
  }

  lemma {:induction false} RepeatCount(x: int, n: nat)
    ensures multiset(Repeat(x, n))[x] == n
  {
    if n > 0 {
      RepeatCount(x, n - 1);
      assert Repeat(x, n) == Repeat(x, n - 1) + [x];
    }
  }

  /** Starting from an unselected product, `n` clicks on its card leave it selected exactly when `n` is odd. */
  lemma ToggleSameIdParity(ids: seq<int>, x: int, n: nat)
    requires x !in ids
    ensures x in ToggleAll(ids, Repeat(x, n)) <==> Odd(n)
  {
    ToggleParity(ids, Repeat(x, n), x);
    RepeatCount(x, n);
  }

  /**
   * The page's selection state: `selected` is the module-level id list, and
   * `stored` the ids held in the storage slot (`None` when the slot is empty).
   */
  class SelectionState {
    var selected: seq<int>
    var stored: Option<seq<int>>

    /** Start-up: the stored ids, or no ids when the slot holds nothing. */
    constructor Load(slot: Option<seq<int>>)
      ensures selected == slot.GetOr([])
      ensures stored == slot
    {
      selected := slot.GetOr([]);
      stored := slot;
    }

    /** A click on the card of product `id`, followed by persisting the selection. */
    method Toggle(id: int)
      modifies this
      ensures selected == Toggled(old(selected), id)
      ensures id !in old(selected) ==> selected == old(selected) + [id]
      ensures id in old(selected) ==> id !in selected && IsSubsequence(selected, old(selected))
      ensures NoDuplicates(old(selected)) ==> NoDuplicates(selected)
      ensures stored == Some(selected)
    {
      if id in selected {
        selected := Without(selected, id);
      } else {
        selected := selected + [id];
      }
      if NoDuplicates(old(selected)) {
        ToggleKeepsNoDuplicates(old(selected), id);
      }
      stored := Some(selected);
    }

    /** A click on the remove button of product `id` in the sidebar, followed by persisting. */
    method Remove(id: int)
      modifies this
      ensures selected == Without(old(selected), id)
      ensures id !in old(selected) ==> selected == old(selected)
      ensures NoDuplicates(old(selected)) ==> NoDuplicates(selected)
      ensures stored == Some(selected)
    {
      selected := Without(selected, id);
      if id !in old(selected) {
        WithoutAbsent(old(selected), id);
      }
      if NoDuplicates(old(selected)) {
        WithoutKeepsNoDuplicates(old(selected), id);
      }
      stored := Some(selected);
    }

    /**
     * A click on the generate button: the request to send, or none when no
     * catalog product is selected (the page then only alerts).
     */
    method GenerateRoutine(catalog: seq<Product>) returns (request: Option<ProxyRequest>)
      ensures request.None? <==> forall p :: p in catalog ==> p.id !in selected
      ensures request == RoutineRequest(SelectedProducts(catalog, selected))
    {
      var chosen := SelectedProducts(catalog, selected);
      SelectedEmptyIff(catalog, selected);
      request := RoutineRequest(chosen);
    }
  }

  /**
   * Removing from the sidebar and deselecting on the card leave two page
   * states that started alike with the same selection and the same stored value.
   */
  method RemoveMatchesToggleOff(a: SelectionState, b: SelectionState, id: int)
    requires a != b && a.selected == b.selected && id in a.selected
    modifies a, b
    ensures a.selected == b.selected && a.stored == b.stored
  {
    a.Remove(id);
    b.Toggle(id);
  }
}
