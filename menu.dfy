/** The menu screen (snek/Menu.hpp): a list of labelled items and a selection cursor that the
    per-frame input moves. An item's onSelect callback is modelled as the selection event that
    update reports, naming the item whose callback runs. */
module MenuModel {
  import opened Entities

  /** A menu entry. The callback it carries is represented by its position in the list. */
  datatype MenuItem = MenuItem(text: string)

  /** What one update reports: nothing, or that the callback of item `index` was invoked once. */
  datatype Selection = NothingSelected | Selected(index: nat)

  /** The selected index after `action` on a menu of `count` items: Forward moves up unless
      already at the top, Backward moves down unless already at the last item, every other
      action keeps it. */
  function Navigate(index: nat, count: nat, action: InputAction): (r: nat)
    ensures r == index || (action == Forward && r + 1 == index) || (action == Backward && r == index + 1 < count)
    ensures index < count ==> r < count
  {
    match action
    case Forward => if index > 0 then index - 1 else index
    case Backward => if index + 1 < count then index + 1 else index
    case _ => index
  }

  /** The index after the actions of `actions`, applied in order. */
  function NavigateAll(index: nat, count: nat, actions: seq<InputAction>): (r: nat)
    ensures index < count ==> r < count
    ensures index == 0 || index < count ==> r == 0 || r < count
    decreases |actions|
  {
    if actions == [] then index else NavigateAll(Navigate(index, count, actions[0]), count, actions[1..])
  }

  /** `n` copies of one action. */
  function Repeat(action: InputAction, n: nat): (actions: seq<InputAction>)
    ensures |actions| == n && forall k :: 0 <= k < n ==> actions[k] == action
  {
    if n == 0 then [] else [action] + Repeat(action, n - 1)
  }

  /** Forward undoes a Backward that moved, and Backward undoes a Forward that moved. */
  lemma StepsAreInverse(index: nat, count: nat)
    ensures index + 1 < count ==> Navigate(Navigate(index, count, Backward), count, Forward) == index
    ensures 0 < index < count ==> Navigate(Navigate(index, count, Forward), count, Backward) == index
  {
  }

  /** Pressing Backward `n` times from the top selects item n, stopping at the last item. */
  lemma {:induction false} BackwardWalksDown(index: nat, count: nat, n: nat)
    requires index < count
    ensures NavigateAll(index, count, Repeat(Backward, n)) == if index + n < count then index + n else count - 1
    decreases n
  {
    if n > 0 {
      var next := Navigate(index, count, Backward);
      assert Repeat(Backward, n)[1..] == Repeat(Backward, n - 1);
      BackwardWalksDown(next, count, n - 1);
    }
  }

  /** Pressing Forward `n` times moves up `n` items, stopping at the first. */
  lemma {:induction false} ForwardWalksUp(index: nat, count: nat, n: nat)
    ensures NavigateAll(index, count, Repeat(Forward, n)) == if n <= index then index - n else 0
    decreases n
  {
    if n > 0 {
      var next := Navigate(index, count, Forward);
      assert Repeat(Forward, n)[1..] == Repeat(Forward, n - 1);
      ForwardWalksUp(next, count, n - 1);
    }
  }

  /** The event update reports for `action` when the cursor is at `index`: TurnRight selects the
      item under the cursor when there is one. */
  function SelectionFor(index: nat, count: nat, action: InputAction): (sel: Selection)
    ensures sel.Selected? <==> action == TurnRight && index < count
    ensures sel.Selected? ==> sel.index == index
  {
    if action == TurnRight && index < count then Selected(index) else NothingSelected
  }

  class Menu {
    var items: seq<MenuItem>
    var selectedIndex: nat

    /** The cursor is on an item, or at 0 while the menu is still empty. */
    ghost predicate Valid()
      reads this
    {
      selectedIndex == 0 || selectedIndex < |items|
    }

    /** An empty menu with the cursor at the first position. */
    constructor ()
      ensures Valid() && items == [] && selectedIndex == 0
    {
      items := [];
      selectedIndex := 0;
    }

    /** update(action): moves the cursor or selects the item under it. The items never change. */
    method Update(action: InputAction) returns (sel: Selection)
      modifies this
      ensures items == old(items)
      ensures selectedIndex == Navigate(old(selectedIndex), |items|, action)
      ensures sel == SelectionFor(old(selectedIndex), |items|, action)
      ensures old(Valid()) ==> Valid() && (|items| > 0 ==> selectedIndex < |items|)
    {
      sel := NothingSelected;
      match action {
        case Forward =>
          if selectedIndex > 0 {
            selectedIndex := selectedIndex - 1;
          }
        case Backward =>
          if selectedIndex + 1 < |items| {
            selectedIndex := selectedIndex + 1;
          }
        case TurnRight =>
          if selectedIndex < |items| {
            sel := Selected(selectedIndex);
          }
        case _ =>
      }
    }

    /** addItem(text): appends one item; the cursor stays where it is. */
    method AddItem(text: string)
      modifies this
      ensures items == old(items) + [MenuItem(text)]
      ensures selectedIndex == old(selectedIndex)
      ensures old(Valid()) ==> Valid() && selectedIndex < |items|
    {
      items := items + [MenuItem(text)];
    }
  }
}
