/** The item list of the flow layout: a small indexed container with bounds-checked access. */
module Layout {
  import opened Wrappers
  import opened Lists

  class FlowLayout<T> {
    /** The layout items, in insertion order. */
    var items: seq<T>

    constructor ()
      ensures items == []
    {
      items := [];
    }

    method AddItem(item: T)
      modifies this
      ensures items == old(items) + [item]
      ensures Count() == old(Count()) + 1
    {
      items := items + [item];
    }

    /** The number of items held. */
    function Count(): nat
      reads this
    {
      |items|
    }

    /** The item at `index`, or `None` outside `0 <= index < Count()`; never changes anything. */
    function ItemAt(index: int): (r: Option<T>)
      reads this
      ensures r.Some? <==> 0 <= index < Count()
      ensures r.Some? ==> r.value == items[index]
    {
      Lookup(items, index)
    }

    /**
     * Removes and returns the item `ItemAt(index)` would have returned; out of
     * range it returns `None` and changes nothing.
     */
    method TakeAt(index: int) returns (r: Option<T>)
      modifies this
      ensures r == old(ItemAt(index))
      ensures r.Some? ==> items == old(items[..index] + items[index + 1..]) && Count() == old(Count()) - 1
      ensures r.None? ==> items == old(items)
    {
      if 0 <= index < |items| {
        r := Some(items[index]);
        items := items[..index] + items[index + 1..];
      } else {
        r := None;
      }
    }

    /** The destructor: takes the first item until there is none. */
    method Dispose()
      modifies this
      ensures items == []
    {
      var item := TakeAt(0);
      while item.Some?
        invariant item.None? ==> items == []
        decreases |items| + (if item.Some? then 1 else 0)
      {
        item := TakeAt(0);
      }
    }
  }
}
