/** The part of Rust's `VecDeque<T>` the simulator uses: a double-ended queue that the
    engine appends to at the back and workers pop from either end. */
module Deques {
  import opened Options

  class Deque<T> {
    /** The queued elements, front first. */
    var items: seq<T>

    constructor ()
      ensures items == []
    {
      items := [];
    }

    function Len(): nat
      reads this
    {
      |items|
    }

    method PushBack(x: T)
      modifies this
      ensures items == old(items) + [x]
    {
      items := items + [x];
    }

    method PopFront() returns (x: Option<T>)
      modifies this
      ensures old(items) == [] ==> x == None && items == []
      ensures old(items) != [] ==> x == Some(old(items)[0]) && items == old(items)[1..]
    {
      if items == [] {
        x := None;
      } else {
        x := Some(items[0]);
        items := items[1..];
      }
    }

    method PopBack() returns (x: Option<T>)
      modifies this
      ensures old(items) == [] ==> x == None && items == []
      ensures old(items) != [] ==> x == Some(old(items)[|old(items)| - 1])
                                    && items == old(items)[..|old(items)| - 1]
    {
      if items == [] {
        x := None;
      } else {
        x := Some(items[|items| - 1]);
        items := items[..|items| - 1];
      }
    }
  }
}
