/** A model of System.Collections.Generic.List<T>: a reference to a growable
    sequence, so that two names for one list see each other's changes while
    a list built by the copy constructor does not. */
module Lists {

  class List<T> {
    var items: seq<T>

    /** new List<T>() */
    constructor ()
      ensures items == []
    {
      items := [];
    }

    /** new List<T>(other): an independent list with the same elements in
        the same order. */
    constructor CopyOf(other: List<T>)
      ensures items == other.items
    {
      items := other.items;
    }

    method Add(x: T)
      modifies this
      ensures items == old(items) + [x]
    {
      items := items + [x];
    }

    method Clear()
      modifies this
      ensures items == []
    {
      items := [];
    }
  }
}
