/** Walking over a set in an order left open, as the source does over the keys of its maps. */
module Sets {

  method AnyOf<T(!new)>(s: set<T>) returns (x: T)
    requires s != {}
    ensures x in s
  {
    assert (forall y :: y !in s) ==> s == {};
    x :| x in s;
  }
}
