/** The elements of a set, one after the other. */
module Listings {
  method Listed<T(==)>(xs: set<T>) returns (listing: seq<T>)
    ensures forall x :: x in listing <==> x in xs
    ensures forall i, j | 0 <= i < j < |listing| :: listing[i] != listing[j]
  {
    listing := [];
    var rest := xs;
    while rest != {}
      invariant rest <= xs
      invariant forall x :: x in listing <==> x in xs - rest
      invariant forall i, j | 0 <= i < j < |listing| :: listing[i] != listing[j]
      decreases rest
    {
      var x :| x in rest;
      assert x !in listing;
      rest := rest - {x};
      listing := listing + [x];
    }
  }
}
