/** Finite sets of numbers never use up the numbers: the kernel and the allocator always have one to hand out. */
module Fresh {

  lemma {:induction false} Unused(used: set<nat>) returns (bound: nat)
    ensures forall x :: x in used ==> x < bound
  {
    if used == {} {
      bound := 0;
    } else {
      var x :| x in used;
      var rest := Unused(used - {x});
      bound := if x < rest then rest else x + 1;
      assert forall y :: y in used ==> y == x || y in used - {x};
    }
  }
}
