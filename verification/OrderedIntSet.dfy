/** std::set<int>: its least element (begin) and lower_bound. */
module OrderedIntSet {
  import opened Options

  lemma {:induction false} LeastExists(s: set<int>)
    requires s != {}
    ensures exists r :: r in s && forall v | v in s :: r <= v
    decreases |s|
  {
    assert (forall x :: x !in s) ==> s == {};
    var x :| x in s;
    var rest := s - {x};
    if rest == {} {
      assert s == {x};
    } else {
      LeastExists(rest);
      var r :| r in rest && forall v | v in rest :: r <= v;
      var low := if r < x then r else x;
      assert low in s && forall v | v in s :: low <= v by {
        forall v | v in s ensures low <= v { if v != x { assert v in rest; } }
      }
    }
  }

  function Least(s: set<int>): (r: int)
    requires s != {}
    ensures r in s && forall v | v in s :: r <= v
  {
    LeastExists(s);
    var r :| r in s && forall v | v in s :: r <= v;
    r
  }

  /** The least element not below x, None standing for end(). */
  function LowerBound(s: set<int>, x: int): (r: Option<int>)
    ensures r.None? ==> forall v | v in s :: v < x
    ensures r.Some? ==> r.value in s && r.value >= x && forall v | v in s && v >= x :: r.value <= v
  {
    var above := set v | v in s && v >= x;
    if above == {} then
      assert forall v | v in s :: v >= x ==> v in above;
      None
    else
      assert forall v | v in s && v >= x :: v in above;
      Some(Least(above))
  }
}
