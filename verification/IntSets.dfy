/** The least element of a finite set of integers. */
module IntSets {
  import opened Wrappers

  lemma Member<T>(s: set<T>) returns (x: T)
    requires s != {}
    ensures x in s
  {
    x :| x in s;
  }

  lemma {:induction false} LeastExists(s: set<int>)
    requires s != {}
    ensures exists m :: m in s && forall x :: x in s ==> m <= x
    decreases |s|
  {
    var a := Member(s);
    if s != {a} {
      LeastExists(s - {a});
      var b :| b in s - {a} && forall x :: x in s - {a} ==> b <= x;
      var m := if a < b then a else b;
      assert forall x :: x in s ==> x == a || x in s - {a};
      assert m in s && forall x :: x in s ==> m <= x;
    }
  }

  /** `SELECT v ... ORDER BY v LIMIT 1`, or a BTreeSet's first element; None when there is none. */
  function Least(s: set<int>): (r: Option<int>)
    ensures r.None? <==> s == {}
    ensures r.Some? ==> r.value in s && forall x :: x in s ==> r.value <= x
  {
    if s == {} then None
    else
      LeastExists(s);
      var m :| m in s && forall x :: x in s ==> m <= x;
      Some(m)
  }
}
