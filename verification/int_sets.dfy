/** Python's `min` and `max` over a non-empty finite set of integers. */
module IntSets {

  predicate IsMin(m: int, s: set<int>) {
    m in s && forall x :: x in s ==> m <= x
  }

  predicate IsMax(m: int, s: set<int>) {
    m in s && forall x :: x in s ==> x <= m
  }

  /** Some element of a non-empty set. The element type is generic because taking
      an element of a `set<int>` directly does not go through the verifier reliably. */
  ghost function Pick<T>(s: set<T>): (x: T)
    requires s != {}
    ensures x in s
  {
    var x :| x in s; x
  }

  lemma {:induction false} MinExists(s: set<int>)
    requires s != {}
    ensures exists m :: IsMin(m, s)
    decreases |s|
  {
    var x := Pick(s);
    var rest := s - {x};
    assert forall y :: y in s ==> y == x || y in rest;
    if rest == {} {
      assert s == {x};
      assert IsMin(x, s);
    } else {
      MinExists(rest);
      var m :| IsMin(m, rest);
      if x < m {
        assert IsMin(x, s);
      } else {
        assert IsMin(m, s);
      }
    }
  }

  lemma {:induction false} MaxExists(s: set<int>)
    requires s != {}
    ensures exists m :: IsMax(m, s)
    decreases |s|
  {
    var x := Pick(s);
    var rest := s - {x};
    assert forall y :: y in s ==> y == x || y in rest;
    if rest == {} {
      assert s == {x};
      assert IsMax(x, s);
    } else {
      MaxExists(rest);
      var m :| IsMax(m, rest);
      if x > m {
        assert IsMax(x, s);
      } else {
        assert IsMax(m, s);
      }
    }
  }

  /** `min(s)`. */
  function Min(s: set<int>): (m: int)
    requires s != {}
    ensures IsMin(m, s)
  {
    MinExists(s);
    var m :| IsMin(m, s);
    MinUnique(m, s);
    m
  }

  /** `max(s)`. */
  function Max(s: set<int>): (m: int)
    requires s != {}
    ensures IsMax(m, s)
  {
    MaxExists(s);
    var m :| IsMax(m, s);
    MaxUnique(m, s);
    m
  }

  lemma MinUnique(m: int, s: set<int>)
    requires IsMin(m, s)
    ensures forall n :: IsMin(n, s) ==> n == m
  {
  }

  lemma MaxUnique(m: int, s: set<int>)
    requires IsMax(m, s)
    ensures forall n :: IsMax(n, s) ==> n == m
  {
  }
}
