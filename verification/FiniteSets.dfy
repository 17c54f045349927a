/** Least elements and sizes of finite sets. */
module FiniteSets {
  /** The least element of a finite non-empty set. */
  ghost function Least(s: set<int>): (k: int)
    requires s != {}
    ensures k in s && forall j :: j in s ==> k <= j
  {
    LeastExists(s);
    var k :| k in s && forall j :: j in s ==> k <= j;
    k
  }

  lemma LeastExists(s: set<int>)
    requires s != {}
    ensures exists k :: k in s && forall j :: j in s ==> k <= j
  {
    assert (forall k :: k !in s) ==> s == {};
    var x :| x in s;
    LeastFrom(s, x);
  }

  ghost function Below(s: set<int>, x: int): set<int> {
    set j | j in s && j < x
  }

  lemma LeastFrom(s: set<int>, x: int)
    requires x in s
    ensures exists k :: k in s && forall j :: j in s ==> k <= j
    decreases Below(s, x)
  {
    if y :| y in s && y < x {
      assert y in Below(s, x) && y !in Below(s, y);
      LeastFrom(s, y);
    }
  }

  lemma LeastIs(s: set<int>, k: int)
    requires k in s && forall j :: j in s ==> k <= j
    ensures s != {} && Least(s) == k
  {
  }

  lemma SubsetSize<T>(a: set<T>, b: set<T>)
    requires a <= b
    ensures |a| <= |b|
  {
    assert b == a + (b - a);
  }
}
