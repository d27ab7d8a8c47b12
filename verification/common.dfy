/** Small types shared by the other modules. */
module Common {
  datatype Option<+T> = None | Some(value: T)

  datatype Result<+T, +E> = Ok(value: T) | Err(error: E)

  function Front<T>(s: seq<T>): seq<T>
    requires s != []
  {
    s[..|s| - 1]
  }

  function Last<T>(s: seq<T>): T
    requires s != []
  {
    s[|s| - 1]
  }

  lemma SubsetIsSmaller<T>(a: set<T>, b: set<T>)
    requires a <= b
    ensures |a| <= |b|
  {
    assert b == a + (b - a);
  }

  /** The places of a list, in order, whose elements have a property. */
  function Places<T>(s: seq<T>, p: T -> bool): (r: seq<nat>)
    ensures forall i :: i in r <==> 0 <= i < |s| && p(s[i])
    ensures forall j, k :: 0 <= j < k < |r| ==> r[j] < r[k]
    ensures forall k :: 0 <= k < |r| ==> r[k] < |s|
    ensures |r| <= |s|
  {
    if s == [] then []
    else
      var before := Places(Front(s), p);
      assert forall j :: 0 <= j < |before| ==> before[j] in before;
      if p(Last(s)) then before + [|s| - 1] else before
  }

  /** One list is what is left of another, in its order. */
  ghost predicate LeftOf<T(!new)>(r: seq<T>, s: seq<T>, p: T -> bool) {
    |r| == |Places(s, p)| && forall k :: 0 <= k < |r| ==> r[k] == s[Places(s, p)[k]]
  }

  lemma LeftOfNothing<T(!new)>(p: T -> bool)
    ensures LeftOf([], [], p)
  {
  }

  lemma LeftOfMore<T(!new)>(r: seq<T>, s: seq<T>, p: T -> bool)
    requires s != [] && LeftOf(r, Front(s), p)
    ensures LeftOf(if p(Last(s)) then r + [Last(s)] else r, s, p)
  {
  }
}
