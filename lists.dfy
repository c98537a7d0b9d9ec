/** The two `List<T>` operations the modelled code relies on: `Add` appends,
    `Remove(item)` deletes the FIRST element equal to `item`, if there is one. */
module Lists {

  /** Index of the first occurrence of `x` in `s`, or `|s|` when there is none. */
  function IndexOf<T(==)>(s: seq<T>, x: T): (k: nat)
    ensures k <= |s|
    ensures k < |s| ==> s[k] == x
    ensures forall j :: 0 <= j < k ==> s[j] != x
    ensures k == |s| <==> x !in s
  {
    if s == [] then 0
    else if s[0] == x then 0
    else 1 + IndexOf(s[1..], x)
  }

  /** `List<T>.Remove(x)`: drop the first element equal to `x`. */
  function RemoveFirst<T(==)>(s: seq<T>, x: T): (r: seq<T>)
  {
    var k := IndexOf(s, x);
    if k == |s| then s else s[..k] + s[k + 1..]
  }

  /** Removing an element that is present shortens the list by one, removes
      exactly one copy of it and keeps every other element in its order. */
  lemma RemoveFirstPresent<T>(s: seq<T>, x: T)
    requires x in s
    ensures |RemoveFirst(s, x)| == |s| - 1
    ensures multiset(RemoveFirst(s, x)) == multiset(s) - multiset{x}
    ensures RemoveFirst(s, x) == s[..IndexOf(s, x)] + s[IndexOf(s, x) + 1..]
  {
    var k := IndexOf(s, x);
    assert s == s[..k] + [s[k]] + s[k + 1..];
    assert multiset(s) == multiset(s[..k]) + multiset{x} + multiset(s[k + 1..]);
  }

  /** Removing an element that is absent changes nothing. */
  lemma RemoveFirstAbsent<T>(s: seq<T>, x: T)
    requires x !in s
    ensures RemoveFirst(s, x) == s
  {
  }

  /** `Add` followed by `Remove` of a fresh element restores the list. */
  lemma {:induction false} AddThenRemove<T>(s: seq<T>, x: T)
    requires x !in s
    ensures RemoveFirst(s + [x], x) == s
  {
    var k := IndexOf(s + [x], x);
    assert (s + [x])[|s|] == x;
    assert forall j :: 0 <= j < |s| ==> (s + [x])[j] == s[j];
    assert k == |s|;
    assert (s + [x])[..|s|] == s;
  }

  /** Removing (the first copy of) the last element leaves the same elements,
      with the same multiplicities, as dropping the last position. */
  lemma RemoveLastValueSameMultiset<T>(s: seq<T>)
    requires |s| > 0
    ensures multiset(RemoveFirst(s, s[|s| - 1])) == multiset(s[..|s| - 1])
  {
    var last := s[|s| - 1];
    RemoveFirstPresent(s, last);
    assert s == s[..|s| - 1] + [last];
    assert multiset(s) == multiset(s[..|s| - 1]) + multiset{last};
  }
}
