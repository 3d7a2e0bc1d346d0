/** The three LINQ operators the game core applies to its lists: `Any`,
    `FirstOrDefault` and `List.RemoveAll`, as scans from the front. */
module Linq {
  import opened Wrappers

  /** `s.Any(p)`: whether some element satisfies `p`. */
  function Any<T>(s: seq<T>, p: T -> bool): (r: bool)
    ensures r <==> exists i :: 0 <= i < |s| && p(s[i])
  {
    if s == [] then false
    else p(s[0]) || Any(s[1..], p)
  }

  /** `s.FirstOrDefault(p)`: the first element satisfying `p`, or `None`
      (the default of a reference type) when there is none. */
  function FirstOrDefault<T(==)>(s: seq<T>, p: T -> bool): (r: Option<T>)
    ensures r.None? <==> forall i :: 0 <= i < |s| ==> !p(s[i])
    ensures r.Some? ==>
      exists i :: 0 <= i < |s| && s[i] == r.value && p(s[i]) &&
                  forall j :: 0 <= j < i ==> !p(s[j])
  {
    if s == [] then None
    else if p(s[0]) then Some(s[0])
    else
      var rest := FirstOrDefault(s[1..], p);
      if rest.Some? then
        var i :| 0 <= i < |s[1..]| && s[1..][i] == rest.value && p(s[1..][i]) &&
                 forall j :: 0 <= j < i ==> !p(s[1..][j]);
        assert s[i + 1] == rest.value && forall j :: 0 <= j < i + 1 ==> !p(s[j]);
        rest
      else
        rest
  }

  /** `list.RemoveAll(p)`, seen as a function from the old list to the new:
      an element of the result is one of `s` that fails `p`, and every such
      element of `s` is in the result. That the survivors keep their order
      and multiplicity is `RemoveAllConcat` below. */
  function RemoveAll<T(==)>(s: seq<T>, p: T -> bool): (r: seq<T>)
    ensures |r| <= |s|
    ensures forall i :: 0 <= i < |r| ==> r[i] in s && !p(r[i])
    ensures forall i :: 0 <= i < |s| && !p(s[i]) ==> s[i] in r
    ensures (forall i :: 0 <= i < |s| ==> !p(s[i])) ==> r == s
  {
    if s == [] then []
    else if p(s[0]) then RemoveAll(s[1..], p)
    else [s[0]] + RemoveAll(s[1..], p)
  }

  /** `RemoveAll` works element by element: removing from a concatenation is
      concatenating the removals, so the survivors keep their relative order. */
  lemma {:induction false} RemoveAllConcat<T>(a: seq<T>, b: seq<T>, p: T -> bool)
    ensures RemoveAll(a + b, p) == RemoveAll(a, p) + RemoveAll(b, p)
  {
    if a == [] {
      assert a + b == b;
    } else {
      assert (a + b)[0] == a[0];
      assert (a + b)[1..] == a[1..] + b;
      RemoveAllConcat(a[1..], b, p);
    }
  }

  /** Removing twice with the same predicate removes nothing more. */
  lemma RemoveAllIdempotent<T>(s: seq<T>, p: T -> bool)
    ensures RemoveAll(RemoveAll(s, p), p) == RemoveAll(s, p)
  {
  }
}
