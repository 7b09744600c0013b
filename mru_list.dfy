/**
 * The bounded most-recently-used list kept by the Markov and the distance
 * prefetchers in every table entry (`mp_entry::access_vpn`,
 * `dp_entry::access_distance`): `lru_list.remove(x)`, then `pop_back()` if
 * the list still holds `SLOT_SIZE` or more elements, then `push_front(x)`.
 * The two plug-ins differ only in `SLOT_SIZE` and the element type.
 */
module MruList {

  /** `a` is obtained from `b` by deleting zero or more elements. */
  ghost predicate IsSubsequence<T>(a: seq<T>, b: seq<T>)
    decreases |b|
  {
    if a == [] then true
    else if b == [] then false
    else (a[0] == b[0] && IsSubsequence(a[1..], b[1..])) || IsSubsequence(a, b[1..])
  }

  /** `std::list::remove(x)`: every occurrence of `x` is erased, the rest keep their order. */
  function Remove<T(==)>(s: seq<T>, x: T): (r: seq<T>)
    ensures multiset(r) == multiset(s)[x := 0]
    ensures IsSubsequence(r, s)
  {
    if s == [] then []
    else if s[0] == x then
      assert s == [s[0]] + s[1..];
      Remove(s[1..], x)
    else
      var rest := Remove(s[1..], x);
      assert s == [s[0]] + s[1..];
      assert ([s[0]] + rest)[1..] == rest;
      [s[0]] + rest
  }

  /** The list after an access to `x`, for a list of `slots` slots. */
  function Touch<T(==)>(s: seq<T>, x: T, slots: nat): (r: seq<T>)
    requires slots > 0
  {
    var rest := Remove(s, x);
    [x] + (if |rest| >= slots then rest[..|rest| - 1] else rest)
  }

  /** After the access, `x` is at the front and occurs exactly once. */
  lemma TouchFront<T>(s: seq<T>, x: T, slots: nat)
    requires slots > 0
    ensures |Touch(s, x, slots)| > 0 && Touch(s, x, slots)[0] == x
    ensures multiset(Touch(s, x, slots))[x] == 1
  {
    var rest := Remove(s, x);
    var kept := if |rest| >= slots then rest[..|rest| - 1] else rest;
    assert rest == kept + rest[|kept|..];
    assert multiset(rest) == multiset(kept) + multiset(rest[|kept|..]);
    assert multiset(kept)[x] == 0;
  }

  /** A list that fits its slots still fits them after the access. */
  lemma TouchBounded<T>(s: seq<T>, x: T, slots: nat)
    requires slots > 0
    ensures |s| <= slots ==> |Touch(s, x, slots)| <= slots
  {
    var rest := Remove(s, x);
    assert |multiset(rest)| <= |multiset(s)|;
  }

  /**
   * Apart from the new front element, the list is the old list with `x`
   * erased, in the same order; at most its last element has been dropped,
   * and only when the old list was full.
   */
  lemma TouchKeepsOrder<T>(s: seq<T>, x: T, slots: nat)
    requires slots > 0
    ensures var r, rest := Touch(s, x, slots), Remove(s, x);
      && r[1..] == rest[..|r| - 1]
      && |rest| - 1 <= |r| - 1 <= |rest|
      && (|r| - 1 < |rest| ==> |s| >= slots)
  {
    var rest := Remove(s, x);
    assert |multiset(rest)| <= |multiset(s)|;
  }
}
