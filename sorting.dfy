/** A stable sort by a real-valued key, standing for the engine's
    `Array.prototype.sort` with a numeric comparator `key(a) - key(b)`. */
module Sorting {
  import opened DustbinTypes

  ghost predicate SortedBy<T>(s: seq<T>, key: T -> real)
  {
    forall i, j :: 0 <= i < j < |s| ==> key(s[i]) <= key(s[j])
  }

  /** Places `x` in front of the first element whose key is not smaller, so an
      element inserted later lands before equal keys inserted earlier. */
  function Insert<T>(x: T, s: seq<T>, key: T -> real): (r: seq<T>)
    requires SortedBy(s, key)
    ensures SortedBy(r, key)
    ensures multiset(r) == multiset(s) + multiset{x}
    ensures |r| == |s| + 1
    ensures r[0] == x || (|s| > 0 && r[0] == s[0])
  {
    if s == [] || key(x) <= key(s[0]) then
      SortedCons(x, s, key);
      [x] + s
    else
      var rest := Insert(x, s[1..], key);
      assert s == [s[0]] + s[1..];
      SortedCons(s[0], rest, key);
      [s[0]] + rest
  }

  /** A sorted sequence stays sorted behind an element whose key is not
      above its first key. */
  lemma SortedCons<T>(a: T, s: seq<T>, key: T -> real)
    requires SortedBy(s, key)
    requires s != [] ==> key(a) <= key(s[0])
    ensures SortedBy([a] + s, key)
  {
    var r := [a] + s;
    forall i, j | 0 <= i < j < |r| ensures key(r[i]) <= key(r[j]) {
      if i == 0 {
        assert r[j] == s[j - 1];
        if j > 1 {
          assert key(s[0]) <= key(s[j - 1]);
        }
      } else {
        assert r[i] == s[i - 1] && r[j] == s[j - 1];
      }
    }
  }

  /** Sorts ascending by `key`; elements with equal keys keep their input order. */
  function SortByKey<T>(s: seq<T>, key: T -> real): (r: seq<T>)
    ensures SortedBy(r, key)
    ensures multiset(r) == multiset(s)
    ensures |r| == |s|
  {
    if s == [] then []
    else
      assert s == [s[0]] + s[1..];
      Insert(s[0], SortByKey(s[1..], key), key)
  }

  function NegatedFill(d: Dustbin): real { -d.fill }

  /** The order of `sort((a, b) => b.fillPercentage - a.fillPercentage)`:
      fullest first, ties in input order. */
  function ByFillDescending(bins: seq<Dustbin>): (r: seq<Dustbin>)
    ensures multiset(r) == multiset(bins) && |r| == |bins|
    ensures forall i, j :: 0 <= i < j < |r| ==> r[i].fill >= r[j].fill
  {
    var r := SortByKey(bins, NegatedFill);
    assert forall i, j :: 0 <= i < j < |r| ==> NegatedFill(r[i]) <= NegatedFill(r[j]);
    r
  }

  /** The head of a fill-descending order is at least as full as every bin. */
  lemma {:induction false} FullestFirst(bins: seq<Dustbin>)
    requires |bins| > 0
    ensures forall m :: 0 <= m < |bins| ==> bins[m].fill <= ByFillDescending(bins)[0].fill
  {
    var r := ByFillDescending(bins);
    forall m | 0 <= m < |bins| ensures bins[m].fill <= r[0].fill {
      assert bins[m] in multiset(bins);
      assert bins[m] in multiset(r);
      var k :| 0 <= k < |r| && r[k] == bins[m];
    }
  }
}
