// What bubble sort does to a sequence of payloads: adjacent swaps of elements
// that are out of order (hw1/LinkedList.c, LinkedList_Sort).
module BubbleSort {
  // A three-way comparator that ranks its arguments: a total preorder.
  ghost predicate Ranks<T(!new)>(cmp: (T, T) -> int) {
    (forall a, b :: cmp(a, b) < 0 <==> cmp(b, a) > 0) &&
    (forall a, b, c :: cmp(a, b) <= 0 && cmp(b, c) <= 0 ==> cmp(a, c) <= 0)
  }

  // b must be moved in front of a.
  predicate OutOfOrder<T>(cmp: (T, T) -> int, ascending: bool, a: T, b: T) {
    (if ascending then -cmp(a, b) else cmp(a, b)) < 0
  }

  ghost predicate Sorted<T>(cmp: (T, T) -> int, ascending: bool, s: seq<T>) {
    forall i, j :: 0 <= i < j < |s| ==> !OutOfOrder(cmp, ascending, s[i], s[j])
  }

  // The elements that rank equal to x, in their order of appearance.
  function Peers<T>(cmp: (T, T) -> int, s: seq<T>, x: T): seq<T> {
    if s == [] then [] else (if cmp(s[0], x) == 0 then [s[0]] else []) + Peers(cmp, s[1..], x)
  }

  // A rearrangement that keeps elements of equal rank in their order.
  ghost predicate Stable<T(!new)>(cmp: (T, T) -> int, s: seq<T>, s': seq<T>) {
    multiset(s') == multiset(s) && |s'| == |s| && forall x :: Peers(cmp, s', x) == Peers(cmp, s, x)
  }

  function CountAfter<T>(cmp: (T, T) -> int, ascending: bool, x: T, s: seq<T>): nat {
    if s == [] then 0
    else (if OutOfOrder(cmp, ascending, x, s[0]) then 1 else 0) + CountAfter(cmp, ascending, x, s[1..])
  }

  // The number of pairs that are out of order.
  function Inversions<T>(cmp: (T, T) -> int, ascending: bool, s: seq<T>): nat {
    if s == [] then 0 else CountAfter(cmp, ascending, s[0], s[1..]) + Inversions(cmp, ascending, s[1..])
  }

  function SwapAt<T>(s: seq<T>, k: nat): (r: seq<T>)
    requires k + 1 < |s|
    ensures |r| == |s| && r[k] == s[k + 1] && r[k + 1] == s[k]
    ensures forall i :: 0 <= i < |s| && i != k && i != k + 1 ==> r[i] == s[i]
  {
    s[k := s[k + 1]][k + 1 := s[k]]
  }

  lemma {:induction false} CountSwap<T>(cmp: (T, T) -> int, ascending: bool, x: T, s: seq<T>, k: nat)
    requires k + 1 < |s|
    ensures CountAfter(cmp, ascending, x, SwapAt(s, k)) == CountAfter(cmp, ascending, x, s)
  {
    hide OutOfOrder;
    if k == 0 {
      assert SwapAt(s, 0)[1..] == [s[0]] + s[2..] && s[1..] == [s[1]] + s[2..];
      assert ([s[0]] + s[2..])[1..] == s[2..] == s[1..][1..];
    } else {
      CountSwap(cmp, ascending, x, s[1..], k - 1);
      assert SwapAt(s, k)[1..] == SwapAt(s[1..], k - 1);
    }
  }

  // Each swap removes exactly one inversion.
  lemma {:induction false} SwapRemovesInversion<T(!new)>(cmp: (T, T) -> int, ascending: bool, s: seq<T>, k: nat)
    requires Ranks(cmp) && k + 1 < |s| && OutOfOrder(cmp, ascending, s[k], s[k + 1])
    ensures Inversions(cmp, ascending, SwapAt(s, k)) == Inversions(cmp, ascending, s) - 1
    decreases k
  {
    var r := SwapAt(s, k);
    if k == 0 {
      var t := s[2..];
      assert !OutOfOrder(cmp, ascending, s[1], s[0]);
      hide OutOfOrder, Ranks;
      assert r[1..] == [s[0]] + t && s[1..] == [s[1]] + t;
      assert ([s[0]] + t)[1..] == t == ([s[1]] + t)[1..];
    } else {
      hide OutOfOrder, Ranks;
      SwapRemovesInversion(cmp, ascending, s[1..], k - 1);
      CountSwap(cmp, ascending, s[0], s[1..], k - 1);
      assert r[1..] == SwapAt(s[1..], k - 1);
    }
  }

  lemma {:induction false} PeersSwap<T>(cmp: (T, T) -> int, s: seq<T>, k: nat, x: T)
    requires k + 1 < |s| && !(cmp(s[k], x) == 0 && cmp(s[k + 1], x) == 0)
    ensures Peers(cmp, SwapAt(s, k), x) == Peers(cmp, s, x)
    decreases k
  {
    var r := SwapAt(s, k);
    if k == 0 {
      var t := s[2..];
      assert r[1..] == [s[0]] + t && s[1..] == [s[1]] + t;
      assert ([s[0]] + t)[1..] == t == ([s[1]] + t)[1..];
    } else {
      PeersSwap(cmp, s[1..], k - 1, x);
      assert r[1..] == SwapAt(s[1..], k - 1);
    }
  }

  // Swapping neighbours that are out of order never reorders equals.
  lemma SwapIsStable<T(!new)>(cmp: (T, T) -> int, ascending: bool, s: seq<T>, k: nat)
    requires Ranks(cmp) && k + 1 < |s| && OutOfOrder(cmp, ascending, s[k], s[k + 1])
    ensures Stable(cmp, s, SwapAt(s, k))
  {
    hide Peers, Ranks, OutOfOrder;
    forall x ensures Peers(cmp, SwapAt(s, k), x) == Peers(cmp, s, x) {
      NotBothPeers(cmp, ascending, s[k], s[k + 1], x);
      PeersSwap(cmp, s, k, x);
    }
    SwapKeepsAll(s, k);
  }

  lemma SwapKeepsAll<T>(s: seq<T>, k: nat)
    requires k + 1 < |s|
    ensures multiset(SwapAt(s, k)) == multiset(s)
  {
    assert s == s[..k] + [s[k], s[k + 1]] + s[k + 2..];
    assert SwapAt(s, k) == s[..k] + [s[k + 1], s[k]] + s[k + 2..];
  }

  lemma NotBothPeers<T(!new)>(cmp: (T, T) -> int, ascending: bool, a: T, b: T, x: T)
    requires Ranks(cmp) && OutOfOrder(cmp, ascending, a, b)
    ensures !(cmp(a, x) == 0 && cmp(b, x) == 0)
  {
    assert cmp(x, b) < 0 <==> cmp(b, x) > 0;
    assert cmp(x, a) < 0 <==> cmp(a, x) > 0;
    assert cmp(b, x) < 0 <==> cmp(x, b) > 0;
    assert cmp(a, x) < 0 <==> cmp(x, a) > 0;
    assert cmp(a, b) < 0 <==> cmp(b, a) > 0;
    assert cmp(a, x) <= 0 && cmp(x, b) <= 0 ==> cmp(a, b) <= 0;
    assert cmp(b, x) <= 0 && cmp(x, a) <= 0 ==> cmp(b, a) <= 0;
  }

  // A pass that swaps nothing found the whole sequence in order.
  lemma {:induction false} NeighboursSorted<T(!new)>(cmp: (T, T) -> int, ascending: bool, s: seq<T>, i: nat, j: nat)
    requires Ranks(cmp) && i < j < |s|
    requires forall k :: 0 <= k < |s| - 1 ==> !OutOfOrder(cmp, ascending, s[k], s[k + 1])
    ensures !OutOfOrder(cmp, ascending, s[i], s[j])
    decreases j
  {
    assert !OutOfOrder(cmp, ascending, s[j - 1], s[j]);
    if i < j - 1 {
      NeighboursSorted(cmp, ascending, s, i, j - 1);
    }
  }
}
