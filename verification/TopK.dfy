/** tracer/restapi/handlers.go, sortAndLimit: "order by, offset, limit" over a stream, keeping at most offset+rows items in
    a max-heap. The result is a window of the fully sorted input. */
module TopK {
  import opened Types

  type Less<!T> = (T, T) -> bool

  /** What Go's sort and heap packages ask of a comparison: "not after" is a total preorder. */
  ghost predicate StrictWeakOrder<T(!new)>(less: Less<T>) {
    && (forall a, b :: less(a, b) ==> !less(b, a))
    && (forall a, b, c :: !less(b, a) && !less(c, b) ==> !less(c, a))
  }

  predicate Le<T>(less: Less<T>, a: T, b: T) {
    !less(b, a)
  }

  ghost predicate Sorted<T>(less: Less<T>, s: seq<T>) {
    forall i, j :: 0 <= i < j < |s| ==> Le(less, s[i], s[j])
  }

  ghost predicate SortOf<T>(less: Less<T>, s: seq<T>, t: seq<T>) {
    Sorted(less, t) && multiset(t) == multiset(s)
  }

  // ---------- container/heap on a slice whose top is the largest item ----------

  function Parent(k: nat): nat
    requires k > 0
  {
    (k - 1) / 2
  }

  /** Every child whose parent is at least `from` is not after its parent. */
  ghost predicate HeapFrom<T>(less: Less<T>, items: seq<T>, from: nat) {
    forall k {:trigger items[k]} :: 0 < k < |items| && Parent(k) >= from ==> Le(less, items[k], items[Parent(k)])
  }

  function Swap<T>(s: seq<T>, i: nat, j: nat): (t: seq<T>)
    requires i < |s| && j < |s|
    ensures |t| == |s|
  {
    s[i := s[j]][j := s[i]]
  }

  lemma SwapKeeps<T>(s: seq<T>, i: nat, j: nat)
    requires i < |s| && j < |s|
    ensures multiset(Swap(s, i, j)) == multiset(s)
  {
  }

  /** Like HeapFrom, but the item at `hole` may be too small for its children; its children still fit its parent. */
  ghost predicate HeapHole<T>(less: Less<T>, items: seq<T>, from: nat, hole: nat) {
    && (forall k {:trigger items[k]} :: 0 < k < |items| && Parent(k) >= from && Parent(k) != hole ==>
          Le(less, items[k], items[Parent(k)]))
    && (forall k {:trigger items[k]} :: 0 < k < |items| && Parent(k) == hole && hole > 0 && Parent(hole) >= from ==>
          Le(less, items[k], items[Parent(hole)]))
  }

  lemma DownStep<T(!new)>(less: Less<T>, items: seq<T>, from: nat, i: nat, j: nat)
    requires StrictWeakOrder(less) && HeapHole(less, items, from, i) && from <= i
    requires i < j < |items| && Parent(j) == i && less(items[i], items[j])
    requires forall k :: 0 < k < |items| && Parent(k) == i ==> Le(less, items[k], items[j])
    ensures HeapHole(less, Swap(items, i, j), from, j)
  {
    var t := Swap(items, i, j);
    forall k | 0 < k < |t| && Parent(k) >= from && Parent(k) != j ensures Le(less, t[k], t[Parent(k)]) {
      if Parent(k) == i {
        assert Le(less, items[k], items[j]);
      } else if k == i {
        assert Parent(j) == i && Le(less, items[j], items[Parent(i)]);
      } else {
        assert k != j;
        assert Le(less, items[k], items[Parent(k)]);
      }
    }
    forall k | 0 < k < |t| && Parent(k) == j ensures Le(less, t[k], t[Parent(j)]) {
      assert Le(less, items[k], items[Parent(k)]);
    }
  }

  /** heap.down: sinks the item at i0 below larger children. */
  method Down<T(!new)>(less: Less<T>, items: seq<T>, i0: nat) returns (out: seq<T>)
    requires StrictWeakOrder(less) && i0 < |items| && HeapHole(less, items, i0, i0)
    ensures |out| == |items| && multiset(out) == multiset(items)
    ensures HeapFrom(less, out, i0)
  {
    out := items;
    var i := i0;
    while 2 * i + 1 < |out|
      invariant i0 <= i < |out| == |items| && multiset(out) == multiset(items)
      invariant HeapHole(less, out, i0, i)
      decreases |items| - i
    {
      var j1 := 2 * i + 1;
      var j := j1;
      if j1 + 1 < |out| && less(out[j1], out[j1 + 1]) {
        j := j1 + 1;
      }
      LargerChild(less, out, i, j);
      if !less(out[i], out[j]) {
        HoleFilled(less, out, i0, i, j);
        return;
      }
      DownStep(less, out, i0, i, j);
      SwapKeeps(out, i, j);
      out := Swap(out, i, j);
      i := j;
    }
  }

  lemma LargerChild<T(!new)>(less: Less<T>, items: seq<T>, i: nat, j: nat)
    requires StrictWeakOrder(less) && i < |items| && 2 * i + 1 < |items|
    requires j == if 2 * i + 2 < |items| && less(items[2 * i + 1], items[2 * i + 2]) then 2 * i + 2 else 2 * i + 1
    ensures i < j < |items| && Parent(j) == i
    ensures forall k :: 0 < k < |items| && Parent(k) == i ==> Le(less, items[k], items[j])
  {
    forall k | 0 < k < |items| && Parent(k) == i ensures Le(less, items[k], items[j]) {
      assert k == 2 * i + 1 || k == 2 * i + 2;
    }
  }

  lemma HoleFilled<T(!new)>(less: Less<T>, items: seq<T>, from: nat, i: nat, j: nat)
    requires StrictWeakOrder(less) && HeapHole(less, items, from, i) && i < |items| && j < |items|
    requires Le(less, items[j], items[i])
    requires forall k :: 0 < k < |items| && Parent(k) == i ==> Le(less, items[k], items[j])
    ensures HeapFrom(less, items, from)
  {
    forall k | 0 < k < |items| && Parent(k) >= from ensures Le(less, items[k], items[Parent(k)]) {
      if Parent(k) == i {
        assert Le(less, items[k], items[j]);
      }
    }
  }

  /** heap.Init. */
  method HeapInit<T(!new)>(less: Less<T>, items: seq<T>) returns (out: seq<T>)
    requires StrictWeakOrder(less)
    ensures |out| == |items| && multiset(out) == multiset(items) && HeapFrom(less, out, 0)
  {
    out := items;
    var i := |items| / 2;
    while i > 0
      invariant 0 <= i <= |items| / 2 && |out| == |items| && multiset(out) == multiset(items)
      invariant HeapFrom(less, out, i)
    {
      i := i - 1;
      out := Down(less, out, i);
    }
  }

  /** The top of the heap is not before any item. */
  lemma {:induction false} TopIsMax<T(!new)>(less: Less<T>, items: seq<T>, k: nat)
    requires StrictWeakOrder(less) && HeapFrom(less, items, 0) && k < |items|
    ensures Le(less, items[k], items[0])
    decreases k
  {
    if k > 0 {
      TopIsMax(less, items, Parent(k));
      assert Le(less, items[k], items[Parent(k)]);
    }
  }

  // ---------- sorting ----------

  /** sort.Slice: some sorted permutation. */
  method Sort<T(!new)>(less: Less<T>, items: seq<T>) returns (out: seq<T>)
    requires StrictWeakOrder(less)
    ensures SortOf(less, items, out) && |out| == |items|
  {
    out := [];
    for i := 0 to |items|
      invariant SortOf(less, items[..i], out) && |out| == i
    {
      var k := 0;
      while k < |out| && !less(items[i], out[k])
        invariant 0 <= k <= |out|
        invariant forall m :: 0 <= m < k ==> Le(less, out[m], items[i])
      {
        k := k + 1;
      }
      InsertSorted(less, out, items[i], k);
      assert items[..i + 1] == items[..i] + [items[i]];
      out := out[..k] + [items[i]] + out[k..];
    }
    assert items[..|items|] == items;
  }

  lemma InsertMultiset<T>(s: seq<T>, x: T, k: nat)
    requires k <= |s|
    ensures multiset(s[..k] + [x] + s[k..]) == multiset(s) + multiset([x])
  {
    assert s[..k] + s[k..] == s;
  }

  lemma InsertSorted<T(!new)>(less: Less<T>, s: seq<T>, x: T, k: nat)
    requires StrictWeakOrder(less) && Sorted(less, s) && k <= |s|
    requires forall m :: 0 <= m < k ==> Le(less, s[m], x)
    requires k < |s| ==> less(x, s[k])
    ensures Sorted(less, s[..k] + [x] + s[k..])
    ensures multiset(s[..k] + [x] + s[k..]) == multiset(s) + multiset([x])
  {
    var t := s[..k] + [x] + s[k..];
    InsertMultiset(s, x, k);
    forall i, j | 0 <= i < j < |t| ensures Le(less, t[i], t[j]) {
      if i == k {
        assert t[j] == s[j - 1] && (j - 1 == k || Le(less, s[k], s[j - 1]));
      } else if i < k < j {
        assert t[i] == s[i] && t[j] == s[j - 1];
      }
    }
  }

  ghost predicate NoTies<T(!new)>(less: Less<T>) {
    forall a, b :: Le(less, a, b) && Le(less, b, a) ==> a == b
  }

  lemma HeadIsLeast<T(!new)>(less: Less<T>, s: seq<T>, x: T)
    requires StrictWeakOrder(less) && Sorted(less, s) && s != [] && x in multiset(s)
    ensures Le(less, s[0], x)
  {
    var i :| 0 <= i < |s| && s[i] == x;
  }

  lemma TailMultiset<T>(s: seq<T>)
    requires s != []
    ensures multiset(s[1..]) == multiset(s) - multiset{s[0]}
  {
    assert s == [s[0]] + s[1..];
  }

  /** When no two different items are tied, there is one sorted order only. */
  lemma {:induction false} SortedUnique<T(!new)>(less: Less<T>, s: seq<T>, t: seq<T>)
    requires StrictWeakOrder(less) && NoTies(less)
    requires Sorted(less, s) && Sorted(less, t) && multiset(s) == multiset(t)
    ensures s == t
  {
    assert |multiset(s)| == |s| && |multiset(t)| == |t|;
    if s != [] {
      assert s[0] in multiset(s) && t[0] in multiset(t);
      HeadIsLeast(less, s, t[0]);
      HeadIsLeast(less, t, s[0]);
      TailMultiset(s);
      TailMultiset(t);
      SortedUnique(less, s[1..], t[1..]);
      assert s == [s[0]] + s[1..] && t == [t[0]] + t[1..];
    }
  }

  // ---------- sortAndLimit ----------

  /** Items offset to offset+rows, as far as there are any; all from offset on when rows is not positive. */
  function Window<T>(s: seq<T>, offset: nat, rows: int): seq<T> {
    var lo := Min(offset, |s|);
    if rows <= 0 then s[lo..] else s[lo..Min(offset + rows, |s|)]
  }

  /** No kept item is after a rejected one. */
  ghost predicate Separated<T>(less: Less<T>, kept: seq<T>, rejected: seq<T>) {
    forall i, k :: 0 <= i < |kept| && 0 <= k < |rejected| ==> Le(less, kept[i], rejected[k])
  }

  ghost predicate HeapState<T>(less: Less<T>, input: seq<T>, items: seq<T>, rejected: seq<T>) {
    && HeapFrom(less, items, 0)
    && Separated(less, items, rejected)
    && multiset(items) + multiset(rejected) == multiset(input)
  }

  lemma AllBelowTop<T(!new)>(less: Less<T>, items: seq<T>)
    requires StrictWeakOrder(less) && HeapFrom(less, items, 0) && items != []
    ensures forall i :: 0 <= i < |items| ==> Le(less, items[i], items[0])
  {
    forall i | 0 <= i < |items| ensures Le(less, items[i], items[0]) {
      TopIsMax(less, items, i);
    }
  }

  /** An arrival that is not before the top is rejected. */
  lemma ArrivalRejected<T(!new)>(less: Less<T>, input: seq<T>, items: seq<T>, rejected: seq<T>, x: T)
    requires StrictWeakOrder(less) && HeapState(less, input, items, rejected) && items != [] && !less(x, items[0])
    ensures HeapState(less, input + [x], items, rejected + [x])
  {
    AllBelowTop(less, items);
    forall i, k | 0 <= i < |items| && 0 <= k < |rejected + [x]| ensures Le(less, items[i], (rejected + [x])[k]) {
      if k == |rejected| {
        assert Le(less, items[i], items[0]) && Le(less, items[0], x);
      }
    }
    MultisetMove(items, rejected, input, x);
  }

  lemma MultisetMove<T>(items: seq<T>, rejected: seq<T>, input: seq<T>, x: T)
    requires multiset(items) + multiset(rejected) == multiset(input)
    ensures multiset(items) + multiset(rejected + [x]) == multiset(input + [x])
  {
  }

  lemma MultisetReplace<T>(items: seq<T>, rejected: seq<T>, input: seq<T>, x: T)
    requires multiset(items) + multiset(rejected) == multiset(input) && items != []
    ensures multiset(items[0 := x]) + multiset(rejected + [items[0]]) == multiset(input + [x])
  {
    assert items == [items[0]] + items[1..] && items[0 := x] == [x] + items[1..];
  }

  lemma HoleAtTop<T(!new)>(less: Less<T>, items: seq<T>, x: T)
    requires HeapFrom(less, items, 0) && items != []
    ensures HeapHole(less, items[0 := x], 0, 0)
  {
    var kept := items[0 := x];
    forall k | 0 < k < |kept| && Parent(k) != 0 ensures Le(less, kept[k], kept[Parent(k)]) {
      assert Le(less, items[k], items[Parent(k)]);
    }
  }

  lemma ReplacedSeparated<T(!new)>(less: Less<T>, items: seq<T>, rejected: seq<T>, x: T)
    requires StrictWeakOrder(less) && items != [] && less(x, items[0]) && Separated(less, items, rejected)
    requires forall i :: 0 <= i < |items| ==> Le(less, items[i], items[0])
    ensures Separated(less, items[0 := x], rejected + [items[0]])
  {
    var kept, out := items[0 := x], rejected + [items[0]];
    forall i, k | 0 <= i < |kept| && 0 <= k < |out| ensures Le(less, kept[i], out[k]) {
      assert k < |rejected| ==> Le(less, items[0], rejected[k]) && Le(less, items[i], rejected[k]);
    }
  }

  /** An arrival before the top replaces it, and the top is rejected. */
  lemma ArrivalKept<T(!new)>(less: Less<T>, input: seq<T>, items: seq<T>, rejected: seq<T>, x: T)
    requires StrictWeakOrder(less) && HeapState(less, input, items, rejected) && items != [] && less(x, items[0])
    ensures HeapHole(less, items[0 := x], 0, 0) && Separated(less, items[0 := x], rejected + [items[0]])
    ensures multiset(items[0 := x]) + multiset(rejected + [items[0]]) == multiset(input + [x])
  {
    AllBelowTop(less, items);
    HoleAtTop(less, items, x);
    ReplacedSeparated(less, items, rejected, x);
    MultisetReplace(items, rejected, input, x);
  }

  lemma SeparatedPermuted<T(!new)>(less: Less<T>, a: seq<T>, b: seq<T>, c: seq<T>, d: seq<T>)
    requires Separated(less, a, b) && multiset(c) == multiset(a) && multiset(d) == multiset(b)
    ensures Separated(less, c, d)
  {
    forall i, k | 0 <= i < |c| && 0 <= k < |d| ensures Le(less, c[i], d[k]) {
      assert c[i] in multiset(c) && d[k] in multiset(d);
      var m :| 0 <= m < |a| && a[m] == c[i];
      var n :| 0 <= n < |b| && b[n] == d[k];
    }
  }

  lemma JoinSorted<T(!new)>(less: Less<T>, a: seq<T>, b: seq<T>)
    requires Sorted(less, a) && Sorted(less, b) && Separated(less, a, b)
    ensures Sorted(less, a + b)
  {
  }

  /** One turn of the update loop. */
  method Offer<T(!new)>(less: Less<T>, ghost input: seq<T>, items: seq<T>, ghost rejected: seq<T>, x: T)
      returns (items': seq<T>, ghost rejected': seq<T>)
    requires StrictWeakOrder(less) && HeapState(less, input, items, rejected) && items != []
    ensures |items'| == |items| && HeapState(less, input + [x], items', rejected')
  {
    if less(x, items[0]) {
      ArrivalKept(less, input, items, rejected, x);
      items' := Down(less, items[0 := x], 0);
      rejected' := rejected + [items[0]];
      SeparatedPermuted(less, items[0 := x], rejected', items', rejected');
    } else {
      ArrivalRejected(less, input, items, rejected, x);
      items', rejected' := items, rejected + [x];
    }
  }

  method OfferAt<T(!new)>(less: Less<T>, input: seq<T>, i: nat, items: seq<T>, ghost rejected: seq<T>)
      returns (items': seq<T>, ghost rejected': seq<T>)
    requires StrictWeakOrder(less) && i < |input| && HeapState(less, input[..i], items, rejected) && items != []
    ensures |items'| == |items| && HeapState(less, input[..i + 1], items', rejected')
  {
    assert input[..i + 1] == input[..i] + [input[i]];
    items', rejected' := Offer(less, input[..i], items, rejected, input[i]);
  }

  /** The fill loop. */
  method Fill<T>(input: seq<T>, k: nat) returns (items: seq<T>)
    ensures items == input[..Min(k, |input|)]
  {
    items := [];
    while |items| < k && |items| < |input|
      invariant |items| <= Min(k, |input|) && items == input[..|items|]
      decreases |input| - |items|
    {
      items := items + [input[|items|]];
    }
  }

  method FillAndInit<T(!new)>(less: Less<T>, input: seq<T>, k: nat) returns (items: seq<T>)
    requires StrictWeakOrder(less)
    ensures |items| == Min(k, |input|) && HeapState(less, input[..|items|], items, [])
  {
    var first := Fill(input, k);
    items := HeapInit(less, first);
    assert multiset(items) + multiset([]) == multiset(first);
  }

  /** The fill loop, heap.Init and the update loop: one pass over the input that keeps at most k items. */
  method KeepSmallest<T(!new)>(less: Less<T>, input: seq<T>, k: nat) returns (items: seq<T>, ghost rejected: seq<T>)
    requires StrictWeakOrder(less) && 0 < k
    ensures |items| == Min(k, |input|) && HeapState(less, input, items, rejected)
  {
    items := FillAndInit(less, input, k);
    var i := |items|;
    rejected := [];
    while i < |input|
      invariant |items| <= i <= |input| && |items| == Min(k, |input|)
      invariant HeapState(less, input[..i], items, rejected)
    {
      items, rejected := OfferAt(less, input, i, items, rejected);
      i := i + 1;
    }
    assert input[..|input|] == input;
  }

  /** sortAndLimit with a comparison. Whatever the length of the input, the output is the window of a full sort: the
      exact one when no two items are tied, and one of the possible ones otherwise. */
  method SortAndLimit<T(!new)>(less: Less<T>, input: seq<T>, offset: nat, rows: int) returns (out: seq<T>, ghost sorted: seq<T>)
    requires StrictWeakOrder(less)
    ensures SortOf(less, input, sorted) && out == Window(sorted, offset, rows)
    ensures NoTies(less) ==> forall s :: SortOf(less, input, s) ==> out == Window(s, offset, rows)
  {
    var items := input;
    ghost var rejected := [];
    if rows > 0 {
      items, rejected := KeepSmallest(less, input, offset + rows);
    }
    var mine := Sort(less, items);
    ghost var others := SortGhost(less, rejected);
    SeparatedPermuted(less, items, rejected, mine, others);
    JoinSorted(less, mine, others);
    sorted := mine + others;
    if |mine| <= offset {
      out := [];
    } else {
      out := mine[offset..];
    }
    assert out == Window(sorted, offset, rows);
    forall s | NoTies(less) && SortOf(less, input, s) ensures out == Window(s, offset, rows) {
      SortedUnique(less, sorted, s);
    }
  }

  lemma {:induction false} SortGhost<T(!new)>(less: Less<T>, s: seq<T>) returns (t: seq<T>)
    requires StrictWeakOrder(less)
    ensures SortOf(less, s, t) && |t| == |s|
  {
    if s == [] {
      t := [];
    } else {
      var rest := SortGhost(less, s[1..]);
      var x := s[0];
      var k := 0;
      while k < |rest| && !less(x, rest[k])
        invariant 0 <= k <= |rest|
        invariant forall m :: 0 <= m < k ==> Le(less, rest[m], x)
      {
        k := k + 1;
      }
      InsertSorted(less, rest, x, k);
      t := rest[..k] + [x] + rest[k..];
      assert s == [x] + s[1..];
    }
  }

  /** sortAndLimit without a comparison: drop offset items, pass on at most rows. */
  method LimitOnly<T>(input: seq<T>, offset: nat, rows: int) returns (out: seq<T>)
    ensures out == if rows <= 0 then input else Window(input, offset, rows)
  {
    if rows <= 0 {
      return input;
    }
    var at, i := 0, 0;
    while i < offset && at < |input|
      invariant 0 <= i <= offset && i == at <= |input|
    {
      at, i := at + 1, i + 1;
    }
    out := [];
    i := 0;
    ghost var lo := at;
    while i < rows && at < |input|
      invariant 0 <= i <= rows && at == lo + i <= |input|
      invariant out == input[lo..at]
    {
      out := out + [input[at]];
      at, i := at + 1, i + 1;
    }
  }
}
