/** tracer/srceditor/nodes.go: insertions and deletions collected in any order and applied to a source text in one pass. */
module SourceEdit {
  import opened Types

  /** Positions count from 1, as token.Pos does. */
  datatype Edit = Insert(pos: int, src: Bytes) | Delete(pos: int, end: int)

  // ---------- stable sorting by position ----------

  ghost predicate Sorted(s: seq<Edit>) {
    forall i, j :: 0 <= i < j < |s| ==> s[i].pos <= s[j].pos
  }

  /** The edits at one position, in order. */
  function AtPos(s: seq<Edit>, p: int): seq<Edit> {
    if s == [] then []
    else
      var before, e := AtPos(s[..|s| - 1], p), s[|s| - 1];
      if e.pos == p then before + [e] else before
  }

  /** e goes behind everything that is not after it. */
  function InsertLast(s: seq<Edit>, e: Edit): (t: seq<Edit>)
    ensures |t| == |s| + 1
  {
    if s == [] || s[|s| - 1].pos <= e.pos then s + [e]
    else InsertLast(s[..|s| - 1], e) + [s[|s| - 1]]
  }

  ghost predicate UpTo(s: seq<Edit>, p: int) {
    forall i :: 0 <= i < |s| ==> s[i].pos <= p
  }

  lemma {:induction false} InsertLastSorted(s: seq<Edit>, e: Edit, p: int)
    requires Sorted(s) && UpTo(s, p) && e.pos <= p
    ensures Sorted(InsertLast(s, e)) && UpTo(InsertLast(s, e), p)
    decreases |s|
  {
    if s != [] && s[|s| - 1].pos > e.pos {
      var n := |s| - 1;
      InsertLastSorted(s[..n], e, s[n].pos);
    }
  }

  lemma {:induction false} InsertLastStable(s: seq<Edit>, e: Edit, p: int)
    ensures AtPos(InsertLast(s, e), p) == AtPos(s, p) + (if e.pos == p then [e] else [])
    decreases |s|
  {
    if s == [] || s[|s| - 1].pos <= e.pos {
      assert (s + [e])[..|s|] == s;
    } else {
      var n := |s| - 1;
      InsertLastStable(s[..n], e, p);
      var t := InsertLast(s[..n], e);
      assert (t + [s[n]])[..|t|] == t;
      if e.pos == p {
        assert s[n].pos != p;
      }
    }
  }

  /** Sorted by position, equal positions in their old order. */
  ghost predicate StableSortOf(list: seq<Edit>, t: seq<Edit>) {
    Sorted(t) && forall p :: AtPos(t, p) == AtPos(list, p)
  }

  /** There is only one such order. */
  lemma {:induction false} StableSortUnique(s: seq<Edit>, t: seq<Edit>)
    requires Sorted(s) && Sorted(t) && forall p :: AtPos(s, p) == AtPos(t, p)
    ensures s == t
    decreases |s|
  {
    if s == [] {
      if t != [] {
        LastAtPos(t);
        assert false;
      }
    } else {
      SameLast(s, t);
      var e := s[|s| - 1];
      var s', t' := s[..|s| - 1], t[..|t| - 1];
      forall p ensures AtPos(s', p) == AtPos(t', p) {
        assert AtPos(s, p) == AtPos(t, p);
        if p == e.pos {
          AppendCancels(AtPos(s', p), AtPos(t', p), e);
        }
      }
      StableSortUnique(s', t');
      assert s == s' + [e] && t == t' + [e];
    }
  }

  lemma SameLast(s: seq<Edit>, t: seq<Edit>)
    requires Sorted(s) && Sorted(t) && s != [] && forall p :: AtPos(s, p) == AtPos(t, p)
    ensures t != [] && s[|s| - 1] == t[|t| - 1]
  {
    var e := s[|s| - 1];
    LastAtPos(s);
    assert AtPos(t, e.pos) == AtPos(s, e.pos);
    NonemptyAtPos(t, e.pos);
    var f := t[|t| - 1];
    LastAtPos(t);
    assert AtPos(s, f.pos) == AtPos(t, f.pos);
    NonemptyAtPos(s, f.pos);
  }

  lemma AppendCancels(a: seq<Edit>, b: seq<Edit>, e: Edit)
    requires a + [e] == b + [e]
    ensures a == b
  {
    assert (a + [e])[..|a|] == a && (b + [e])[..|b|] == b;
    assert |a + [e]| == |b + [e]|;
  }

  lemma LastAtPos(s: seq<Edit>)
    requires s != []
    ensures var q := AtPos(s, s[|s| - 1].pos); q != [] && q[|q| - 1] == s[|s| - 1]
  {
  }

  lemma {:induction false} NonemptyAtPos(s: seq<Edit>, p: int)
    requires Sorted(s) && AtPos(s, p) != []
    ensures s != [] && p <= s[|s| - 1].pos
    decreases |s|
  {
    var n := |s| - 1;
    if s[n].pos != p {
      NonemptyAtPos(s[..n], p);
    }
  }

  lemma {:induction false} MemberAtPos(s: seq<Edit>, e: Edit)
    ensures e in s <==> e in AtPos(s, e.pos)
  {
    if s != [] {
      MemberAtPos(s[..|s| - 1], e);
      assert s == s[..|s| - 1] + [s[|s| - 1]];
    }
  }

  // ---------- the pass over the sorted edits ----------

  function Prepend(a: Bytes, r: Option<Bytes>): Option<Bytes> {
    if r.None? then None else Some(a + r.value)
  }

  lemma PrependTwice(a: Bytes, b: Bytes, r: Option<Bytes>)
    ensures Prepend(a, Prepend(b, r)) == Prepend(a + b, r)
  {
    if r.Some? {
      assert a + (b + r.value) == a + b + r.value;
    }
  }

  /** Where the pass stands after an edit. */
  function After(e: Edit): int {
    if e.Insert? then e.pos else e.end
  }

  function Inserted(e: Edit): Bytes {
    if e.Insert? then e.src else []
  }

  /** What Format's loop writes from position pos on, or None where a slice expression panics. */
  function Emit(src: Bytes, edits: seq<Edit>, pos: int): Option<Bytes>
    decreases |edits|
  {
    if edits == [] then if 1 <= pos <= |src| + 1 then Some(src[pos - 1..]) else None
    else
      var e := edits[0];
      if !(1 <= pos <= e.pos <= |src| + 1) then None
      else Prepend(src[pos - 1..e.pos - 1] + Inserted(e), Emit(src, edits[1..], After(e)))
  }

  class NodeList {
    const origSrc: Bytes
    var list: seq<Edit>

    constructor (origSrc: Bytes)
      ensures this.origSrc == origSrc && list == []
    {
      this.origSrc := origSrc;
      list := [];
    }

    method Add(nodes: seq<Edit>)
      modifies this
      ensures list == old(list) + nodes
    {
      list := list + nodes;
    }

    /** sort.Stable on the list. */
    method SortStable()
      modifies this
      ensures StableSortOf(old(list), list)
    {
      var t: seq<Edit> := [];
      for i := 0 to |list|
        invariant list == old(list) && StableSortOf(list[..i], t)
      {
        SortOneMore(list[..i], t, list[i]);
        assert list[..i + 1] == list[..i] + [list[i]];
        t := InsertLast(t, list[i]);
      }
      assert list[..|list|] == list;
      list := t;
    }

    /** The bytes Format hands to the formatter. */
    method Format() returns (out: Option<Bytes>)
      modifies this
      ensures StableSortOf(old(list), list)
      ensures out == Emit(origSrc, list, 1)
    {
      SortStable();
      out := Write(list);
    }

    method Write(edits: seq<Edit>) returns (out: Option<Bytes>)
      ensures out == Emit(origSrc, edits, 1)
    {
      var buf: Bytes := [];
      var pos := 1;
      assert edits[0..] == edits;
      ghost var whole := Emit(origSrc, edits, 1);
      assert whole.Some? ==> [] + whole.value == whole.value;
      for i := 0 to |edits|
        invariant whole == Prepend(buf, Emit(origSrc, edits[i..], pos))
      {
        var e := edits[i];
        assert edits[i..][1..] == edits[i + 1..];
        if !(1 <= pos <= e.pos <= |origSrc| + 1) {
          return None;
        }
        var more := origSrc[pos - 1..e.pos - 1] + Inserted(e);
        PrependTwice(buf, more, Emit(origSrc, edits[i + 1..], After(e)));
        buf := buf + more;
        pos := After(e);
      }
      if !(1 <= pos <= |origSrc| + 1) {
        return None;
      }
      out := Some(buf + origSrc[pos - 1..]);
    }
  }

  lemma SortOneMore(list: seq<Edit>, t: seq<Edit>, e: Edit)
    requires StableSortOf(list, t)
    ensures StableSortOf(list + [e], InsertLast(t, e))
  {
    var top := if t == [] then e.pos else Max(t[|t| - 1].pos, e.pos);
    InsertLastSorted(t, e, top);
    forall p ensures AtPos(InsertLast(t, e), p) == AtPos(list + [e], p) {
      InsertLastStable(t, e, p);
      assert (list + [e])[..|list|] == list;
      assert AtPos(t, p) == AtPos(list, p);
    }
  }

  // ---------- what the result means ----------

  /** The texts inserted at position p, in the order they were added. */
  function InsertedAt(edits: seq<Edit>, p: int): Bytes {
    if edits == [] then []
    else
      var e := edits[0];
      (if e.Insert? && e.pos == p then e.src else []) + InsertedAt(edits[1..], p)
  }

  predicate Covers(e: Edit, p: int) {
    e.Delete? && e.pos <= p < e.end
  }

  predicate DeletedAt(edits: seq<Edit>, p: int) {
    edits != [] && (Covers(edits[0], p) || DeletedAt(edits[1..], p))
  }

  /** The byte at position p, unless it is deleted or the text is over. */
  function KeptAt(src: Bytes, del: int -> bool, p: nat): Bytes
    requires 1 <= p <= |src| + 1
  {
    if p == |src| + 1 || del(p) then [] else [src[p - 1]]
  }

  /** The text from position p on: before each byte the insertions at its position, then the byte unless deleted. */
  function Text(src: Bytes, ins: int -> Bytes, del: int -> bool, p: nat): Bytes
    requires 1 <= p <= |src| + 1
    decreases |src| + 1 - p
  {
    ins(p) + (KeptAt(src, del, p) + (if p == |src| + 1 then [] else Text(src, ins, del, p + 1)))
  }

  function Render(src: Bytes, edits: seq<Edit>, p: nat): Bytes
    requires 1 <= p <= |src| + 1
  {
    Text(src, q => InsertedAt(edits, q), q => DeletedAt(edits, q), p)
  }

  /** The edits can be applied from position pos on: each starts at or after the end of what went before, inside the
      text. */
  predicate Applies(src: Bytes, edits: seq<Edit>, pos: int)
    decreases |edits|
  {
    if edits == [] then 1 <= pos <= |src| + 1
    else 1 <= pos <= edits[0].pos <= |src| + 1 && Applies(src, edits[1..], After(edits[0]))
  }

  /** Format panics exactly when the sorted edits do not apply. */
  lemma {:induction false} EmitSome(src: Bytes, edits: seq<Edit>, pos: int)
    ensures Emit(src, edits, pos).Some? <==> Applies(src, edits, pos)
    decreases |edits|
  {
    if edits != [] {
      EmitSome(src, edits[1..], After(edits[0]));
    }
  }

  predicate WellFormed(edits: seq<Edit>) {
    forall i :: 0 <= i < |edits| && edits[i].Delete? ==> edits[i].pos <= edits[i].end
  }

  ghost predicate AllFrom(edits: seq<Edit>, p: int) {
    forall i :: 0 <= i < |edits| ==> p <= edits[i].pos
  }

  lemma {:induction false} NothingInsertedBefore(edits: seq<Edit>, p: int, q: int)
    requires AllFrom(edits, q) && p < q
    ensures InsertedAt(edits, p) == []
  {
    if edits != [] {
      NothingInsertedBefore(edits[1..], p, q);
    }
  }

  lemma {:induction false} NothingDeletedBefore(edits: seq<Edit>, p: int, q: int)
    requires AllFrom(edits, q) && p < q
    ensures !DeletedAt(edits, p)
  {
    if edits != [] {
      NothingDeletedBefore(edits[1..], p, q);
    }
  }

  lemma Associate(a: Bytes, b: Bytes, c: Bytes)
    ensures a + b + c == a + (b + c)
  {
  }

  lemma Units(a: Bytes)
    ensures [] + a == a == a + []
  {
  }

  /** The text depends on what happens from p on only. */
  lemma {:induction false} TextAgrees(src: Bytes, i1: int -> Bytes, d1: int -> bool, i2: int -> Bytes, d2: int -> bool,
                                      p: nat)
    requires 1 <= p <= |src| + 1
    requires forall q :: p <= q <= |src| + 1 ==> i1(q) == i2(q) && d1(q) == d2(q)
    ensures Text(src, i1, d1, p) == Text(src, i2, d2, p)
    decreases |src| + 1 - p
  {
    assert i1(p) == i2(p) && d1(p) == d2(p);
    if p <= |src| {
      TextAgrees(src, i1, d1, i2, d2, p + 1);
    }
  }

  /** One more insertion at p, ahead of the others. */
  lemma TextInsert(src: Bytes, i1: int -> Bytes, d1: int -> bool, i2: int -> Bytes, d2: int -> bool, p: nat, more: Bytes)
    requires 1 <= p <= |src| + 1 && i1(p) == more + i2(p) && d1(p) == d2(p)
    requires forall q :: p < q <= |src| + 1 ==> i1(q) == i2(q) && d1(q) == d2(q)
    ensures Text(src, i1, d1, p) == more + Text(src, i2, d2, p)
  {
    if p <= |src| {
      TextAgrees(src, i1, d1, i2, d2, p + 1);
    }
    var rest := KeptAt(src, d2, p) + (if p == |src| + 1 then [] else Text(src, i2, d2, p + 1));
    Associate(more, i2(p), rest);
  }

  lemma TextCopiesOne(src: Bytes, ins: int -> Bytes, del: int -> bool, p: nat)
    requires 1 <= p <= |src| && ins(p) == [] && !del(p)
    ensures Text(src, ins, del, p) == [src[p - 1]] + Text(src, ins, del, p + 1)
  {
    Units([src[p - 1]] + Text(src, ins, del, p + 1));
  }

  /** Where nothing is inserted or deleted the text is copied. */
  lemma {:induction false} TextCopies(src: Bytes, ins: int -> Bytes, del: int -> bool, p: nat, q: nat)
    requires 1 <= p <= q <= |src| + 1
    requires forall x :: p <= x < q ==> ins(x) == [] && !del(x)
    ensures Text(src, ins, del, p) == src[p - 1..q - 1] + Text(src, ins, del, q)
    decreases q - p
  {
    if p < q {
      TextCopiesOne(src, ins, del, p);
      TextCopies(src, ins, del, p + 1, q);
      CopyOneMore(src, p, q, Text(src, ins, del, p), Text(src, ins, del, p + 1), Text(src, ins, del, q));
    } else {
      Units(Text(src, ins, del, q));
      assert src[p - 1..q - 1] == [];
    }
  }

  lemma CopyOneMore(src: Bytes, p: nat, q: nat, fromP: Bytes, fromNext: Bytes, fromQ: Bytes)
    requires 1 <= p < q <= |src| + 1
    requires fromP == [src[p - 1]] + fromNext && fromNext == src[p..q - 1] + fromQ
    ensures fromP == src[p - 1..q - 1] + fromQ
  {
    assert src[p - 1..q - 1] == [src[p - 1]] + src[p..q - 1];
    Associate([src[p - 1]], src[p..q - 1], fromQ);
  }

  /** Where everything is deleted and nothing inserted the text is skipped. */
  lemma {:induction false} TextSkips(src: Bytes, ins: int -> Bytes, del: int -> bool, p: nat, q: nat)
    requires 1 <= p <= q <= |src| + 1
    requires forall x :: p <= x < q ==> ins(x) == [] && del(x)
    ensures Text(src, ins, del, p) == Text(src, ins, del, q)
    decreases q - p
  {
    if p < q {
      assert ins(p) == [] && del(p);
      TextSkips(src, ins, del, p + 1, q);
      Units(Text(src, ins, del, p + 1));
    }
  }

  lemma {:induction false} TextPlain(src: Bytes, ins: int -> Bytes, del: int -> bool, p: nat)
    requires 1 <= p <= |src| + 1
    requires forall x :: p <= x <= |src| + 1 ==> ins(x) == [] && !del(x)
    ensures Text(src, ins, del, p) == src[p - 1..]
  {
    TextCopies(src, ins, del, p, |src| + 1);
    assert ins(|src| + 1) == [];
    assert Text(src, ins, del, |src| + 1) == [];
    Units(src[p - 1..]);
  }

  /** How the first edit shows at one position. */
  lemma FirstEdit(e: Edit, rest: seq<Edit>, p: int)
    ensures InsertedAt([e] + rest, p) == (if e.Insert? && e.pos == p then e.src else []) + InsertedAt(rest, p)
    ensures DeletedAt([e] + rest, p) <==> Covers(e, p) || DeletedAt(rest, p)
  {
    assert ([e] + rest)[1..] == rest;
  }

  /** Up to the first edit the text is copied. */
  lemma RenderCopies(src: Bytes, edits: seq<Edit>, p: nat, q: nat)
    requires 1 <= p <= q <= |src| + 1 && AllFrom(edits, q)
    ensures Render(src, edits, p) == src[p - 1..q - 1] + Render(src, edits, q)
  {
    forall x | p <= x < q ensures InsertedAt(edits, x) == [] && !DeletedAt(edits, x) {
      NothingInsertedBefore(edits, x, q);
      NothingDeletedBefore(edits, x, q);
    }
    TextCopies(src, x => InsertedAt(edits, x), x => DeletedAt(edits, x), p, q);
  }

  lemma RenderInsert(src: Bytes, e: Edit, rest: seq<Edit>)
    requires e.Insert? && 1 <= e.pos <= |src| + 1
    ensures Render(src, [e] + rest, e.pos) == e.src + Render(src, rest, e.pos)
  {
    var all := [e] + rest;
    forall x ensures InsertedAt(all, x) == (if e.pos == x then e.src + InsertedAt(rest, x) else InsertedAt(rest, x))
             ensures DeletedAt(all, x) == DeletedAt(rest, x)
    {
      FirstEdit(e, rest, x);
      Units(InsertedAt(rest, x));
    }
    TextInsert(src, x => InsertedAt(all, x), x => DeletedAt(all, x),
               x => InsertedAt(rest, x), x => DeletedAt(rest, x), e.pos, e.src);
  }

  /** Inside its range a deletion removes everything; past it, it does not matter. */
  lemma RenderDelete(src: Bytes, e: Edit, rest: seq<Edit>)
    requires e.Delete? && 1 <= e.pos <= e.end <= |src| + 1 && AllFrom(rest, e.end)
    ensures Render(src, [e] + rest, e.pos) == Render(src, rest, e.end)
  {
    var all := [e] + rest;
    forall x ensures InsertedAt(all, x) == InsertedAt(rest, x)
             ensures DeletedAt(all, x) == (Covers(e, x) || DeletedAt(rest, x))
    {
      FirstEdit(e, rest, x);
      Units(InsertedAt(rest, x));
    }
    forall x | e.pos <= x < e.end ensures InsertedAt(all, x) == [] && DeletedAt(all, x) {
      NothingInsertedBefore(rest, x, e.end);
    }
    TextSkips(src, x => InsertedAt(all, x), x => DeletedAt(all, x), e.pos, e.end);
    TextAgrees(src, x => InsertedAt(all, x), x => DeletedAt(all, x),
               x => InsertedAt(rest, x), x => DeletedAt(rest, x), e.end);
  }

  lemma {:induction false} AppliesBounds(src: Bytes, edits: seq<Edit>, pos: int)
    requires Applies(src, edits, pos) && WellFormed(edits)
    ensures 1 <= pos <= |src| + 1 && AllFrom(edits, pos)
    decreases |edits|
  {
    if edits != [] {
      AppliesBounds(src, edits[1..], After(edits[0]));
    }
  }

  lemma RenderStep(src: Bytes, e: Edit, rest: seq<Edit>, pos: nat)
    requires 1 <= pos <= e.pos <= |src| + 1 && e.pos <= After(e) <= |src| + 1 && AllFrom(rest, After(e))
    ensures Render(src, [e] + rest, pos) == src[pos - 1..e.pos - 1] + Inserted(e) + Render(src, rest, After(e))
  {
    var copied, more := src[pos - 1..e.pos - 1], Render(src, rest, After(e));
    RenderCopies(src, [e] + rest, pos, e.pos);
    if e.Insert? {
      RenderInsert(src, e, rest);
    } else {
      RenderDelete(src, e, rest);
      Units(more);
    }
    Associate(copied, Inserted(e), more);
  }

  lemma {:induction false} EmitIsRender(src: Bytes, edits: seq<Edit>, pos: int)
    requires WellFormed(edits) && Applies(src, edits, pos)
    ensures 1 <= pos <= |src| + 1 && Emit(src, edits, pos) == Some(Render(src, edits, pos))
    decreases |edits|
  {
    AppliesBounds(src, edits, pos);
    if edits == [] {
      TextPlain(src, q => InsertedAt(edits, q), q => DeletedAt(edits, q), pos);
    } else {
      var e, rest := edits[0], edits[1..];
      EmitIsRender(src, rest, After(e));
      AppliesBounds(src, rest, After(e));
      assert edits == [e] + rest;
      RenderStep(src, e, rest, pos);
    }
  }

  // ---------- Format as a whole ----------

  lemma {:induction false} InsertedByPos(s: seq<Edit>, t: seq<Edit>, p: int)
    requires AtPos(s, p) == AtPos(t, p)
    ensures InsertedAt(s, p) == InsertedAt(t, p)
  {
    InsertedFiltered(s, p);
    InsertedFiltered(t, p);
  }

  lemma {:induction false} InsertedFiltered(s: seq<Edit>, p: int)
    ensures InsertedAt(s, p) == InsertedAt(AtPos(s, p), p)
    decreases |s|
  {
    if s != [] {
      var n := |s| - 1;
      InsertedFiltered(s[..n], p);
      assert s == s[..n] + [s[n]];
      InsertedAppend(s[..n], s[n], p);
      InsertedAppend(AtPos(s[..n], p), s[n], p);
    }
  }

  lemma {:induction false} InsertedAppend(s: seq<Edit>, e: Edit, p: int)
    ensures InsertedAt(s + [e], p) == InsertedAt(s, p) + (if e.Insert? && e.pos == p then e.src else [])
    decreases |s|
  {
    if s == [] {
      assert (s + [e])[1..] == [];
      Units(InsertedAt([e], p));
    } else {
      assert (s + [e])[1..] == s[1..] + [e];
      InsertedAppend(s[1..], e, p);
    }
  }

  lemma {:induction false} DeletedMeans(s: seq<Edit>, p: int)
    ensures DeletedAt(s, p) <==> exists e :: e in s && Covers(e, p)
  {
    if s != [] {
      DeletedMeans(s[1..], p);
      assert s == [s[0]] + s[1..];
    }
  }

  lemma DeletedByPos(s: seq<Edit>, t: seq<Edit>, p: int)
    requires forall q :: AtPos(s, q) == AtPos(t, q)
    ensures DeletedAt(s, p) <==> DeletedAt(t, p)
  {
    DeletedMeans(s, p);
    DeletedMeans(t, p);
    forall e ensures e in s <==> e in t {
      MemberAtPos(s, e);
      MemberAtPos(t, e);
    }
  }

  lemma RenderByPos(src: Bytes, s: seq<Edit>, t: seq<Edit>, p: nat)
    requires 1 <= p <= |src| + 1 && forall q :: AtPos(s, q) == AtPos(t, q)
    ensures Render(src, s, p) == Render(src, t, p)
  {
    forall q ensures InsertedAt(s, q) == InsertedAt(t, q) && DeletedAt(s, q) == DeletedAt(t, q) {
      assert AtPos(s, q) == AtPos(t, q);
      InsertedByPos(s, t, q);
      DeletedByPos(s, t, q);
    }
    TextAgrees(src, q => InsertedAt(s, q), q => DeletedAt(s, q), q => InsertedAt(t, q), q => DeletedAt(t, q), p);
  }

  lemma WellFormedByPos(s: seq<Edit>, t: seq<Edit>)
    requires WellFormed(s) && forall q :: AtPos(s, q) == AtPos(t, q)
    ensures WellFormed(t)
  {
    forall i | 0 <= i < |t| && t[i].Delete? ensures t[i].pos <= t[i].end {
      var e := t[i];
      MemberAtPos(s, e);
      MemberAtPos(t, e);
      assert e in t && e in s;
    }
  }

  // ---------- when the edits can be applied ----------

  /** The edit begins and ends inside the text. */
  predicate InText(src: Bytes, e: Edit) {
    1 <= e.pos <= |src| + 1 && 1 <= After(e) <= |src| + 1
  }

  /** Edit i of the list as added goes before edit j: its position is earlier, or the same and it was added earlier. */
  predicate Before(list: seq<Edit>, i: int, j: int)
    requires 0 <= i < |list| && 0 <= j < |list|
  {
    list[i].pos < list[j].pos || (list[i].pos == list[j].pos && i < j)
  }

  /** What a caller can check before Format: every edit lies inside the text, and none starts before the end of a deletion
      that goes before it. */
  ghost predicate Compatible(src: Bytes, list: seq<Edit>) {
    && (forall i :: 0 <= i < |list| ==> InText(src, list[i]))
    && (forall i, j :: 0 <= i < |list| && 0 <= j < |list| && Before(list, i, j) && list[i].Delete? ==> list[i].end <= list[j].pos)
  }

  /** No edit starts before the end of an earlier one. */
  ghost predicate Pairwise(src: Bytes, s: seq<Edit>) {
    && (forall i :: 0 <= i < |s| ==> InText(src, s[i]))
    && (forall i, j :: 0 <= i < j < |s| ==> After(s[i]) <= s[j].pos)
  }

  /** The pass over sorted edits gets through exactly when this holds of every two of them. */
  lemma {:induction false} AppliesPairwise(src: Bytes, s: seq<Edit>, pos: int)
    requires Sorted(s)
    ensures Applies(src, s, pos) <==> 1 <= pos <= |src| + 1 && AllFrom(s, pos) && Pairwise(src, s)
    decreases |s|
  {
    if s != [] {
      var e, rest := s[0], s[1..];
      AppliesPairwise(src, rest, After(e));
      assert forall i :: 0 <= i < |rest| ==> rest[i] == s[i + 1];
      if Applies(src, s, pos) {
        forall i, j | 0 <= i < j < |s| ensures After(s[i]) <= s[j].pos {
          assert s[j] == rest[j - 1];
          if i > 0 {
            assert s[i] == rest[i - 1];
          }
        }
        forall i | 0 <= i < |s| ensures InText(src, s[i]) && pos <= s[i].pos {
          if i > 0 {
            assert s[i] == rest[i - 1];
          }
        }
      } else if 1 <= pos <= |src| + 1 && AllFrom(s, pos) && Pairwise(src, s) {
        assert AllFrom(rest, After(e)) && Pairwise(src, rest);
      }
    }
  }

  lemma SortedCompatible(src: Bytes, s: seq<Edit>)
    requires Sorted(s)
    ensures Pairwise(src, s) <==> Compatible(src, s)
  {
    if Compatible(src, s) {
      forall i, j | 0 <= i < j < |s| ensures After(s[i]) <= s[j].pos {
        assert Before(s, i, j);
      }
    }
  }

  /** Edits at one position p: all but the last end there. */
  ghost predicate SamePosOk(s: seq<Edit>, p: int) {
    forall i, j :: 0 <= i < j < |s| && s[i].pos == p && s[j].pos == p ==> After(s[i]) <= p
  }

  ghost predicate AllEndBy(s: seq<Edit>, p: int) {
    forall i :: 0 <= i < |s| && s[i].pos == p ==> After(s[i]) <= p
  }

  lemma EndByPos(s: seq<Edit>, p: int)
    ensures AllEndBy(s, p) <==> AllEndBy(AtPos(s, p), p)
  {
    var q := AtPos(s, p);
    if AllEndBy(q, p) {
      forall i | 0 <= i < |s| && s[i].pos == p ensures After(s[i]) <= p {
        var e := s[i];
        MemberAtPos(s, e);
        var k :| 0 <= k < |q| && q[k] == e;
      }
    }
    if AllEndBy(s, p) {
      forall k | 0 <= k < |q| && q[k].pos == p ensures After(q[k]) <= p {
        var e := q[k];
        MemberAtPos(s, e);
        var i :| 0 <= i < |s| && s[i] == e;
      }
    }
  }

  lemma SamePosNext(s: seq<Edit>, e: Edit, p: int)
    ensures SamePosOk(s + [e], p) <==> SamePosOk(s, p) && (e.pos == p ==> AllEndBy(s, p))
  {
    var t := s + [e];
    if SamePosOk(t, p) {
      forall i, j | 0 <= i < j < |s| && s[i].pos == p && s[j].pos == p ensures After(s[i]) <= p {
        assert t[i] == s[i] && t[j] == s[j];
      }
      if e.pos == p {
        forall i | 0 <= i < |s| && s[i].pos == p ensures After(s[i]) <= p {
          assert t[i] == s[i] && t[|s|] == e;
        }
      }
    }
  }

  /** Whether the edits at a position fit depends on their order there only. */
  lemma {:induction false} SamePosByPos(s: seq<Edit>, p: int)
    ensures SamePosOk(s, p) <==> SamePosOk(AtPos(s, p), p)
  {
    if s != [] {
      var before, e := s[..|s| - 1], s[|s| - 1];
      SamePosByPos(before, p);
      assert s == before + [e];
      SamePosNext(before, e, p);
      EndByPos(before, p);
      SamePosNext(AtPos(before, p), e, p);
    }
  }

  /** Compatible, said of members and of single positions. */
  ghost predicate CompatibleByPos(src: Bytes, s: seq<Edit>) {
    && (forall e :: e in s ==> InText(src, e))
    && (forall e, f :: e in s && f in s && e.pos < f.pos ==> After(e) <= f.pos)
    && forall p :: SamePosOk(s, p)
  }

  lemma CompatibleMeans(src: Bytes, s: seq<Edit>)
    ensures Compatible(src, s) <==> CompatibleByPos(src, s)
  {
    if Compatible(src, s) {
      forall e, f | e in s && f in s && e.pos < f.pos ensures After(e) <= f.pos {
        var i :| 0 <= i < |s| && s[i] == e;
        var j :| 0 <= j < |s| && s[j] == f;
        assert Before(s, i, j);
      }
      forall p ensures SamePosOk(s, p) {
        forall i, j | 0 <= i < j < |s| && s[i].pos == p && s[j].pos == p ensures After(s[i]) <= p {
          assert Before(s, i, j);
        }
      }
    }
    if CompatibleByPos(src, s) {
      forall i, j | 0 <= i < |s| && 0 <= j < |s| && Before(s, i, j) && s[i].Delete? ensures s[i].end <= s[j].pos {
        if s[i].pos == s[j].pos {
          assert SamePosOk(s, s[i].pos);
        }
      }
    }
  }

  lemma CompatibleMoves(src: Bytes, s: seq<Edit>, t: seq<Edit>)
    requires CompatibleByPos(src, s) && forall p :: AtPos(s, p) == AtPos(t, p)
    ensures CompatibleByPos(src, t)
  {
    forall e | e in t ensures e in s {
      MemberAtPos(t, e);
      MemberAtPos(s, e);
    }
    forall p ensures SamePosOk(t, p) {
      assert AtPos(s, p) == AtPos(t, p);
      assert SamePosOk(s, p);
      SamePosByPos(s, p);
      SamePosByPos(t, p);
    }
  }

  /** Format fails exactly when the edits, as they were added, are not compatible. */
  lemma FormatFails(src: Bytes, list: seq<Edit>, sorted: seq<Edit>)
    requires StableSortOf(list, sorted)
    ensures Emit(src, sorted, 1).Some? <==> Compatible(src, list)
  {
    EmitSome(src, sorted, 1);
    AppliesPairwise(src, sorted, 1);
    SortedCompatible(src, sorted);
    CompatibleMeans(src, sorted);
    CompatibleMeans(src, list);
    if CompatibleByPos(src, list) {
      CompatibleMoves(src, list, sorted);
    }
    if CompatibleByPos(src, sorted) {
      CompatibleMoves(src, sorted, list);
    }
    assert Pairwise(src, sorted) ==> AllFrom(sorted, 1);
  }

  /** The bytes Format builds from edits added in any order: it fails exactly when some edit lies outside the text or starts
      before the end of a deletion that goes before it; otherwise every undeleted source byte appears once, in order, with
      the insertions of its position just before it in the order they were added. */
  lemma FormatMeaning(src: Bytes, list: seq<Edit>, sorted: seq<Edit>)
    requires WellFormed(list) && StableSortOf(list, sorted)
    ensures Emit(src, sorted, 1) == if Compatible(src, list) then Some(Render(src, list, 1)) else None
  {
    FormatFails(src, list, sorted);
    EmitSome(src, sorted, 1);
    if Applies(src, sorted, 1) {
      WellFormedByPos(list, sorted);
      EmitIsRender(src, sorted, 1);
      RenderByPos(src, list, sorted, 1);
    }
  }

  /** The order in which edits at different positions were added does not matter, not even for failure. */
  lemma AddOrderIrrelevant(src: Bytes, a: seq<Edit>, b: seq<Edit>, sortedA: seq<Edit>, sortedB: seq<Edit>)
    requires forall p :: AtPos(a, p) == AtPos(b, p)
    requires StableSortOf(a, sortedA) && StableSortOf(b, sortedB)
    ensures Emit(src, sortedA, 1) == Emit(src, sortedB, 1)
  {
    forall p ensures AtPos(sortedA, p) == AtPos(sortedB, p) {
      assert AtPos(sortedA, p) == AtPos(a, p) && AtPos(sortedB, p) == AtPos(b, p);
    }
    StableSortUnique(sortedA, sortedB);
  }
}
