/** The abstract view of a fixed-size record file: a growable array of zero-padded records. */
module Records {
  import opened Types

  function Zeros(n: nat): (z: Bytes)
    ensures |z| == n && forall i :: 0 <= i < n ==> z[i] == 0
  {
    seq(n, _ => 0)
  }

  /** A record as WriteNolock lays it out: the encoded bytes, then zeros up to the record size. */
  function Pad(data: Bytes, size: nat): (r: Bytes)
    requires |data| <= size
    ensures |r| == size
    ensures forall i :: 0 <= i < size ==> r[i] == if i < |data| then data[i] else 0
  {
    data + Zeros(size - |data|)
  }

  /** Sets record i; the records between the old end and i become zeros, as a hole in the file reads back. */
  function WriteRecord(recs: seq<Bytes>, size: nat, i: nat, rec: Bytes): (r: seq<Bytes>)
    ensures |r| == Max(|recs|, i + 1)
    ensures r[i] == rec
    ensures forall j :: 0 <= j < |r| && j != i ==> r[j] == if j < |recs| then recs[j] else Zeros(size)
  {
    if i < |recs| then recs[i := rec] else recs + seq(i - |recs|, _ => Zeros(size)) + [rec]
  }

  ghost predicate Within(order: seq<int>, m: map<int, Bytes>) {
    forall j :: 0 <= j < |order| ==> order[j] in m && order[j] >= 0
  }

  /** The records of m written one after another in the given order. */
  ghost function WriteAll(recs: seq<Bytes>, size: nat, m: map<int, Bytes>, order: seq<int>): seq<Bytes>
    requires Within(order, m)
    decreases |order|
  {
    if order == [] then recs
    else
      var last := order[|order| - 1];
      WriteRecord(WriteAll(recs, size, m, order[..|order| - 1]), size, last, m[last])
  }

  /** Whatever the order, every listed key holds its record and every other position is untouched or zero. */
  lemma {:induction false} WriteAllResult(recs: seq<Bytes>, size: nat, m: map<int, Bytes>, order: seq<int>)
    requires Within(order, m)
    ensures var r := WriteAll(recs, size, m, order);
            && |r| >= |recs|
            && (forall k :: k in order ==> k < |r| && r[k] == m[k])
            && (forall i :: 0 <= i < |r| && i !in order ==> r[i] == if i < |recs| then recs[i] else Zeros(size))
            && (|r| == |recs| || |r| - 1 in order)
  {
    if order != [] {
      var n := |order| - 1;
      WriteAllResult(recs, size, m, order[..n]);
      assert forall k :: k in order <==> k in order[..n] || k == order[n];
    }
  }

  /** The order in which a map is enumerated does not show in the result. */
  lemma WriteAllOrderFree(recs: seq<Bytes>, size: nat, m: map<int, Bytes>, o1: seq<int>, o2: seq<int>)
    requires Within(o1, m) && Within(o2, m)
    requires forall k :: k in o1 <==> k in o2
    ensures WriteAll(recs, size, m, o1) == WriteAll(recs, size, m, o2)
  {
    WriteAllResult(recs, size, m, o1);
    WriteAllResult(recs, size, m, o2);
  }
}
