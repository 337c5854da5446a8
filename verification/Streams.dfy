/** Framed byte streams in general: frames laid end to end and a receiver that cuts them off the front one by one. */
module Streams {
  import opened Types

  datatype Unpacked<+T> = NotEnough | Failed(size: nat) | Received(packet: T, size: nat)

  datatype Stream<+T> = Stream(packets: seq<T>, rest: Bytes, failed: bool)

  function PackAll<T>(pack: T -> Bytes, ps: seq<T>): Bytes {
    if ps == [] then [] else pack(ps[0]) + PackAll(pack, ps[1..])
  }

  /** The receiver called again and again until it asks for more data or fails. */
  function UnpackAll<T>(unpack: Bytes -> Unpacked<T>, b: Bytes): Stream<T>
    decreases |b|
  {
    match unpack(b)
    case NotEnough => Stream([], b, false)
    case Failed(_) => Stream([], b, true)
    case Received(p, n) =>
      if n == 0 || n > |b| then Stream([], b, true)
      else
        var s := UnpackAll(unpack, b[n..]);
        Stream([p] + s.packets, s.rest, s.failed)
  }

  /** A frame of p is received whole whatever follows it, and no part of it is mistaken for a frame. */
  ghost predicate Framed<T>(pack: T -> Bytes, unpack: Bytes -> Unpacked<T>, arrives: T -> T, p: T) {
    && |pack(p)| > 0
    && (forall tail :: unpack(pack(p) + tail) == Received(arrives(p), |pack(p)|))
    && (forall k :: 0 <= k < |pack(p)| ==> unpack(pack(p)[..k]) == NotEnough)
  }

  ghost predicate AllFramed<T>(pack: T -> Bytes, unpack: Bytes -> Unpacked<T>, arrives: T -> T, ps: seq<T>) {
    && unpack([]) == NotEnough
    && forall i :: 0 <= i < |ps| ==> Framed(pack, unpack, arrives, ps[i])
  }

  /** How many of the frames fit whole into the first k bytes. */
  function Fit<T>(pack: T -> Bytes, ps: seq<T>, k: nat): (m: nat)
    ensures m <= |ps|
  {
    if ps == [] || |pack(ps[0])| > k then 0 else 1 + Fit(pack, ps[1..], k - |pack(ps[0])|)
  }

  lemma {:induction false} FitIsGreatest<T>(pack: T -> Bytes, ps: seq<T>, k: nat)
    requires k <= |PackAll(pack, ps)|
    ensures var m := Fit(pack, ps, k);
            && |PackAll(pack, ps[..m])| <= k
            && (m < |ps| ==> k < |PackAll(pack, ps[..m + 1])|)
  {
    if ps != [] {
      var q := ps[1..];
      if |pack(ps[0])| <= k {
        var m := Fit(pack, q, k - |pack(ps[0])|);
        FitIsGreatest(pack, q, k - |pack(ps[0])|);
        assert ps[..m + 1][1..] == q[..m];
        if m < |q| {
          assert ps[..m + 2][1..] == q[..m + 1];
        }
      } else {
        assert ps[..1][1..] == [];
      }
    }
  }

  function Map<T>(f: T -> T, ps: seq<T>): seq<T> {
    if ps == [] then [] else [f(ps[0])] + Map(f, ps[1..])
  }

  /** A whole frame at the front is cut off, and the receiver goes on with what follows. */
  lemma UnpackFirst<T>(pack: T -> Bytes, unpack: Bytes -> Unpacked<T>, arrives: T -> T, p: T, part: Bytes)
    requires Framed(pack, unpack, arrives, p)
    ensures var s := UnpackAll(unpack, part);
            UnpackAll(unpack, pack(p) + part) == Stream([arrives(p)] + s.packets, s.rest, s.failed)
  {
    assert (pack(p) + part)[|pack(p)|..] == part;
  }

  lemma SplitPrefix(first: Bytes, rest: Bytes, k: nat, w: nat)
    requires |first| <= k <= |first| + |rest| && w <= k - |first|
    ensures (first + rest)[..k] == first + rest[..k - |first|]
    ensures (first + rest)[|first| + w..k] == rest[w..k - |first|]
  {
  }

  /** The frame that does not fit any more: nothing is received. */
  lemma PartOnly<T>(pack: T -> Bytes, unpack: Bytes -> Unpacked<T>, arrives: T -> T, p: T, rest: Bytes, k: nat)
    requires Framed(pack, unpack, arrives, p) && k < |pack(p)|
    ensures UnpackAll(unpack, (pack(p) + rest)[..k]) == Stream([], (pack(p) + rest)[0..k], false)
  {
    assert (pack(p) + rest)[..k] == pack(p)[..k] == (pack(p) + rest)[0..k];
  }

  lemma MapFirst<T>(pack: T -> Bytes, f: T -> T, ps: seq<T>, m: nat)
    requires ps != [] && m < |ps|
    ensures Map(f, ps[..m + 1]) == [f(ps[0])] + Map(f, ps[1..][..m])
    ensures PackAll(pack, ps[..m + 1]) == pack(ps[0]) + PackAll(pack, ps[1..][..m])
  {
    assert ps[..m + 1][1..] == ps[1..][..m] && ps[..m + 1][0] == ps[0];
  }

  /** The first k bytes of the stream yield exactly the packets that fit whole, in order; then the receiver asks for more
      data and keeps the bytes of the incomplete frame. */
  ghost predicate YieldsWhole<T>(pack: T -> Bytes, unpack: Bytes -> Unpacked<T>, arrives: T -> T, ps: seq<T>, k: nat)
    requires k <= |PackAll(pack, ps)|
  {
    var m := Fit(pack, ps, k);
    var n := |PackAll(pack, ps[..m])|;
    && n <= k
    && UnpackAll(unpack, PackAll(pack, ps)[..k]) == Stream(Map(arrives, ps[..m]), PackAll(pack, ps)[n..k], false)
  }

  lemma Prepended<T>(pack: T -> Bytes, unpack: Bytes -> Unpacked<T>, arrives: T -> T, p: T, rest: Bytes, k: nat, w: nat,
                     got: seq<T>)
    requires Framed(pack, unpack, arrives, p) && |pack(p)| <= k <= |pack(p)| + |rest| && w <= k - |pack(p)|
    requires UnpackAll(unpack, rest[..k - |pack(p)|]) == Stream(got, rest[w..k - |pack(p)|], false)
    ensures UnpackAll(unpack, (pack(p) + rest)[..k]) ==
            Stream([arrives(p)] + got, (pack(p) + rest)[|pack(p)| + w..k], false)
  {
    SplitPrefix(pack(p), rest, k, w);
    UnpackFirst(pack, unpack, arrives, p, rest[..k - |pack(p)|]);
  }

  lemma YieldsFirst<T>(pack: T -> Bytes, unpack: Bytes -> Unpacked<T>, arrives: T -> T, ps: seq<T>, k: nat)
    requires ps != [] && Framed(pack, unpack, arrives, ps[0]) && |pack(ps[0])| <= k <= |PackAll(pack, ps)|
    requires YieldsWhole(pack, unpack, arrives, ps[1..], k - |pack(ps[0])|)
    ensures YieldsWhole(pack, unpack, arrives, ps, k)
  {
    var n, q := |pack(ps[0])|, ps[1..];
    var m := Fit(pack, q, k - n);
    Prepended(pack, unpack, arrives, ps[0], PackAll(pack, q), k, |PackAll(pack, q[..m])|, Map(arrives, q[..m]));
    MapFirst(pack, arrives, ps, m);
    assert Fit(pack, ps, k) == m + 1;
  }

  /** Every byte prefix of a stream yields exactly the packets that fit whole. */
  lemma {:induction false} PrefixUnpacks<T>(pack: T -> Bytes, unpack: Bytes -> Unpacked<T>, arrives: T -> T,
                                            ps: seq<T>, k: nat)
    requires AllFramed(pack, unpack, arrives, ps) && k <= |PackAll(pack, ps)|
    ensures YieldsWhole(pack, unpack, arrives, ps, k)
  {
    if ps == [] {
      assert PackAll(pack, ps)[..k] == [];
    } else if |pack(ps[0])| > k {
      PartOnly(pack, unpack, arrives, ps[0], PackAll(pack, ps[1..]), k);
    } else {
      PrefixUnpacks(pack, unpack, arrives, ps[1..], k - |pack(ps[0])|);
      YieldsFirst(pack, unpack, arrives, ps, k);
    }
  }

  /** The whole stream is recovered in order with nothing left. */
  lemma StreamUnpacks<T>(pack: T -> Bytes, unpack: Bytes -> Unpacked<T>, arrives: T -> T, ps: seq<T>)
    requires AllFramed(pack, unpack, arrives, ps)
    ensures UnpackAll(unpack, PackAll(pack, ps)) == Stream(Map(arrives, ps), [], false)
  {
    var all := PackAll(pack, ps);
    var m := Fit(pack, ps, |all|);
    PrefixUnpacks(pack, unpack, arrives, ps, |all|);
    FitIsGreatest(pack, ps, |all|);
    if m < |ps| {
      PackAllPrefix(pack, ps, m + 1);
    }
    assert ps[..m] == ps && all[..|all|] == all;
  }

  lemma {:induction false} PackAllPrefix<T>(pack: T -> Bytes, ps: seq<T>, m: nat)
    requires m <= |ps|
    ensures |PackAll(pack, ps[..m])| <= |PackAll(pack, ps)|
  {
    if m > 0 {
      PackAllPrefix(pack, ps[1..], m - 1);
      assert ps[..m][1..] == ps[1..][..m - 1];
    }
  }

  lemma {:induction false} PackAllAppend<T>(pack: T -> Bytes, ps: seq<T>, qs: seq<T>)
    ensures PackAll(pack, ps + qs) == PackAll(pack, ps) + PackAll(pack, qs)
  {
    if ps == [] {
      assert ps + qs == qs;
    } else {
      assert (ps + qs)[1..] == ps[1..] + qs;
      PackAllAppend(pack, ps[1..], qs);
    }
  }

  lemma PackAllOne<T>(pack: T -> Bytes, ps: seq<T>, p: T)
    ensures PackAll(pack, ps + [p]) == PackAll(pack, ps) + pack(p)
  {
    PackAllAppend(pack, ps, [p]);
    assert PackAll(pack, [p]) == pack(p) + PackAll(pack, []);
  }
}
