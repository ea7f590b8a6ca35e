/**
 QEMUIOVector: a growing list of buffers, as cutils.c handles it. Buffers are kept
 by their contents.
 */
module IoVector {
  import opened Wire

  type Iov = seq<seq<byte>>

  /** The bytes of a vector, one buffer after the other. */
  function Bytes(v: Iov): seq<byte> {
    if v == [] then [] else v[0] + Bytes(v[1..])
  }

  lemma {:induction false} BytesAppend(a: Iov, b: Iov)
    ensures Bytes(a + b) == Bytes(a) + Bytes(b)
    decreases |a|
  {
    if a == [] {
      assert a + b == b;
    } else {
      assert (a + b)[1..] == a[1..] + b;
      BytesAppend(a[1..], b);
      Assoc(a[0], Bytes(a[1..]), Bytes(b));
    }
  }

  /** What qemu_iovec_copy adds: the buffers of v behind the first skip bytes, up
      to size bytes, the first and the last cut to fit. */
  function Copied(v: Iov, skip: nat, size: nat): Iov
    decreases |v|
  {
    if v == [] || size == 0 then []
    else if skip >= |v[0]| then Copied(v[1..], skip - |v[0]|, size)
    else
      var piece := v[0][skip..];
      if |piece| > size then [piece[..size]]
      else [piece] + Copied(v[1..], 0, size - |piece|)
  }

  function Min(a: nat, b: nat): nat {
    if a < b then a else b
  }

  /** The bytes copied are those asked for, as far as there are any, in no more
      buffers than v has. */
  lemma {:induction false} CopiedBytes(v: Iov, skip: nat, size: nat)
    ensures var all := Bytes(v);
            Bytes(Copied(v, skip, size)) == all[Min(skip, |all|)..Min(skip + size, |all|)]
    ensures |Copied(v, skip, size)| <= |v|
    decreases |v|
  {
    if v == [] {
    } else if size == 0 {
    } else if skip >= |v[0]| {
      CopiedBytes(v[1..], skip - |v[0]|, size);
      SliceTail(v[0], Bytes(v[1..]), skip, size);
    } else {
      SliceHead(v[0], Bytes(v[1..]), skip, size);
      var piece := v[0][skip..];
      if |piece| > size {
        assert Bytes([piece[..size]]) == piece[..size];
      } else {
        CopiedBytes(v[1..], 0, size - |piece|);
        var rest := Copied(v[1..], 0, size - |piece|);
        assert ([piece] + rest)[1..] == rest;
      }
    }
  }

  lemma SliceHead(head: seq<byte>, tail: seq<byte>, skip: nat, size: nat)
    requires skip < |head|
    ensures var all, piece := head + tail, head[skip..];
            all[Min(skip, |all|)..Min(skip + size, |all|)] ==
            if |piece| > size then piece[..size] else piece + tail[0..Min(size - |piece|, |tail|)]
  {
  }

  lemma SliceTail(head: seq<byte>, tail: seq<byte>, skip: nat, size: nat)
    requires skip >= |head|
    ensures var all := head + tail;
            all[Min(skip, |all|)..Min(skip + size, |all|)] ==
            tail[Min(skip - |head|, |tail|)..Min(skip - |head| + size, |tail|)]
  {
  }

  class QemuIoVector {
    var iov: Iov
    var nalloc: int
    var size: nat

    ghost predicate Valid()
      reads this
    {
      size == |Bytes(iov)| && |iov| <= nalloc
    }

    /** qemu_iovec_init */
    constructor (hint: nat)
      ensures Valid() && iov == []
    {
      iov, nalloc, size := [], hint, 0;
    }

    /** qemu_iovec_add */
    method Add(buf: seq<byte>)
      requires Valid()
      modifies this
      ensures Valid() && iov == old(iov) + [buf]
    {
      if |iov| == nalloc {
        nalloc := 2 * nalloc + 1;
      }
      BytesAppend(iov, [buf]);
      assert Bytes([buf]) == buf;
      iov := iov + [buf];
      size := size + |buf|;
    }

    /** qemu_iovec_copy */
    method Copy(src: Iov, skip0: nat, size0: nat)
      requires Valid()
      modifies this
      ensures Valid() && iov == old(iov) + Copied(src, skip0, size0)
    {
      hide Bytes;
      var i, done, skip := 0, 0, skip0;
      assert src[0..] == src;
      while i < |src| && done != size0
        invariant 0 <= i <= |src| && 0 <= done <= size0 && 0 <= skip && Valid()
        invariant iov + Copied(src[i..], skip, size0 - done) == old(iov) + Copied(src, skip0, size0)
        decreases |src| - i
      {
        ghost var rest := src[i..];
        assert rest[0] == src[i] && rest[1..] == src[i + 1..];
        if skip >= |src[i]| {
          skip := skip - |src[i]|;
        } else {
          var base := src[i][skip..];
          ghost var kept := iov;
          if done + |base| > size0 {
            Add(base[..size0 - done]);
            break;
          } else {
            Add(base);
            assert kept + ([base] + Copied(rest[1..], 0, size0 - done - |base|))
                == iov + Copied(rest[1..], 0, size0 - done - |base|);
          }
          skip := 0;
          done := done + |base|;
        }
        i := i + 1;
      }
    }

    /** qemu_iovec_to_buffer */
    method ToBuffer() returns (buf: seq<byte>)
      requires Valid()
      ensures buf == Bytes(iov) && |buf| == size
    {
      buf := [];
      var i := 0;
      assert iov[..0] == [];
      while i < |iov|
        invariant 0 <= i <= |iov| && buf == Bytes(iov[..i])
      {
        BytesAppend(iov[..i], [iov[i]]);
        assert iov[..i + 1] == iov[..i] + [iov[i]] && Bytes([iov[i]]) == iov[i];
        buf := buf + iov[i];
        i := i + 1;
      }
      assert iov[..i] == iov;
    }
 
    /** qemu_iovec_from_buffer */
    method FromBuffer(data: seq<byte>)
      requires Valid()
      modifies this`iov
      ensures Valid() && iov == Filled(old(iov), data)
    {
      hide Bytes, Filled;
      ghost var v := iov;
      var i, p, count := 0, 0, |data|;
      assert v[0..] == v && data[0..] == data;
      while i < |iov| && count > 0
        invariant 0 <= i <= |iov| == |v| && 0 <= p && 0 <= count && p + count == |data|
        invariant iov[i..] == v[i..]
        invariant iov[..i] + Filled(v[i..], data[p..]) == Filled(v, data)
        invariant |Bytes(iov)| == size && |iov| <= nalloc
        decreases |iov| - i
      {
        var copy := count;
        if copy > |iov[i]| {
          copy := |iov[i]|;
        }
        FilledStep(v, i, data[p..], copy);
        ghost var was := iov;
        var buf := data[p..p + copy] + iov[i][copy..];
        assert buf == data[p..][..copy] + v[i][copy..] && data[p..][copy..] == data[p + copy..];
        SameLength(iov, i, buf);
        iov := iov[i := buf];
        assert iov[..i + 1] == was[..i] + [buf];
        Assoc2(was[..i], [buf], Filled(v[i + 1..], data[p + copy..]));
        p := p + copy;
        count := count - copy;
        i := i + 1;
      }
      if i == |v| {
        FilledNone(v[i..], data[p..]);
      } else {
        assert data[p..] == [];
        FilledEnd(v[i..]);
      }
      assert iov[..i] + iov[i..] == iov;
    }
  }

  /** The buffers with data laid over their bytes, front to back. */
  function Filled(v: Iov, data: seq<byte>): Iov
    decreases |v|
  {
    if v == [] then []
    else
      var n := Min(|data|, |v[0]|);
      [data[..n] + v[0][n..]] + Filled(v[1..], data[n..])
  }

  lemma FilledStep(v: Iov, i: nat, data: seq<byte>, n: nat)
    requires i < |v| && n == Min(|data|, |v[i]|)
    ensures Filled(v[i..], data) == [data[..n] + v[i][n..]] + Filled(v[i + 1..], data[n..])
  {
    assert v[i..][1..] == v[i + 1..];
  }

  lemma FilledNone(v: Iov, data: seq<byte>)
    requires v == []
    ensures Filled(v, data) == []
  {
  }

  lemma {:induction false} FilledEnd(v: Iov)
    ensures Filled(v, []) == v
    decreases |v|
  {
    hide Filled;
    if v == [] {
      FilledNone(v, []);
    } else {
      FilledStep(v, 0, [], 0);
      FilledEnd(v[1..]);
      assert v[0..] == v && [] + v[0][0..] == v[0] && v == [v[0]] + v[1..];
    }
  }

  lemma Assoc2(a: Iov, b: Iov, c: Iov)
    ensures a + (b + c) == a + b + c
  {
  }

  lemma SameLength(v: Iov, i: nat, buf: seq<byte>)
    requires i < |v| && |buf| == |v[i]|
    ensures |Bytes(v[i := buf])| == |Bytes(v)|
    decreases |v|
  {
    if i == 0 {
      assert v[0 := buf][1..] == v[1..];
    } else {
      SameLength(v[1..], i - 1, buf);
      assert v[i := buf][1..] == v[1..][i - 1 := buf];
    }
  }

  /** Read back as one run of bytes: the data, as far as it fits, then what was
      there; and every buffer keeps its length. */
  lemma {:induction false} FilledBytes(v: Iov, data: seq<byte>)
    ensures var n := Min(|data|, |Bytes(v)|);
            Bytes(Filled(v, data)) == data[..n] + Bytes(v)[n..]
    ensures |Filled(v, data)| == |v| && forall i :: 0 <= i < |v| ==> |Filled(v, data)[i]| == |v[i]|
    decreases |v|
  {
    if v != [] {
      var n := Min(|data|, |v[0]|);
      var rest := Filled(v[1..], data[n..]);
      FilledBytes(v[1..], data[n..]);
      var buf := data[..n] + v[0][n..];
      assert ([buf] + rest)[1..] == rest;
      Spliced(v[0], Bytes(v[1..]), data);
      assert forall i :: 0 < i < |v| ==> v[i] == v[1..][i - 1];
    }
  }

  lemma Spliced(head: seq<byte>, tail: seq<byte>, data: seq<byte>)
    ensures var n := Min(|data|, |head|);
            var m := Min(|data[n..]|, |tail|);
            var k := Min(|data|, |head + tail|);
            (data[..n] + head[n..]) + (data[n..][..m] + tail[m..]) == data[..k] + (head + tail)[k..]
  {
    if |data| <= |head| {
      assert data[|data|..][..0] == [];
    }
  }
}
