/**
 The dirty bitmap of a block device: one bit for every chunk of 2048 sectors, packed
 into words of 64 bits, with a running count of the set bits.
 */
module DirtyBitmap {
  import opened Wire

  const SECTORS_PER_CHUNK := 2048
  const BITS := 64

  /** A machine word as its 64 bits. */
  type Word = w: seq<bool> | |w| == BITS witness seq(BITS, i => false)

  // ---- bits and their number ------------------------------------------------------------

  function CountSet(bits: seq<bool>): nat {
    if bits == [] then 0 else CountSet(bits[..|bits| - 1]) + (if bits[|bits| - 1] then 1 else 0)
  }

  lemma {:induction false} CountUpdate(bits: seq<bool>, i: nat, v: bool)
    requires i < |bits|
    ensures CountSet(bits[i := v]) == CountSet(bits) + (if v then 1 else 0) - (if bits[i] then 1 else 0)
  {
    var init := bits[..|bits| - 1];
    if i == |bits| - 1 {
      assert bits[i := v][..|bits| - 1] == init;
    } else {
      CountUpdate(init, i, v);
      assert bits[i := v][..|bits| - 1] == init[i := v];
    }
  }

  lemma {:induction false} CountZero(bits: seq<bool>)
    ensures CountSet(bits) == 0 <==> forall i :: 0 <= i < |bits| ==> !bits[i]
  {
    if bits != [] {
      var init := bits[..|bits| - 1];
      CountZero(init);
      if exists i :: 0 <= i < |bits| && bits[i] {
        var i :| 0 <= i < |bits| && bits[i];
        assert i < |init| ==> init[i];
      } else {
        assert forall i :: 0 <= i < |init| ==> init[i] == bits[i];
      }
    }
  }

  /** The bits of a run of words, in order. */
  function Flat(words: seq<Word>): (bits: seq<bool>)
    ensures |bits| == BITS * |words|
    ensures forall i :: 0 <= i < |bits| ==> bits[i] == words[i / BITS][i % BITS]
  {
    seq(BITS * |words|, i requires 0 <= i < BITS * |words| => words[i / BITS][i % BITS])
  }

  lemma FlatUpdate(words: seq<Word>, i: nat, v: bool)
    requires i < BITS * |words|
    ensures Flat(words[i / BITS := words[i / BITS][i % BITS := v]]) == Flat(words)[i := v]
  {
    var w: Word := words[i / BITS][i % BITS := v];
    var words': seq<Word> := words[i / BITS := w];
    forall j | 0 <= j < BITS * |words|
      ensures Flat(words')[j] == Flat(words)[i := v][j]
    {
      if j != i && j / BITS == i / BITS {
        assert j % BITS != i % BITS;
      }
    }
  }

  // ---- which chunks an update touches ------------------------------------------------------

  /** Division that truncates toward zero. */
  function Trunc(a: int, b: nat): int
    requires b > 0
  {
    if a >= 0 then a / b else -((-a) / b)
  }

  function FirstChunk(sector: nat): nat {
    sector / SECTORS_PER_CHUNK
  }

  function LastChunk(sector: nat, n: nat): int {
    Trunc(sector + n - 1, SECTORS_PER_CHUNK)
  }

  /** Some sector of [sector, sector + n) lies in chunk c. */
  ghost predicate Meets(sector: nat, n: nat, c: int) {
    exists s: int :: sector <= s < sector + n && s / SECTORS_PER_CHUNK == c
  }

  /** Bits `first` to `last` set to v, the others kept. */
  function Filled(bits: seq<bool>, first: nat, last: int, v: bool): (r: seq<bool>)
    requires last < |bits|
    ensures |r| == |bits|
    ensures forall c :: 0 <= c < |bits| ==> r[c] == if first <= c <= last then v else bits[c]
  {
    seq(|bits|, c requires 0 <= c < |bits| => if first <= c <= last then v else bits[c])
  }

  lemma InChunks(sector: nat, n: nat, c: int)
    requires n > 0
    ensures Meets(sector, n, c) <==> FirstChunk(sector) <= c <= LastChunk(sector, n)
  {
    if FirstChunk(sector) <= c <= LastChunk(sector, n) {
      var s := if c == FirstChunk(sector) then sector else c * SECTORS_PER_CHUNK;
      assert sector <= s < sector + n && s / SECTORS_PER_CHUNK == c;
    }
  }

  /** The chunks updated are the chunks the sector range meets, except for an
      empty range: that updates the chunk around its position, unless the
      position is a chunk boundary other than sector 0. */
  lemma ChunksExactly(sector: nat, n: nat)
    ensures (forall c: int :: Meets(sector, n, c) <==> FirstChunk(sector) <= c <= LastChunk(sector, n))
            <==> n > 0 || (sector > 0 && sector % SECTORS_PER_CHUNK == 0)
  {
    if n > 0 {
      forall c: int
        ensures Meets(sector, n, c) <==> FirstChunk(sector) <= c <= LastChunk(sector, n)
      {
        InChunks(sector, n, c);
      }
    } else if sector > 0 && sector % SECTORS_PER_CHUNK == 0 {
      assert LastChunk(sector, n) < FirstChunk(sector);
    } else {
      assert FirstChunk(sector) == LastChunk(sector, n);
      assert !Meets(sector, n, FirstChunk(sector));
    }
  }

  /** An update of no sectors at sector 1 touches chunk 0, which it does not meet. */
  lemma EmptyUpdateExample()
    ensures FirstChunk(1) <= 0 <= LastChunk(1, 0) && !Meets(1, 0, 0)
  {
  }

  // ---- switching the tracking on and off ----------------------------------------------------

  datatype Tracking = Tracking(bits: Option<seq<bool>>, count: int) {
    predicate Counted() {
      count == if bits.Some? then CountSet(bits.value) else 0
    }
  }

  /** bdrv_set_dirty_tracking, for a device that needs n bits. */
  function Switched(t: Tracking, enable: bool, n: nat): Tracking {
    if enable then Tracking(if t.bits.Some? then t.bits else Some(seq(n, i => false)), 0)
    else Tracking(None, 0)
  }

  /** The count is right after the switch unless tracking is enabled again over a
      bitmap that has bits set: the bitmap stays and the count restarts at zero. */
  lemma SwitchCountsExactly(t: Tracking, enable: bool, n: nat)
    ensures Switched(t, enable, n).Counted() <==>
            !(enable && t.bits.Some? && exists i :: 0 <= i < |t.bits.value| && t.bits.value[i])
  {
    if enable {
      CountZero(Switched(t, enable, n).bits.value);
    }
  }

  /** Switching tracking off forgets the bitmap, so that off and on again starts clean;
      on, over a bitmap that is there, keeps every bit. */
  lemma SwitchedBits(t: Tracking, n: nat)
    ensures Switched(t, false, n).bits == None
    ensures Switched(Switched(t, false, n), true, n).bits == Some(seq(n, i => false))
    ensures t.bits.Some? ==> Switched(t, true, n).bits == t.bits
  {
  }

  lemma RestartedCountExample()
    ensures Tracking(Some([true]), 1).Counted() && !Switched(Tracking(Some([true]), 1), true, 1).Counted()
  {
    SwitchCountsExactly(Tracking(Some([true]), 1), true, 1);
    assert CountSet([true]) == 1 by {
      assert [true][..0] == [];
    }
    assert [true][0];
  }

  // ---- any number of updates ----------------------------------------------------------------

  /** One chunk's bit set to v, and the count moved as the code moves it. */
  function One(t: Tracking, c: nat, v: bool): (r: Tracking)
    requires t.bits.Some? && c < |t.bits.value|
    ensures r.bits == Some(t.bits.value[c := v])
  {
    var bit := t.bits.value[c];
    Tracking(Some(t.bits.value[c := v]), if v && !bit then t.count + 1 else if !v && bit then t.count - 1 else t.count)
  }

  /** The loop of set_dirty_bitmap up to chunk `last`. */
  function Updated(t: Tracking, first: nat, last: int, v: bool): (r: Tracking)
    requires t.bits.Some? && last < |t.bits.value|
    ensures r.bits.Some? && |r.bits.value| == |t.bits.value|
    decreases last - first + 1
  {
    if last < first then t else One(Updated(t, first, last - 1, v), last, v)
  }

  lemma {:induction false} UpdatedFills(t: Tracking, first: nat, last: int, v: bool)
    requires t.bits.Some? && last < |t.bits.value|
    ensures var r := Updated(t, first, last, v);
            r.bits.value == Filled(t.bits.value, first, last, v) && (t.Counted() ==> r.Counted())
    decreases last - first + 1
  {
    if last < first {
      assert Filled(t.bits.value, first, last, v) == t.bits.value;
    } else {
      UpdatedFills(t, first, last - 1, v);
      CountUpdate(Updated(t, first, last - 1, v).bits.value, last, v);
    }
  }

  /** An update of n sectors from `sector` on, by a write or a reset. */
  datatype Op = Op(sector: nat, n: nat, dirty: bool)

  /** Non-empty updates inside a bitmap of `size` bits. */
  predicate Inside(ops: seq<Op>, size: nat) {
    forall o <- ops :: o.n > 0 && LastChunk(o.sector, o.n) < size
  }

  function Run(t: Tracking, ops: seq<Op>): (r: Tracking)
    requires t.bits.Some? && Inside(ops, |t.bits.value|)
    ensures r.bits.Some? && |r.bits.value| == |t.bits.value|
  {
    if ops == [] then t
    else
      var o := ops[|ops| - 1];
      Updated(Run(t, ops[..|ops| - 1]), FirstChunk(o.sector), LastChunk(o.sector, o.n), o.dirty)
  }

  /** The last update whose sectors meet chunk c was a write. */
  ghost predicate LastWritten(ops: seq<Op>, c: int) {
    if ops == [] then false
    else
      var o := ops[|ops| - 1];
      if Meets(o.sector, o.n, c) then o.dirty else LastWritten(ops[..|ops| - 1], c)
  }

  /** After any updates of a fresh bitmap: the count is the number of set bits, and
      a chunk's bit is set exactly if the last update that met it was a write. */
  lemma {:induction false} RunCounts(size: nat, ops: seq<Op>)
    requires Inside(ops, size)
    ensures var t := Run(Fresh(size), ops);
            t.Counted() && forall c: nat :: c < size ==> (t.bits.value[c] <==> LastWritten(ops, c))
  {
    hide Updated, Meets;
    if ops == [] {
      CountZero(Fresh(size).bits.value);
    } else {
      var o, before := ops[|ops| - 1], ops[..|ops| - 1];
      assert o in ops;
      RunCounts(size, before);
      UpdatedFills(Run(Fresh(size), before), FirstChunk(o.sector), LastChunk(o.sector, o.n), o.dirty);
      forall c: nat | c < size
        ensures Run(Fresh(size), ops).bits.value[c] <==> LastWritten(ops, c)
      {
        InChunks(o.sector, o.n, c);
      }
    }
  }

  /** Tracking just enabled where there was no bitmap. */
  function Fresh(size: nat): (t: Tracking)
    ensures t.bits.Some? && |t.bits.value| == size
    ensures t == Switched(Tracking(None, 0), true, size)
  {
    Tracking(Some(seq(size, i => false)), 0)
  }

  // ---- the code -----------------------------------------------------------------------------

  class Bitmap {
    const words: array<Word>
    var dirtyCount: int

    ghost function Bits(): seq<bool>
      reads words
    {
      Flat(words[..])
    }

    ghost function Track(): Tracking
      reads this, words
    {
      Tracking(Some(Bits()), dirtyCount)
    }

    constructor (chunks: nat)
      ensures fresh(words) && words.Length == (chunks + BITS - 1) / BITS && dirtyCount == 0
      ensures forall i :: 0 <= i < |Bits()| ==> !Bits()[i]
      ensures Track() == Fresh(BITS * words.Length)
    {
      words := new Word[(chunks + BITS - 1) / BITS](i => seq(BITS, j => false));
      dirtyCount := 0;
      new;
      assert Bits() == Fresh(BITS * words.Length).bits.value;
    }

    /** set_dirty_bitmap: every chunk of the range gets the bit, no other chunk
        changes, and the count moves with the number of set bits. */
    method SetDirtyBitmap(sector: nat, n: nat, dirty: bool)
      requires LastChunk(sector, n) < BITS * words.Length
      modifies words, this`dirtyCount
      ensures Track() == Updated(old(Track()), FirstChunk(sector), LastChunk(sector, n), dirty)
      ensures Bits() == Filled(old(Bits()), FirstChunk(sector), LastChunk(sector, n), dirty)
      ensures dirtyCount - CountSet(Bits()) == old(dirtyCount - CountSet(Bits()))
    {
      hide Flat, CountSet;
      var start, end := FirstChunk(sector), LastChunk(sector, n);
      ghost var bits, first := Bits(), start;
      while start <= end
        invariant first <= start && (start <= end + 1 || start == first)
        invariant |bits| == BITS * words.Length
        invariant Track() == Updated(old(Track()), first, start - 1, dirty)
        invariant Bits() == Filled(bits, first, start - 1, dirty)
        invariant dirtyCount - CountSet(Bits()) == old(dirtyCount - CountSet(Bits()))
      {
        SetOne(start, dirty);
        start := start + 1;
      }
      assert Bits() == Filled(bits, first, end, dirty);
    }

    /** One round of the loop: word and bit of a chunk. */
    method SetOne(chunk: nat, dirty: bool)
      requires chunk < BITS * words.Length
      modifies words, this`dirtyCount
      ensures Track() == One(old(Track()), chunk, dirty) && Bits() == old(Bits())[chunk := dirty]
      ensures dirtyCount - CountSet(Bits()) == old(dirtyCount - CountSet(Bits()))
    {
      hide Flat, CountSet;
      var idx, bit := chunk / BITS, chunk % BITS;
      var val: Word := words[idx];
      ghost var before := words[..];
      CountUpdate(Bits(), chunk, dirty);
      FlatUpdate(before, chunk, dirty);
      if dirty {
        if !val[bit] {
          dirtyCount := dirtyCount + 1;
          val := val[bit := true];
        }
      } else {
        if val[bit] {
          dirtyCount := dirtyCount - 1;
          val := val[bit := false];
        }
      }
      assert val == before[idx][bit := dirty];
      words[idx] := val;
      assert words[..] == before[idx := val];
    }
  }

  /** The bitmap of chunks that block migration is reading: the same words, no count. */
  class AioBitmap {
    const words: array<Word>

    ghost function Bits(): seq<bool>
      reads words
    {
      Flat(words[..])
    }

    constructor (chunks: nat)
      ensures fresh(words) && words.Length == (chunks + BITS - 1) / BITS
      ensures forall i :: 0 <= i < |Bits()| ==> !Bits()[i]
    {
      words := new Word[(chunks + BITS - 1) / BITS](i => seq(BITS, j => false));
    }

    /** bmds_set_aio_inflight */
    method SetInflight(sector: nat, n: nat, on: bool)
      requires LastChunk(sector, n) < BITS * words.Length
      modifies words
      ensures Bits() == Filled(old(Bits()), FirstChunk(sector), LastChunk(sector, n), on)
    {
      var start, end := FirstChunk(sector), LastChunk(sector, n);
      ghost var bits, first := Bits(), start;
      while start <= end
        invariant first <= start && (start <= end + 1 || start == first)
        invariant |bits| == BITS * words.Length
        invariant Bits() == Filled(bits, first, start - 1, on)
      {
        var idx, bit := start / BITS, start % BITS;
        FlatUpdate(words[..], start, on);
        ghost var before := words[..];
        var val: Word := words[idx][bit := on];
        words[idx] := val;
        assert words[..] == before[idx := val];
        start := start + 1;
      }
      assert Bits() == Filled(bits, first, end, on);
    }
  }

  /** The bit of a sector's chunk, no for a sector beyond the device: the test of
      bdrv_get_dirty and of bmds_aio_inflight. */
  method TestChunk(words: array<Word>, sector: nat, total: nat) returns (r: bool)
    requires FirstChunk(sector) < BITS * words.Length || sector >= total
    ensures r <==> sector < total && Flat(words[..])[FirstChunk(sector)]
  {
    var chunk := sector / SECTORS_PER_CHUNK;
    if sector < total {
      r := words[chunk / BITS][chunk % BITS];
    } else {
      r := false;
    }
  }
}
