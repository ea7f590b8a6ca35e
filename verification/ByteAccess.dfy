/**
 Byte-granular access to a block device that reads and writes whole sectors:
 an unaligned head, whole sectors in the middle, and a tail.
 */
module ByteAccess {
  import opened Wire
  import opened DirtyBitmap

  const SECTOR := 512
  const EIO := -5
  const EACCES := -13
  const ENOMEDIUM := -123

  // ---- the device as a value -------------------------------------------------------------

  /** An inserted medium of `sectors` sectors; `answers` holds the driver's results
      for the requests to come (negative for a failure, success once used up). */
  datatype Device = Device(image: seq<byte>, sectors: nat, bits: Option<seq<bool>>, highest: int,
                           answers: seq<int>, inserted: bool, readOnly: bool) {
    predicate Valid() {
      && |image| == sectors * SECTOR
      && (bits.Some? ==> sectors <= |bits.value| * SECTORS_PER_CHUNK)
    }

    predicate InRange(sector: int, n: nat) {
      0 <= sector && sector + n <= sectors
    }

    predicate Answers() {
      inserted && forall i :: 0 <= i < |answers| ==> answers[i] >= 0
    }
  }

  datatype Result = Result(dev: Device, ret: int, data: seq<byte>)

  function NextAnswer(d: Device): int {
    if d.answers == [] then 0 else d.answers[0]
  }

  function Later(d: Device): Device {
    if d.answers == [] then d else d.(answers := d.answers[1..])
  }

  /** `image` with `data` laid over it from `offset` on. */
  function Patched(image: seq<byte>, offset: nat, data: seq<byte>): (r: seq<byte>)
    requires offset + |data| <= |image|
    ensures |r| == |image|
    ensures forall i :: 0 <= i < |image| ==>
              r[i] == if offset <= i < offset + |data| then data[i - offset] else image[i]
  {
    image[..offset] + data + image[offset + |data|..]
  }

  /** bdrv_read of n sectors. */
  function Read(d: Device, sector: int, n: nat): (r: Result)
    requires d.Valid()
    ensures r.dev.Valid() && r.dev == d.(answers := r.dev.answers)
    ensures r.ret >= 0 ==> d.InRange(sector, n) && r.data == d.image[sector * SECTOR..(sector + n) * SECTOR]
    ensures d.Answers() ==> r.dev.Answers() && (r.ret >= 0 <==> d.InRange(sector, n)) && (r.ret < 0 ==> r.ret == EIO)
  {
    if !d.inserted then Result(d, ENOMEDIUM, [])
    else if !d.InRange(sector, n) then Result(d, EIO, [])
    else
      var ret := NextAnswer(d);
      Result(Later(d), ret, if ret < 0 then [] else d.image[sector * SECTOR..(sector + n) * SECTOR])
  }

  function Marked(bits: Option<seq<bool>>, sector: nat, n: nat): (r: Option<seq<bool>>)
    requires bits.Some? ==> LastChunk(sector, n) < |bits.value|
    ensures r.Some? <==> bits.Some?
    ensures bits.Some? ==> |r.value| == |bits.value|
  {
    if bits.Some? then Some(Filled(bits.value, FirstChunk(sector), LastChunk(sector, n), true)) else None
  }

  /** bdrv_write of whole sectors: the chunks are marked before the driver is asked. */
  function Write(d: Device, sector: int, data: seq<byte>): (r: Result)
    requires d.Valid() && |data| > 0 && |data| % SECTOR == 0
    ensures r.dev.Valid()
  {
    var n := |data| / SECTOR;
    if !d.inserted then Result(d, ENOMEDIUM, [])
    else if d.readOnly then Result(d, EACCES, [])
    else if !d.InRange(sector, n) then Result(d, EIO, [])
    else
      var ret := NextAnswer(d);
      Result(Later(d).(image := if ret < 0 then d.image else Patched(d.image, sector * SECTOR, data),
                       bits := Marked(d.bits, sector, n),
                       highest := if d.highest < sector + n - 1 then sector + n - 1 else d.highest),
             ret, [])
  }

  // ---- where a byte range splits -------------------------------------------------------------

  /** Bytes up to the first sector boundary, at most `count`. */
  function HeadLength(offset: int, count: nat): (len: nat)
    ensures len <= count && len < SECTOR
    ensures len < count ==> (offset + len) % SECTOR == 0
    ensures len > 0 ==> offset % SECTOR + len <= SECTOR
    ensures len == 0 && count > 0 ==> offset % SECTOR == 0
  {
    UpToBoundary(offset);
    var len := (SECTOR - offset) % SECTOR;
    if len > count then count else len
  }

  lemma UpToBoundary(offset: int)
    ensures (SECTOR - offset) % SECTOR == if offset % SECTOR == 0 then 0 else SECTOR - offset % SECTOR
  {
    var q, r := offset / SECTOR, offset % SECTOR;
    assert offset == q * SECTOR + r;
  }

  /** Read n sectors and keep `count` of their bytes, from `at` on. */
  function Piece(d: Device, sector: int, n: nat, at: nat, count: nat): (r: Result)
    requires d.Valid() && at + count <= n * SECTOR
    ensures r.dev.Valid() && (r.ret >= 0 ==> r.ret == |r.data| == count)
  {
    var r := Read(d, sector, n);
    if r.ret < 0 then r else Result(r.dev, count, r.data[at..at + count])
  }

  /** The result of a request whose parts r and then q were read. */
  function Joined(r: Result, q: Result): Result {
    if q.ret < 0 then q else Result(q.dev, r.ret + q.ret, r.data + q.data)
  }

  /** The part of bdrv_pread from a sector boundary on: whole sectors, then a tail. */
  function ReadRest(d: Device, sector: int, count: nat): (r: Result)
    requires d.Valid()
    ensures r.dev.Valid() && (r.ret >= 0 ==> r.ret == |r.data| == count)
  {
    var n, tail := count / SECTOR, count % SECTOR;
    if n == 0 then (if tail == 0 then Result(d, 0, []) else Piece(d, sector, 1, 0, tail))
    else
      var mid := Piece(d, sector, n, 0, n * SECTOR);
      if mid.ret < 0 || tail == 0 then mid else Joined(mid, Piece(mid.dev, sector + n, 1, 0, tail))
  }

  /** bdrv_pread */
  function Pread(d: Device, offset: int, count: nat): (r: Result)
    requires d.Valid()
    ensures r.dev.Valid() && (r.ret >= 0 ==> r.ret == |r.data| == count)
  {
    var len, sector := HeadLength(offset, count), offset / SECTOR;
    if len == 0 then ReadRest(d, sector, count)
    else
      var head := Piece(d, sector, 1, offset % SECTOR, len);
      if head.ret < 0 || len == count then head else Joined(head, ReadRest(head.dev, sector + 1, count - len))
  }

  /** Read one sector, lay bytes over it, write it back. */
  function Update(d: Device, sector: int, at: nat, data: seq<byte>): (r: Result)
    requires d.Valid() && at + |data| <= SECTOR
    ensures r.dev.Valid()
  {
    var was := Read(d, sector, 1);
    if was.ret < 0 then was else Write(was.dev, sector, Patched(was.data, at, data))
  }

  /** The part of bdrv_pwrite from a sector boundary on. */
  function WriteRest(d: Device, sector: int, data: seq<byte>): (r: Result)
    requires d.Valid()
    ensures r.dev.Valid()
  {
    var n, tail := |data| / SECTOR, |data| % SECTOR;
    if n == 0 then (if tail == 0 then Result(d, 0, []) else Update(d, sector, 0, data))
    else
      var mid := Write(d, sector, data[..n * SECTOR]);
      if mid.ret < 0 || tail == 0 then mid else Update(mid.dev, sector + n, 0, data[n * SECTOR..])
  }

  /** bdrv_pwrite; on success the caller gets the number of bytes. */
  function Pwrite(d: Device, offset: int, data: seq<byte>): (r: Result)
    requires d.Valid()
    ensures r.dev.Valid()
  {
    var len, sector := HeadLength(offset, |data|), offset / SECTOR;
    var r :=
      if len == 0 then WriteRest(d, sector, data)
      else
        var head := Update(d, sector, offset % SECTOR, data[..len]);
        if head.ret < 0 || len == |data| then head else WriteRest(head.dev, sector + 1, data[len..]);
    if r.ret < 0 then r else r.(ret := |data|)
  }

  // ---- reading is reading the flat image --------------------------------------------------------

  /** The bytes [offset, offset + count) exist. */
  predicate Exists(d: Device, offset: int, count: nat) {
    count == 0 || (0 <= offset && offset + count <= |d.image|)
  }

  function Bytes(d: Device, offset: int, count: nat): seq<byte>
    requires Exists(d, offset, count)
  {
    if count == 0 then [] else d.image[offset..offset + count]
  }

  /** r is the outcome of reading exactly those bytes of d: the bytes and their
      number, or an error; without driver failures, success exactly if they exist. */
  ghost predicate ReadsBytes(d: Device, offset: int, count: nat, r: Result) {
    && r.dev == d.(answers := r.dev.answers)
    && (r.ret >= 0 ==> r.ret == count && Exists(d, offset, count) && r.data == Bytes(d, offset, count))
    && (d.Answers() ==> r.dev.Answers() && (r.ret >= 0 <==> Exists(d, offset, count)) && (r.ret < 0 ==> r.ret == EIO))
  }

  lemma PieceReads(d: Device, sector: int, n: nat, at: nat, count: nat)
    requires d.Valid() && n > 0 && count > 0 && at < SECTOR && (n - 1) * SECTOR < at + count <= n * SECTOR
    ensures ReadsBytes(d, sector * SECTOR + at, count, Piece(d, sector, n, at, count))
  {
    hide Read;
    var r := Read(d, sector, n);
    PieceExists(d, sector, n, at, count);
    if r.ret >= 0 {
      var p := sector * SECTOR;
      assert d.image[p..p + n * SECTOR][at..at + count] == d.image[p + at..p + at + count];
    }
  }

  lemma PieceExists(d: Device, sector: int, n: nat, at: nat, count: nat)
    requires d.Valid() && n > 0 && count > 0 && at < SECTOR && (n - 1) * SECTOR < at + count <= n * SECTOR
    ensures d.InRange(sector, n) <==> Exists(d, sector * SECTOR + at, count)
  {
  }

  lemma JoinedReads(d: Device, offset: int, m: nat, n: nat, r: Result, q: Result)
    requires m > 0 && n > 0
    requires ReadsBytes(d, offset, m, r)
    requires r.ret >= 0 ==> ReadsBytes(r.dev, offset + m, n, q)
    ensures ReadsBytes(d, offset, m + n, if r.ret < 0 then r else Joined(r, q))
  {
    if r.ret >= 0 && q.ret >= 0 {
      assert d.image[offset..offset + m] + d.image[offset + m..offset + m + n] == d.image[offset..offset + m + n];
    }
  }

  lemma ReadRestFlat(d: Device, sector: int, count: nat)
    requires d.Valid()
    ensures ReadsBytes(d, sector * SECTOR, count, ReadRest(d, sector, count))
  {
    hide Piece, ReadsBytes, Joined;
    var n, tail := count / SECTOR, count % SECTOR;
    assert count == n * SECTOR + tail;
    if n == 0 && tail == 0 {
      NothingRead(d, sector * SECTOR, sector);
    } else if n == 0 {
      PieceReads(d, sector, 1, 0, tail);
    } else {
      var mid := Piece(d, sector, n, 0, n * SECTOR);
      PieceReads(d, sector, n, 0, n * SECTOR);
      if tail > 0 {
        PieceReads(mid.dev, sector + n, 1, 0, tail);
        JoinedReads(d, sector * SECTOR, n * SECTOR, tail, mid, Piece(mid.dev, sector + n, 1, 0, tail));
      }
    }
  }

  lemma NothingRead(d: Device, offset: int, sector: int)
    requires d.Valid()
    ensures ReadsBytes(d, offset, 0, ReadRest(d, sector, 0))
  {
  }

  /** bdrv_pread, through head, sectors and tail, reads the flat image. */
  lemma PreadFlat(d: Device, offset: int, count: nat)
    requires d.Valid()
    ensures ReadsBytes(d, offset, count, Pread(d, offset, count))
  {
    hide Piece, ReadsBytes, Joined, ReadRest;
    var len, sector := HeadLength(offset, count), offset / SECTOR;
    assert offset == sector * SECTOR + offset % SECTOR;
    if len == 0 {
      ReadRestFlat(d, sector, count);
      if count == 0 {
        NothingRead(d, offset, sector);
      }
    } else {
      var head := Piece(d, sector, 1, offset % SECTOR, len);
      PieceReads(d, sector, 1, offset % SECTOR, len);
      if len < count {
        ReadRestFlat(head.dev, sector + 1, count - len);
        JoinedReads(d, offset, len, count - len, head, ReadRest(head.dev, sector + 1, count - len));
      }
    }
  }

  // ---- writing is patching the flat image --------------------------------------------------------

  /** Sectors met by `count` bytes from `offset` on. */
  function Span(offset: nat, count: nat): nat {
    if count == 0 then 0 else (offset + count - 1) / SECTOR - offset / SECTOR + 1
  }

  /** From d to e the first k bytes of data were laid over the image, and the j
      sectors from that of `offset` on were marked, no less than those k bytes met
      and no more than all of data meets. */
  ghost predicate Wrote(d: Device, e: Device, offset: int, data: seq<byte>, k: nat, j: nat) {
    && k <= |data| && (j > 0 ==> 0 <= offset && j <= Span(offset, |data|))
    && e == d.(image := e.image, bits := e.bits, highest := e.highest, answers := e.answers)
    && if j == 0 then k == 0 && e == d.(answers := e.answers)
       else
         && 0 <= offset && offset / SECTOR + j <= d.sectors && Span(offset, k) <= j
         && offset + k <= |d.image| && e.image == Patched(d.image, offset, data[..k])
         && (d.bits.Some? ==> LastChunk(offset / SECTOR, j) < |d.bits.value|)
         && e.bits == Marked(d.bits, offset / SECTOR, j)
         && e.highest == Max(d.highest, offset / SECTOR + j - 1)
  }

  function Max(a: int, b: int): int {
    if a < b then b else a
  }

  /** r is the outcome of writing exactly those bytes over d: all of them with
      exactly the sectors they meet marked, or an error after a prefix of them;
      without driver failures, success exactly if the bytes exist. */
  ghost predicate WritesBytes(d: Device, offset: int, data: seq<byte>, r: Result) {
    && (exists k: nat, j: nat :: Wrote(d, r.dev, offset, data, k, j) && (r.ret >= 0 ==> Whole(d, offset, data, k, j)))
    && (d.Answers() && !d.readOnly ==>
          r.dev.Answers() && (r.ret >= 0 <==> Exists(d, offset, |data|)) && (r.ret < 0 ==> r.ret == EIO))
  }

  ghost predicate Whole(d: Device, offset: int, data: seq<byte>, k: nat, j: nat) {
    Exists(d, offset, |data|) && k == |data| && (if k == 0 then j == 0 else j == Span(offset, k))
  }

  lemma MarkedInRange(d: Device, sector: nat, n: nat)
    requires d.Valid() && n > 0 && d.InRange(sector, n)
    ensures d.bits.Some? ==> LastChunk(sector, n) < |d.bits.value|
  {
  }

  lemma WriteFlat(d: Device, sector: int, data: seq<byte>)
    requires d.Valid() && |data| > 0 && |data| % SECTOR == 0
    ensures WritesBytes(d, sector * SECTOR, data, Write(d, sector, data))
  {
    hide LastChunk, FirstChunk, Marked;
    var n, r := |data| / SECTOR, Write(d, sector, data);
    PieceExists(d, sector, n, 0, |data|);
    if d.inserted && !d.readOnly && d.InRange(sector, n) {
      MarkedInRange(d, sector, n);
      var k := if r.ret < 0 then 0 else |data|;
      assert data[..|data|] == data;
      assert Patched(d.image, sector * SECTOR, data[..0]) == d.image;
      assert Wrote(d, r.dev, sector * SECTOR, data, k, n);
    } else {
      assert Wrote(d, r.dev, sector * SECTOR, data, 0, 0);
    }
  }

  lemma PatchedSector(image: seq<byte>, p: nat, at: nat, data: seq<byte>)
    requires p + SECTOR <= |image| && at + |data| <= SECTOR
    ensures Patched(image, p, Patched(image[p..p + SECTOR], at, data)) == Patched(image, p + at, data)
  {
  }

  lemma UpdateFlat(d: Device, sector: int, at: nat, data: seq<byte>)
    requires d.Valid() && |data| > 0 && at + |data| <= SECTOR
    ensures WritesBytes(d, sector * SECTOR + at, data, Update(d, sector, at, data))
  {
    hide LastChunk, FirstChunk, Marked, Read;
    var was, r := Read(d, sector, 1), Update(d, sector, at, data);
    PieceExists(d, sector, 1, at, |data|);
    var p := sector * SECTOR;
    if d.inserted && !d.readOnly && was.ret >= 0 {
      PatchedSector(d.image, p, at, data);
      MarkedInRange(d, sector, 1);
      var k := if r.ret < 0 then 0 else |data|;
      assert data[..|data|] == data;
      assert Patched(d.image, p + at, data[..0]) == d.image;
      assert (p + at) / SECTOR == sector;
      assert Wrote(d, r.dev, p + at, data, k, 1);
    } else {
      assert Wrote(d, r.dev, p + at, data, 0, 0);
    }
  }

  lemma PatchedTwice(image: seq<byte>, p: nat, x: seq<byte>, y: seq<byte>)
    requires p + |x| + |y| <= |image|
    ensures Patched(Patched(image, p, x), p + |x|, y) == Patched(image, p, x + y)
  {
  }

  lemma MarkedTwice(bits: Option<seq<bool>>, s: nat, m: nat, n: nat)
    requires m > 0 && n > 0
    requires bits.Some? ==> LastChunk(s, m) < |bits.value| && LastChunk(s + m, n) < |bits.value|
    ensures Marked(Marked(bits, s, m), s + m, n) == Marked(bits, s, m + n)
  {
    if bits.Some? {
      assert Marked(Marked(bits, s, m), s + m, n).value == Marked(bits, s, m + n).value;
    }
  }

  lemma Spans(offset: nat, m: nat, k: nat)
    requires m > 0 && (offset + m) % SECTOR == 0
    ensures (offset + m) / SECTOR == offset / SECTOR + Span(offset, m)
    ensures Span(offset, m + k) == Span(offset, m) + Span(offset + m, k)
  {
  }

  lemma WroteThenWrote(d: Device, e: Device, f: Device, offset: nat, x: seq<byte>, y: seq<byte>, k: nat, j: nat)
    requires |x| > 0 && (offset + |x|) % SECTOR == 0
    requires Wrote(d, e, offset, x, |x|, Span(offset, |x|))
    requires Wrote(e, f, offset + |x|, y, k, j)
    ensures Wrote(d, f, offset, x + y, |x| + k, Span(offset, |x|) + j)
  {
    hide LastChunk, FirstChunk, Marked, Span;
    Spans(offset, |x|, k);
    Spans(offset, |x|, |y|);
    SpanGrows(offset, |x|, |x + y|);
    assert Span(offset, |x|) > 0 by { SpanPositive(offset, |x|); }
    assert x[..|x|] == x;
    assert (x + y)[..|x| + k] == x + y[..k];
    if j == 0 {
      assert y[..0] == [];
      SpanZero(offset + |x|);
    } else {
      PatchedTwice(d.image, offset, x, y[..k]);
      MarkedTwice(d.bits, offset / SECTOR, Span(offset, |x|), j);
      LastOfBoth(offset / SECTOR, Span(offset, |x|), j);
    }
  }

  lemma SpanPositive(offset: nat, m: nat)
    requires m > 0
    ensures Span(offset, m) > 0
  {
  }

  lemma SpanGrows(offset: nat, m: nat, n: nat)
    requires m <= n
    ensures Span(offset, m) <= Span(offset, n)
  {
  }

  lemma SpanZero(offset: nat)
    ensures Span(offset, 0) == 0
  {
  }

  lemma LastOfBoth(s: nat, m: nat, n: nat)
    ensures LastChunk(s, m + n) == LastChunk(s + m, n)
  {
  }

  lemma JoinedWrites(d: Device, offset: int, x: seq<byte>, y: seq<byte>, r: Result, q: Result)
    requires |x| > 0 && |y| > 0 && (offset + |x|) % SECTOR == 0
    requires WritesBytes(d, offset, x, r)
    requires r.ret >= 0 ==> WritesBytes(r.dev, offset + |x|, y, q)
    ensures WritesBytes(d, offset, x + y, if r.ret < 0 then r else q)
  {
    hide Wrote, Span;
    var k: nat, j: nat :| Wrote(d, r.dev, offset, x, k, j) && (r.ret >= 0 ==> Whole(d, offset, x, k, j));
    SameDevice(d, r.dev, offset, x, k, j);
    if r.ret < 0 {
      WrotePrefix(d, r.dev, offset, x, y, k, j);
    } else {
      var e := r.dev;
      var k2: nat, j2: nat :| Wrote(e, q.dev, offset + |x|, y, k2, j2) &&
                              (q.ret >= 0 ==> Whole(e, offset + |x|, y, k2, j2));
      WroteThenWrote(d, e, q.dev, offset, x, y, k2, j2);
      Spans(offset, |x|, k2);
    }
  }

  lemma SameDevice(d: Device, e: Device, offset: int, data: seq<byte>, k: nat, j: nat)
    requires Wrote(d, e, offset, data, k, j)
    ensures |e.image| == |d.image| && e.readOnly == d.readOnly && e.sectors == d.sectors
  {
  }

  lemma WrotePrefix(d: Device, e: Device, offset: int, x: seq<byte>, y: seq<byte>, k: nat, j: nat)
    requires Wrote(d, e, offset, x, k, j)
    ensures Wrote(d, e, offset, x + y, k, j)
  {
    hide LastChunk, FirstChunk, Marked, Span;
    assert (x + y)[..k] == x[..k];
    if j > 0 {
      SpanGrows(offset, |x|, |x + y|);
    }
  }

  lemma NothingWritten(d: Device, offset: int, sector: int)
    requires d.Valid()
    ensures WritesBytes(d, offset, [], WriteRest(d, sector, []))
  {
    assert Wrote(d, d, offset, [], 0, 0);
  }

  lemma WriteRestFlat(d: Device, sector: int, data: seq<byte>)
    requires d.Valid()
    ensures WritesBytes(d, sector * SECTOR, data, WriteRest(d, sector, data))
  {
    hide Write, Update, WritesBytes;
    var n, tail := |data| / SECTOR, |data| % SECTOR;
    if data == [] {
      NothingWritten(d, sector * SECTOR, sector);
    } else if n == 0 {
      UpdateFlat(d, sector, 0, data);
    } else {
      var x, y := data[..n * SECTOR], data[n * SECTOR..];
      assert data == x + y;
      var mid := Write(d, sector, x);
      WriteFlat(d, sector, x);
      if tail == 0 {
        assert x == data;
      } else {
        UpdateFlat(mid.dev, sector + n, 0, y);
        JoinedWrites(d, sector * SECTOR, x, y, mid, Update(mid.dev, sector + n, 0, y));
      }
    }
  }

  /** bdrv_pwrite, through head, sectors and tail, patches the flat image. */
  lemma PwriteFlat(d: Device, offset: int, data: seq<byte>)
    requires d.Valid()
    ensures WritesBytes(d, offset, data, Pwrite(d, offset, data))
    ensures Pwrite(d, offset, data).ret >= 0 ==> Pwrite(d, offset, data).ret == |data|
  {
    hide Update, WriteRest, Wrote, Whole;
    var len, sector := HeadLength(offset, |data|), offset / SECTOR;
    if len == 0 {
      WriteRestFlat(d, sector, data);
      if data == [] {
        NothingWritten(d, offset, sector);
      }
    } else {
      var x, y := data[..len], data[len..];
      assert data == x + y;
      var head := Update(d, sector, offset % SECTOR, x);
      UpdateFlat(d, sector, offset % SECTOR, x);
      if len == |data| {
        assert x == data;
      } else {
        WriteRestFlat(head.dev, sector + 1, y);
        JoinedWrites(d, offset, x, y, head, WriteRest(head.dev, sector + 1, y));
      }
    }
  }

  // ---- what follows for a caller ------------------------------------------------------------------

  // ---- what is refused ------------------------------------------------------------------------

  /** The result of a sector request: no medium (-123), a read-only device (-13), a
      range outside the device (-5), or what the driver answers. */
  lemma SectorResults(d: Device, sector: int, n: nat, data: seq<byte>)
    requires d.Valid() && |data| == n * SECTOR && n > 0
    ensures Read(d, sector, n).ret == if !d.inserted then -123 else if !d.InRange(sector, n) then -5 else NextAnswer(d)
    ensures Write(d, sector, data).ret ==
              if !d.inserted then -123 else if d.readOnly then -13 else if !d.InRange(sector, n) then -5 else NextAnswer(d)
    ensures !d.inserted || d.readOnly || !d.InRange(sector, n) ==> Write(d, sector, data).dev == d
    ensures NextAnswer(d) == if |d.answers| == 0 then 0 else d.answers[0]
    ensures d.inserted && d.InRange(sector, n) && d.answers != [] ==> Read(d, sector, n).dev.answers == d.answers[1..]
    ensures d.inserted && d.InRange(sector, n) && d.answers != [] && !d.readOnly ==>
              Write(d, sector, data).dev.answers == d.answers[1..]
  {
  }

  /** A write to a read-only device leaves image, marks and high-water mark as they
      were; without driver failures it gives -EACCES, unless the sector that has to be
      read first does not exist. */
  lemma ReadOnlyKept(d: Device, offset: int, data: seq<byte>)
    requires d.Valid() && d.readOnly && data != []
    ensures var r := Pwrite(d, offset, data);
            && r.dev == d.(answers := r.dev.answers) && r.ret < 0
            && (d.Answers() ==>
                  r.ret == if (offset % SECTOR == 0 && |data| >= SECTOR) || d.InRange(offset / SECTOR, 1) then -13 else -5)
  {
    hide Patched, Marked;
  }

  /** Without a medium nothing happens and every request of at least one byte gives -ENOMEDIUM. */
  lemma NoMedium(d: Device, offset: int, data: seq<byte>)
    requires d.Valid() && !d.inserted && data != []
    ensures Pwrite(d, offset, data).dev == d && Pwrite(d, offset, data).ret == -123
    ensures Pread(d, offset, |data|).dev == d && Pread(d, offset, |data|).ret == -123
  {
    hide Patched, Marked;
  }

  /** After any bdrv_pwrite, finished or failed: nothing outside the range changed,
      every changed byte lies in a chunk now marked, and no mark was lost. */
  lemma ChangedIsDirty(d: Device, offset: int, data: seq<byte>, i: nat)
    requires d.Valid() && i < |d.image|
    ensures var e := Pwrite(d, offset, data).dev;
            && |e.image| == |d.image|
            && (e.image[i] != d.image[i] ==> offset <= i < offset + |data|)
            && (e.bits.Some? <==> d.bits.Some?)
            && (e.bits.Some? ==> var c := i / SECTOR / SECTORS_PER_CHUNK;
                                 c < |d.bits.value| == |e.bits.value| &&
                                 (d.bits.value[c] || e.image[i] != d.image[i] ==> e.bits.value[c]))
  {
    hide Pwrite;
    PwriteFlat(d, offset, data);
    var e := Pwrite(d, offset, data).dev;
    var k: nat, j: nat :| Wrote(d, e, offset, data, k, j);
    if e.image[i] != d.image[i] && e.bits.Some? {
      SectorOfByte(offset, k, i);
    }
  }

  lemma SectorOfByte(offset: nat, k: nat, i: nat)
    requires offset <= i < offset + k
    ensures offset / SECTOR <= i / SECTOR < offset / SECTOR + Span(offset, k)
  {
  }

  /** What bdrv_pwrite wrote is what bdrv_pread reads back. */
  lemma ReadBack(d: Device, offset: int, data: seq<byte>)
    requires d.Valid()
    requires Pwrite(d, offset, data).ret >= 0
    ensures var r := Pread(Pwrite(d, offset, data).dev, offset, |data|);
            && (r.ret >= 0 ==> r.data == data)
            && (Pwrite(d, offset, data).dev.Answers() ==> r.ret == |data|)
  {
    hide Pwrite, Pread;
    PwriteFlat(d, offset, data);
    var e := Pwrite(d, offset, data).dev;
    PreadFlat(e, offset, |data|);
    assert data[..|data|] == data;
  }

  // ---- the code ------------------------------------------------------------------------------------

  function Chunks(sectors: nat): (n: nat)
    ensures sectors <= n * SECTORS_PER_CHUNK < sectors + SECTORS_PER_CHUNK
  {
    (sectors + SECTORS_PER_CHUNK - 1) / SECTORS_PER_CHUNK
  }

  function Words(sectors: nat): (n: nat)
    ensures sectors <= BITS * n * SECTORS_PER_CHUNK
    ensures Chunks(sectors) <= BITS * n < Chunks(sectors) + BITS
  {
    (Chunks(sectors) + BITS - 1) / BITS
  }

  class BlockDevice {
    const image: array<byte>
    const sectors: nat
    const inserted: bool
    const readOnly: bool
    var bitmap: Bitmap?
    var wrHighestSector: int
    var answers: seq<int>

    ghost predicate Valid()
      reads this
    {
      && image.Length == sectors * SECTOR
      && (bitmap != null ==> sectors <= BITS * bitmap.words.Length * SECTORS_PER_CHUNK)
    }

    ghost function Marks(): set<object>
      reads this
    {
      if bitmap == null then {} else {bitmap, bitmap.words}
    }

    ghost function Abs(): (d: Device)
      requires Valid()
      reads this, image, Marks()
      ensures d.Valid()
    {
      Device(image[..], sectors, if bitmap == null then None else Some(bitmap.Bits()), wrHighestSector,
             answers, inserted, readOnly)
    }

    /** How far the count of dirty chunks is off; every operation keeps this. */
    ghost function CountError(): int
      reads this, Marks()
    {
      if bitmap == null then 0 else bitmap.dirtyCount - CountSet(bitmap.Bits())
    }

    constructor (image: array<byte>, sectors: nat, inserted: bool, readOnly: bool, answers: seq<int>)
      requires image.Length == sectors * SECTOR
      ensures Valid() && Abs() == Device(image[..], sectors, None, 0, answers, inserted, readOnly)
      ensures this.image == image && bitmap == null
    {
      this.image, this.sectors, this.inserted, this.readOnly := image, sectors, inserted, readOnly;
      this.answers, wrHighestSector, bitmap := answers, 0, null;
    }

    /** The tracking state: the bits, and the count of dirty chunks. */
    ghost function Track(): Tracking
      requires Valid()
      reads this, image, Marks()
    {
      Tracking(Abs().bits, if bitmap == null then 0 else bitmap.dirtyCount)
    }

    /** bdrv_set_dirty_tracking; the bitmap is allocated in whole words. */
    method SetDirtyTracking(enable: bool)
      requires Valid()
      modifies this`bitmap, Marks()
      ensures Valid() && Track() == Switched(old(Track()), enable, BITS * Words(sectors))
      ensures Abs() == old(Abs()).(bits := Track().bits)
    {
      hide Flat;
      if !enable {
        bitmap := null;
      } else if bitmap == null {
        bitmap := new Bitmap(Chunks(sectors));
        assert bitmap.Bits() == seq(BITS * Words(sectors), i => false);
      } else {
        bitmap.dirtyCount := 0;
      }
    }

    /** bdrv_get_dirty: whether tracking is on and the sector's chunk is marked. */
    method GetDirty(sector: nat) returns (r: bool)
      requires Valid()
      ensures r <==> Abs().bits.Some? && sector < sectors && Abs().bits.value[FirstChunk(sector)]
    {
      if bitmap == null {
        return false;
      }
      r := TestChunk(bitmap.words, sector, sectors);
    }

    /** bdrv_reset_dirty, which needs a bitmap. */
    method ResetDirty(sector: nat, n: nat)
      requires Valid() && bitmap != null && LastChunk(sector, n) < BITS * bitmap.words.Length
      modifies bitmap`dirtyCount, bitmap.words
      ensures Valid() && CountError() == old(CountError())
      ensures var bits := old(Abs()).bits.value;
              Abs() == old(Abs()).(bits := Some(Filled(bits, FirstChunk(sector), LastChunk(sector, n), false)))
    {
      hide CountSet, Filled;
      bitmap.SetDirtyBitmap(sector, n, false);
    }

    /** bdrv_check_request, in bytes. */
    method CheckRequest(sector: int, n: nat) returns (ret: int)
      requires Valid()
      ensures ret == if !inserted then ENOMEDIUM else if Abs().InRange(sector, n) then 0 else EIO
    {
      var offset, size := sector * SECTOR, n * SECTOR;
      if !inserted {
        return ENOMEDIUM;
      }
      var len := sectors * SECTOR;
      if offset < 0 {
        return EIO;
      }
      if offset > len || len - offset < size {
        return EIO;
      }
      ret := 0;
    }

    /** The driver's answer to one request. */
    method AskDriver() returns (ret: int)
      requires Valid()
      modifies this`answers
      ensures Valid() && ret == NextAnswer(old(Abs())) && Abs() == Later(old(Abs()))
    {
      ret := 0;
      if answers != [] {
        ret := answers[0];
        answers := answers[1..];
      }
    }

    /** The driver's own read: all of the data, or a failure. */
    method DriverRead(sector: nat, buf: array<byte>, at: nat, n: nat) returns (ret: int)
      requires Valid() && buf != image && Abs().InRange(sector, n) && at + n * SECTOR <= buf.Length
      modifies this`answers, buf
      ensures Valid() && ret == NextAnswer(old(Abs())) && Abs() == Later(old(Abs()))
      ensures buf[..] == if ret < 0 then old(buf[..])
                         else Patched(old(buf[..]), at, image[sector * SECTOR..(sector + n) * SECTOR])
    {
      ghost var was := buf[..];
      ret := AskDriver();
      if ret >= 0 {
        forall i | 0 <= i < n * SECTOR { buf[at + i] := image[sector * SECTOR + i]; }
        assert buf[..] == Patched(was, at, image[sector * SECTOR..(sector + n) * SECTOR]);
      }
    }

    /** bdrv_read into the caller's buffer. */
    method ReadSectors(sector: int, buf: array<byte>, at: nat, n: nat) returns (ret: int)
      requires Valid() && buf != image && at + n * SECTOR <= buf.Length
      modifies this`answers, buf
      ensures Valid()
      ensures var r := Read(old(Abs()), sector, n);
              && ret == r.ret && Abs() == r.dev
              && buf[..] == (if ret < 0 then old(buf[..]) else Patched(old(buf[..]), at, r.data))
    {
      hide Patched;
      if !inserted {
        return ENOMEDIUM;
      }
      var bad := CheckRequest(sector, n);
      if bad != 0 {
        return EIO;
      }
      ret := DriverRead(sector, buf, at, n);
    }

    /** The marks and the high-water mark of a write. */
    method NoteWrite(sector: nat, n: nat)
      requires Valid() && n > 0 && Abs().InRange(sector, n)
      requires bitmap != null ==> LastChunk(sector, n) < BITS * bitmap.words.Length
      modifies this`wrHighestSector, Marks()
      ensures Valid() && bitmap == old(bitmap) && CountError() == old(CountError())
      ensures var d := old(Abs());
              Abs() == d.(bits := Marked(d.bits, sector, n), highest := Max(d.highest, sector + n - 1))
    {
      hide LastChunk, FirstChunk, Filled, CountSet;
      if bitmap != null {
        bitmap.SetDirtyBitmap(sector, n, true);
      }
      if wrHighestSector < sector + n - 1 {
        wrHighestSector := sector + n - 1;
      }
    }

    /** The driver's own write: all of the data, or a failure. */
    method DriverWrite(sector: nat, buf: array<byte>, at: nat, n: nat) returns (ret: int)
      requires Valid() && buf != image && Abs().InRange(sector, n) && at + n * SECTOR <= buf.Length
      modifies this`answers, image
      ensures Valid() && ret == NextAnswer(old(Abs()))
      ensures Abs() == Later(old(Abs())).(image :=
                if ret < 0 then old(image[..]) else Patched(old(image[..]), sector * SECTOR, buf[at..at + n * SECTOR]))
    {
      ghost var was := image[..];
      ret := AskDriver();
      if ret >= 0 {
        forall i | 0 <= i < n * SECTOR { image[sector * SECTOR + i] := buf[at + i]; }
        assert image[..] == Patched(was, sector * SECTOR, buf[at..at + n * SECTOR]);
      }
    }

    /** bdrv_write from the caller's buffer. */
    method WriteSectors(sector: int, buf: array<byte>, at: nat, n: nat) returns (ret: int)
      requires Valid() && buf != image && n > 0 && at + n * SECTOR <= buf.Length
      modifies this`answers, this`wrHighestSector, image, Marks()
      ensures Valid() && bitmap == old(bitmap) && CountError() == old(CountError())
      ensures var r := Write(old(Abs()), sector, buf[at..at + n * SECTOR]);
              ret == r.ret && Abs() == r.dev
    {
      hide LastChunk, Patched, Marked, CountSet;
      if !inserted {
        return ENOMEDIUM;
      }
      if readOnly {
        return EACCES;
      }
      var bad := CheckRequest(sector, n);
      if bad != 0 {
        return EIO;
      }
      MarkedInRange(Abs(), sector, n);
      NoteWrite(sector, n);
      ret := DriverWrite(sector, buf, at, n);
    }

    /** Part of one sector, through a temporary buffer. */
    method ReadThrough(sector: int, from: nat, buf: array<byte>, at: nat, len: nat) returns (ret: int)
      requires Valid() && buf != image && from + len <= SECTOR && at + len <= buf.Length
      modifies this`answers, buf
      ensures Valid()
      ensures var r := Piece(old(Abs()), sector, 1, from, len);
              && ret == r.ret && Abs() == r.dev
              && (ret >= 0 ==> buf[..] == Patched(old(buf[..]), at, r.data))
    {
      hide Read, Patched;
      var tmp := new byte[SECTOR];
      ghost var was, blank := Read(Abs(), sector, 1), tmp[..];
      ret := ReadSectors(sector, tmp, 0, 1);
      if ret >= 0 {
        PatchedAll(blank, was.data);
        Overlay(buf, at, tmp, from, len);
        ret := len;
      }
    }

    /** Whole sectors, directly into the buffer. */
    method ReadInPlace(sector: int, n: nat, buf: array<byte>, at: nat) returns (ret: int)
      requires Valid() && buf != image && at + n * SECTOR <= buf.Length
      modifies this`answers, buf
      ensures Valid()
      ensures var r := Piece(old(Abs()), sector, n, 0, n * SECTOR);
              && ret == r.ret && Abs() == r.dev
              && (ret >= 0 ==> buf[..] == Patched(old(buf[..]), at, r.data))
    {
      hide Read, Patched;
      ghost var r := Read(Abs(), sector, n);
      ret := ReadSectors(sector, buf, at, n);
      if ret >= 0 {
        assert r.data[0..n * SECTOR] == r.data;
        ret := n * SECTOR;
      }
    }

    /** The sectors read in place and the last, partial one, into buf[at..]. */
    method ReadFromBoundary(sector: int, buf: array<byte>, at: nat) returns (ret: int)
      requires Valid() && buf != image && at <= buf.Length
      modifies this`answers, buf
      ensures Valid()
      ensures var r := ReadRest(old(Abs()), sector, buf.Length - at);
              && ret == r.ret && Abs() == r.dev
              && (ret >= 0 ==> buf[..] == Patched(old(buf[..]), at, r.data))
    {
      hide Piece, Patched;
      var n, tail := (buf.Length - at) / SECTOR, (buf.Length - at) % SECTOR;
      ghost var d, was := Abs(), buf[..];
      if n == 0 {
        if tail > 0 {
          ret := ReadThrough(sector, 0, buf, at, tail);
        } else {
          ret := 0;
          PatchedNothing(was, at);
        }
        return;
      }
      ret := ReadInPlace(sector, n, buf, at);
      if ret < 0 || tail == 0 {
        return;
      }
      ghost var mid := Piece(d, sector, n, 0, n * SECTOR);
      ret := ReadThrough(sector + n, 0, buf, at + n * SECTOR, tail);
      if ret >= 0 {
        PatchedTwice(was, at, mid.data, Piece(mid.dev, sector + n, 1, 0, tail).data);
        ret := n * SECTOR + tail;
      }
    }

    /** bdrv_pread: the caller's buffer is as long as the count. */
    method ReadBytes(offset: int, buf: array<byte>) returns (ret: int)
      requires Valid() && buf != image
      modifies this`answers, buf
      ensures Valid()
      ensures var r := Pread(old(Abs()), offset, buf.Length);
              ret == r.ret && Abs() == r.dev && (ret >= 0 ==> buf[..] == r.data)
    {
      hide Piece, ReadRest, Patched;
      var len := (SECTOR - offset) % SECTOR;
      if len > buf.Length {
        len := buf.Length;
      }
      var sector := offset / SECTOR;
      ghost var d, was := Abs(), buf[..];
      if len == 0 {
        ret := ReadFromBoundary(sector, buf, 0);
        if ret >= 0 {
          PatchedAll(was, ReadRest(d, sector, buf.Length).data);
        }
        return;
      }
      ret := ReadThrough(sector, offset % SECTOR, buf, 0, len);
      ghost var head := Piece(d, sector, 1, offset % SECTOR, len);
      if ret < 0 || len == buf.Length {
        if ret >= 0 {
          PatchedAll(was, head.data);
        }
        return;
      }
      ret := ReadFromBoundary(sector + 1, buf, len);
      if ret >= 0 {
        ghost var rest := ReadRest(head.dev, sector + 1, buf.Length - len);
        PatchedTwice(was, 0, head.data, rest.data);
        PatchedAll(was, head.data + rest.data);
        ret := buf.Length;
      }
    }

    /** Read one sector, lay bytes of the buffer over it, write it back. */
    method UpdateSector(sector: int, from: nat, buf: array<byte>, at: nat, len: nat) returns (ret: int)
      requires Valid() && buf != image && from + len <= SECTOR && at + len <= buf.Length
      modifies this`answers, this`wrHighestSector, image, Marks()
      ensures Valid() && bitmap == old(bitmap) && CountError() == old(CountError())
      ensures var r := Update(old(Abs()), sector, from, buf[at..at + len]);
              ret == r.ret && Abs() == r.dev
    {
      hide Read, Write, Patched, CountSet, Flat;
      var tmp := new byte[SECTOR];
      ghost var was, blank := Read(Abs(), sector, 1), tmp[..];
      ret := ReadSectors(sector, tmp, 0, 1);
      if ret < 0 {
        return;
      }
      PatchedAll(blank, was.data);
      Overlay(tmp, from, buf, at, len);
      assert tmp[0..1 * SECTOR] == tmp[..];
      ret := WriteSectors(sector, tmp, 0, 1);
    }

    static method Overlay(tmp: array<byte>, from: nat, buf: array<byte>, at: nat, len: nat)
      requires tmp != buf && from + len <= tmp.Length && at + len <= buf.Length
      modifies tmp
      ensures tmp[..] == Patched(old(tmp[..]), from, buf[at..at + len])
    {
      forall i | 0 <= i < len { tmp[from + i] := buf[at + i]; }
    }

    /** The sectors written in place and the last, partial one, from buf[at..]. */
    method WriteFromBoundary(sector: int, buf: array<byte>, at: nat) returns (ret: int)
      requires Valid() && buf != image && at <= buf.Length
      modifies this`answers, this`wrHighestSector, image, Marks()
      ensures Valid() && bitmap == old(bitmap) && CountError() == old(CountError())
      ensures var r := WriteRest(old(Abs()), sector, buf[at..]);
              ret == r.ret && Abs() == r.dev
    {
      hide Write, Update, CountSet;
      ghost var data := buf[at..];
      var n, tail := (buf.Length - at) / SECTOR, (buf.Length - at) % SECTOR;
      if n == 0 {
        ret := 0;
        if tail > 0 {
          assert buf[at..at + tail] == data;
          ret := UpdateSector(sector, 0, buf, at, tail);
        }
        return;
      }
      assert buf[at..at + n * SECTOR] == data[..n * SECTOR];
      ret := WriteSectors(sector, buf, at, n);
      if ret < 0 || tail == 0 {
        return;
      }
      assert buf[at + n * SECTOR..at + n * SECTOR + tail] == data[n * SECTOR..];
      ret := UpdateSector(sector + n, 0, buf, at + n * SECTOR, tail);
    }

    /** bdrv_pwrite: the caller's buffer is as long as the count. */
    method WriteBytes(offset: int, buf: array<byte>) returns (ret: int)
      requires Valid() && buf != image
      modifies this`answers, this`wrHighestSector, image, Marks()
      ensures Valid() && bitmap == old(bitmap) && CountError() == old(CountError())
      ensures var r := Pwrite(old(Abs()), offset, buf[..]);
              ret == r.ret && Abs() == r.dev
    {
      hide Update, WriteRest, CountSet;
      var len := (SECTOR - offset) % SECTOR;
      if len > buf.Length {
        len := buf.Length;
      }
      var sector := offset / SECTOR;
      if len > 0 {
        assert buf[0..len] == buf[..][..len];
        ret := UpdateSector(sector, offset % SECTOR, buf, 0, len);
        if ret < 0 {
          return;
        }
        if len == buf.Length {
          return buf.Length;
        }
        sector := sector + 1;
      }
      assert buf[len..] == buf[..][len..];
      assert len == 0 ==> buf[len..] == buf[..];
      ret := WriteFromBoundary(sector, buf, len);
      if ret >= 0 {
        ret := buf.Length;
      }
    }
  }

  lemma PatchedAll(image: seq<byte>, data: seq<byte>)
    requires |data| == |image|
    ensures Patched(image, 0, data) == data
  {
  }

  lemma PatchedNothing(image: seq<byte>, at: nat)
    requires at <= |image|
    ensures Patched(image, at, []) == image
  {
  }
}
