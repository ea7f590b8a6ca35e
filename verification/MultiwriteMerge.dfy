/**
 multiwrite_merge: sorted write requests are merged when they touch or overlap, or
 when the driver asks for it across a gap. What the merged list does to a disk,
 and exactly which bytes it loses.
 */
module MultiwriteMerge {
  import opened Wire
  import opened IoVector

  const IOV_MAX := 1024

  datatype Req = Req(sector: nat, nb: nat, iov: Iov)

  /** bdrv_merge_requests: the driver's wish, from the two requests' sectors. */
  type Hook = (nat, nat, nat, nat) -> bool

  type Disk = int -> byte

  function Start(r: Req): nat { 512 * r.sector }

  function End(r: Req): nat { Start(r) + |Bytes(r.iov)| }

  /** The vector's size matches the sector count. */
  predicate WellFormed(r: Req) {
    |Bytes(r.iov)| == 512 * r.nb
  }

  predicate Covers(r: Req, x: int) {
    Start(r) <= x < End(r)
  }

  function At(r: Req, x: int): byte
    requires Covers(r, x)
  {
    Bytes(r.iov)[x - Start(r)]
  }

  /** The byte at x after the requests have been applied to d one by one. */
  function Read(reqs: seq<Req>, d: Disk, x: int): byte {
    if reqs == [] then d(x)
    else if Covers(reqs[|reqs| - 1], x) then At(reqs[|reqs| - 1], x)
    else Read(reqs[..|reqs| - 1], d, x)
  }

  lemma ReadSnoc(reqs: seq<Req>, r: Req, d: Disk, x: int)
    ensures Read(reqs + [r], d, x) == if Covers(r, x) then At(r, x) else Read(reqs, d, x)
  {
    assert (reqs + [r])[..|reqs|] == reqs;
  }

  // ---- merging two requests ----------------------------------------------------

  predicate Merges(hook: Hook, a: Req, b: Req) {
    && (b.sector <= a.sector + a.nb || hook(a.sector, a.nb, b.sector, b.nb))
    && |a.iov| + |b.iov| + 1 <= IOV_MAX
  }

  function Zeros(n: nat): seq<byte> {
    seq(n, i => 0)
  }

  /** The buffers of the merged request: the first, cut where the second starts,
      zeros where there is a gap, the second. */
  function JoinedIov(a: Req, b: Req): Iov
    requires a.sector <= b.sector
  {
    Copied(a.iov, 0, 512 * (b.sector - a.sector)) +
    (if b.sector > a.sector + a.nb then [Zeros(512 * (b.sector - a.sector - a.nb))] else []) +
    Copied(b.iov, 0, |Bytes(b.iov)|)
  }

  function Joined(a: Req, b: Req): Req
    requires a.sector <= b.sector
  {
    Req(a.sector, |Bytes(JoinedIov(a, b))| / 512, JoinedIov(a, b))
  }

  lemma JoinedBytes(a: Req, b: Req)
    requires a.sector <= b.sector && WellFormed(a)
    ensures var cut := Min(Start(b) - Start(a), |Bytes(a.iov)|);
            Bytes(JoinedIov(a, b)) == Bytes(a.iov)[..cut] + Zeros(Start(b) - Start(a) - cut) + Bytes(b.iov)
    ensures |JoinedIov(a, b)| <= |a.iov| + |b.iov| + 1
  {
    hide Copied, Bytes;
    var first := Copied(a.iov, 0, 512 * (b.sector - a.sector));
    var second := Copied(b.iov, 0, |Bytes(b.iov)|);
    var n := Start(b) - Start(a) - Min(Start(b) - Start(a), |Bytes(a.iov)|);
    var gap: Iov := if b.sector > a.sector + a.nb then [Zeros(n)] else [];
    CopiedBytes(a.iov, 0, 512 * (b.sector - a.sector));
    CopiedBytes(b.iov, 0, |Bytes(b.iov)|);
    BytesAppend(first + gap, second);
    BytesAppend(first, gap);
    assert Bytes(gap) == Zeros(n) by { BytesOfOne(Zeros(n)); BytesOfNone(); }
    assert Bytes(b.iov)[0..|Bytes(b.iov)|] == Bytes(b.iov);
  }

  lemma BytesOfOne(x: seq<byte>)
    ensures Bytes([x]) == x
  {
  }

  lemma BytesOfNone()
    ensures Bytes([]) == Zeros(0)
  {
  }

  /** The merged request byte by byte; it is as long as its sector count says. */
  lemma JoinedAt(a: Req, b: Req)
    requires a.sector <= b.sector && WellFormed(a) && WellFormed(b)
    ensures var j := Joined(a, b);
            && WellFormed(j) && Start(j) == Start(a) && End(j) == End(b)
            && |j.iov| <= |a.iov| + |b.iov| + 1
            && forall x :: Covers(j, x) ==>
                 At(j, x) == if x >= Start(b) then At(b, x) else if x < End(a) then At(a, x) else 0
  {
    hide JoinedIov, Bytes;
    JoinedBytes(a, b);
  }

  // ---- the whole list -------------------------------------------------------------

  /** multiwrite_merge behind its sort: cur is reqs[outidx], rest is still to come. */
  function Merge(hook: Hook, cur: Req, rest: seq<Req>): seq<Req>
    requires Sorted(cur, rest)
    decreases |rest|
  {
    if rest == [] then [cur]
    else if Merges(hook, cur, rest[0]) then
      SortedJoined(cur, rest[0], rest[1..]);
      Merge(hook, Joined(cur, rest[0]), rest[1..])
    else [cur] + Merge(hook, rest[0], rest[1..])
  }

  predicate Sorted(cur: Req, rest: seq<Req>)
    decreases |rest|
  {
    rest == [] || (cur.sector <= rest[0].sector && Sorted(rest[0], rest[1..]))
  }

  lemma SortedJoined(cur: Req, b: Req, rest: seq<Req>)
    requires cur.sector <= b.sector && Sorted(b, rest)
    ensures Sorted(Joined(cur, b), rest)
  {
  }

  /** The loss at byte x. covered: an earlier request wrote x. under, lost: what
      the finished requests alone, and together with cur, show at x is not what
      the earlier requests left there. A merge takes x away from cur when the
      second request ends in front of x, and covers x with zeros in a gap. */
  predicate LostAt(hook: Hook, x: int, cur: Req, rest: seq<Req>, covered: bool, under: bool, lost: bool)
    requires Sorted(cur, rest)
    decreases |rest|
  {
    if rest == [] then lost
    else
      var b, c := rest[0], Covers(rest[0], x);
      if Merges(hook, cur, b) then
        SortedJoined(cur, b, rest[1..]);
        LostAt(hook, x, Joined(cur, b), rest[1..], covered || c, under || c,
               LostByJoin(x, cur, b, covered, under, lost))
      else LostAt(hook, x, b, rest[1..], covered || c, lost || c, lost && !c)
  }

  predicate LostByJoin(x: int, cur: Req, b: Req, covered: bool, under: bool, lost: bool) {
    if Covers(b, x) then false
    else if x >= Start(b) then under
    else if x >= End(cur) then covered
    else lost
  }

  /** A gap the driver wants merged reads as zeros on the disk. */
  ghost predicate GapSafe(hook: Hook, d: Disk) {
    forall s: nat, n: nat, s': nat, n': nat :: hook(s, n, s', n') ==> ZeroBetween(d, 512 * (s + n), 512 * s')
  }

  ghost predicate ZeroBetween(d: Disk, lo: int, hi: int) {
    forall x :: lo <= x < hi ==> d(x) == 0
  }

  predicate AllWellFormed(reqs: seq<Req>) {
    forall r <- reqs :: WellFormed(r)
  }

  ghost predicate Touched(reqs: seq<Req>, x: int) {
    exists r <- reqs :: Covers(r, x)
  }

  lemma {:induction false} Untouched(reqs: seq<Req>, d: Disk, x: int)
    requires !Touched(reqs, x)
    ensures Read(reqs, d, x) == d(x)
    decreases |reqs|
  {
    if reqs != [] {
      Untouched(reqs[..|reqs| - 1], d, x);
    }
  }

  lemma TouchedSnoc(reqs: seq<Req>, b: Req, x: int)
    ensures Touched(reqs + [b], x) <==> Touched(reqs, x) || Covers(b, x)
  {
    assert forall r :: r in reqs + [b] <==> r in reqs || r == b;
  }

  /** What the merged list shows at x when nothing has been lost there: the
      finished requests `out` and cur stand for the requests `done`. */
  lemma {:induction false} MergeKeeps(hook: Hook, out: seq<Req>, cur: Req, rest: seq<Req>, done: seq<Req>,
                                      d: Disk, x: int, covered: bool, under: bool, lost: bool)
    requires Sorted(cur, rest) && WellFormed(cur) && AllWellFormed(rest) && GapSafe(hook, d)
    requires Touched(done, x) ==> covered
    requires !under ==> Read(out, d, x) == Read(done, d, x)
    requires !lost ==> Read(out + [cur], d, x) == Read(done, d, x)
    requires !LostAt(hook, x, cur, rest, covered, under, lost)
    ensures Read(out + Merge(hook, cur, rest), d, x) == Read(done + rest, d, x)
    decreases |rest|
  {
    hide Bytes, JoinedIov, GapSafe, Touched;
    if rest == [] {
      assert done + rest == done;
    } else {
      var b, c := rest[0], Covers(rest[0], x);
      assert done + rest == (done + [b]) + rest[1..];
      assert AllWellFormed(rest[1..]) by { assert forall r <- rest[1..] :: r in rest; }
      assert WellFormed(b);
      TouchedSnoc(done, b, x);
      ReadSnoc(done, b, d, x);
      ReadSnoc(out, cur, d, x);
      if Merges(hook, cur, b) {
        var j := Joined(cur, b);
        JoinedAt(cur, b);
        ReadSnoc(out, j, d, x);
        SortedJoined(cur, b, rest[1..]);
        JoinKeeps(hook, out, cur, b, done, d, x, covered, under, lost);
        MergeKeeps(hook, out, j, rest[1..], done + [b], d, x, covered || c, under || c,
                   LostByJoin(x, cur, b, covered, under, lost));
      } else {
        ReadSnoc(out + [cur], b, d, x);
        assert (out + [cur]) + Merge(hook, b, rest[1..]) == out + Merge(hook, cur, rest);
        MergeKeeps(hook, out + [cur], b, rest[1..], done + [b], d, x, covered || c, lost || c, lost && !c);
      }
    }
  }

  lemma JoinKeeps(hook: Hook, out: seq<Req>, cur: Req, b: Req, done: seq<Req>,
                  d: Disk, x: int, covered: bool, under: bool, lost: bool)
    requires cur.sector <= b.sector && WellFormed(cur) && WellFormed(b) && Merges(hook, cur, b) && GapSafe(hook, d)
    requires Touched(done, x) ==> covered
    requires !under ==> Read(out, d, x) == Read(done, d, x)
    requires !lost ==> Read(out + [cur], d, x) == Read(done, d, x)
    ensures !LostByJoin(x, cur, b, covered, under, lost) ==>
              Read(out + [Joined(cur, b)], d, x) == Read(done + [b], d, x)
  {
    hide Bytes, JoinedIov, Touched, Read;
    var j := Joined(cur, b);
    JoinedAt(cur, b);
    ReadSnoc(out, j, d, x);
    ReadSnoc(out, cur, d, x);
    ReadSnoc(done, b, d, x);
    if !Covers(b, x) && x < Start(b) && x >= End(cur) && !covered {
      Untouched(done, d, x);
      assert hook(cur.sector, cur.nb, b.sector, b.nb);
      assert ZeroBetween(d, 512 * (cur.sector + cur.nb), 512 * b.sector);
    }
  }

  // ---- and nothing else is kept: a lost byte is lost for some contents --------------

  ghost predicate SameLengths(v: Iov, w: Iov) {
    |v| == |w| && forall i :: 0 <= i < |v| ==> |v[i]| == |w[i]|
  }

  /** Same place, same size, same buffer lengths; contents may differ. */
  ghost predicate SameShape(r: Req, q: Req) {
    r.sector == q.sector && r.nb == q.nb && SameLengths(r.iov, q.iov)
  }

  ghost predicate SameShapes(reqs: seq<Req>, other: seq<Req>) {
    |reqs| == |other| && forall i :: 0 <= i < |reqs| ==> SameShape(reqs[i], other[i])
  }

  lemma {:induction false} LengthsGiveSize(v: Iov, w: Iov)
    requires SameLengths(v, w)
    ensures |Bytes(v)| == |Bytes(w)|
    decreases |v|
  {
    if v != [] {
      LengthsGiveSize(v[1..], w[1..]);
    }
  }

  lemma {:induction false} LengthsCopied(v: Iov, w: Iov, skip: nat, size: nat)
    requires SameLengths(v, w)
    ensures SameLengths(Copied(v, skip, size), Copied(w, skip, size))
    decreases |v|
  {
    if v != [] && size != 0 {
      if skip >= |v[0]| {
        LengthsCopied(v[1..], w[1..], skip - |v[0]|, size);
      } else if |v[0]| - skip <= size {
        LengthsCopied(v[1..], w[1..], 0, size - (|v[0]| - skip));
      }
    }
  }

  lemma ShapeOfJoin(a: Req, b: Req, a': Req, b': Req)
    requires SameShape(a, a') && SameShape(b, b') && a.sector <= b.sector
    ensures SameShape(Joined(a, b), Joined(a', b'))
  {
    hide Copied, Bytes;
    LengthsGiveSize(b.iov, b'.iov);
    LengthsCopied(a.iov, a'.iov, 0, 512 * (b.sector - a.sector));
    LengthsCopied(b.iov, b'.iov, 0, |Bytes(b.iov)|);
    LengthsGiveSize(JoinedIov(a, b), JoinedIov(a', b'));
  }

  lemma ShapeEnds(a: Req, a': Req)
    requires SameShape(a, a')
    ensures Start(a) == Start(a') && End(a) == End(a') && (WellFormed(a) <==> WellFormed(a'))
    ensures forall x :: Covers(a, x) <==> Covers(a', x)
  {
    LengthsGiveSize(a.iov, a'.iov);
  }

  /** The loss depends on the shapes alone. */
  lemma {:induction false} LossByShape(hook: Hook, x: int, cur: Req, rest: seq<Req>, cur': Req, rest': seq<Req>,
                                       covered: bool, under: bool, lost: bool)
    requires Sorted(cur, rest) && SameShape(cur, cur') && SameShapes(rest, rest')
    ensures Sorted(cur', rest')
    ensures LostAt(hook, x, cur', rest', covered, under, lost) == LostAt(hook, x, cur, rest, covered, under, lost)
    decreases |rest|
  {
    hide Bytes, JoinedIov, SameLengths;
    if rest != [] {
      var b, b', c := rest[0], rest'[0], Covers(rest[0], x);
      assert SameShape(b, b');
      assert SameShapes(rest[1..], rest'[1..]);
      ShapeEnds(cur, cur');
      ShapeEnds(b, b');
      assert Merges(hook, cur, b) == Merges(hook, cur', b') by { ShapeCounts(cur, cur'); ShapeCounts(b, b'); }
      if Merges(hook, cur, b) {
        ShapeOfJoin(cur, b, cur', b');
        SortedJoined(cur, b, rest[1..]);
        LossByShape(hook, x, Joined(cur, b), rest[1..], Joined(cur', b'), rest'[1..], covered || c, under || c,
                    LostByJoin(x, cur, b, covered, under, lost));
      } else {
        LossByShape(hook, x, b, rest[1..], b', rest'[1..], covered || c, lost || c, lost && !c);
      }
    }
  }

  lemma ShapeCounts(a: Req, a': Req)
    requires SameShape(a, a')
    ensures |a.iov| == |a'.iov|
  {
  }

  /** The request r with every byte replaced by v. */
  function Paint(r: Req, v: byte): Req {
    Req(r.sector, r.nb, seq(|r.iov|, i requires 0 <= i < |r.iov| => seq(|r.iov[i]|, k => v)))
  }

  lemma PaintShape(r: Req, v: byte)
    ensures SameShape(r, Paint(r, v))
  {
  }

  lemma {:induction false} AllBytes(w: Iov, v: byte)
    requires forall i, k :: 0 <= i < |w| && 0 <= k < |w[i]| ==> w[i][k] == v
    ensures forall k :: 0 <= k < |Bytes(w)| ==> Bytes(w)[k] == v
    decreases |w|
  {
    if w != [] {
      forall i, k | 0 <= i < |w[1..]| && 0 <= k < |w[1..][i]| ensures w[1..][i][k] == v {
        assert w[1..][i] == w[i + 1];
      }
      AllBytes(w[1..], v);
      forall k | 0 <= k < |Bytes(w)| ensures Bytes(w)[k] == v {
        if k < |w[0]| {
          assert w[0][k] == v;
        } else {
          assert Bytes(w)[k] == Bytes(w[1..])[k - |w[0]|];
        }
      }
    }
  }

  lemma PaintAt(r: Req, v: byte, x: int)
    requires Covers(Paint(r, v), x)
    ensures At(Paint(r, v), x) == v
  {
    AllBytes(Paint(r, v).iov, v);
  }

  /** Every byte of r is zero. */
  ghost predicate Blank(r: Req) {
    forall x :: Covers(r, x) ==> At(r, x) == 0
  }

  ghost predicate AllBlank(reqs: seq<Req>) {
    forall r <- reqs :: Blank(r)
  }

  const ZERO: Disk := x => 0

  lemma {:induction false} BlankReads(reqs: seq<Req>, x: int)
    requires AllBlank(reqs)
    ensures Read(reqs, ZERO, x) == 0
    decreases |reqs|
  {
    hide Blank;
    if reqs != [] {
      assert Blank(reqs[|reqs| - 1]);
      BlankAt(reqs[|reqs| - 1], x);
      BlankReads(reqs[..|reqs| - 1], x);
    }
  }

  lemma BlankAt(r: Req, x: int)
    requires Blank(r)
    ensures Covers(r, x) ==> At(r, x) == 0
  {
  }

  /** What a byte reads after a join, in terms of what it read before. */
  lemma JoinReads(out: seq<Req>, cur: Req, b: Req, d: Disk, x: int)
    requires cur.sector <= b.sector && WellFormed(cur) && WellFormed(b)
    ensures Read(out + [Joined(cur, b)], d, x) ==
              if Covers(b, x) then At(b, x)
              else if x >= Start(b) then Read(out, d, x)
              else if x >= End(cur) then 0
              else Read(out + [cur], d, x)
  {
    hide Bytes, JoinedIov, Read;
    JoinedAt(cur, b);
    ReadSnoc(out, Joined(cur, b), d, x);
    ReadSnoc(out, cur, d, x);
  }

  lemma JoinShows(out: seq<Req>, cur: Req, b: Req, x: int, covered: bool, under: bool, lost: bool)
    requires cur.sector <= b.sector && WellFormed(cur) && WellFormed(b) && covered && !Covers(b, x)
    requires Read(out, ZERO, x) == (if under then 0 else 1)
    requires Read(out + [cur], ZERO, x) == (if lost then 0 else 1)
    ensures Read(out + [Joined(cur, b)], ZERO, x) == if LostByJoin(x, cur, b, covered, under, lost) then 0 else 1
  {
    hide Bytes, JoinedIov, Read;
    JoinReads(out, cur, b, ZERO, x);
  }

  /** Behind the last request that covers x, which alone is not blank: the byte
      shows 1 exactly as long as it is not lost. */
  lemma {:induction false} LossShows(hook: Hook, out: seq<Req>, cur: Req, rest: seq<Req>, x: int,
                                     covered: bool, under: bool, lost: bool)
    requires Sorted(cur, rest) && WellFormed(cur) && AllWellFormed(rest)
    requires covered && !Touched(rest, x)
    requires Read(out, ZERO, x) == (if under then 0 else 1)
    requires Read(out + [cur], ZERO, x) == (if lost then 0 else 1)
    ensures Read(out + Merge(hook, cur, rest), ZERO, x)
         == if LostAt(hook, x, cur, rest, covered, under, lost) then 0 else 1
    decreases |rest|
  {
    hide Bytes, JoinedIov, Read, LostByJoin;
    if rest != [] {
      var b := rest[0];
      assert !Covers(b, x) && WellFormed(b);
      assert AllWellFormed(rest[1..]) && !Touched(rest[1..], x) by { assert forall r <- rest[1..] :: r in rest; }
      if Merges(hook, cur, b) {
        JoinedAt(cur, b);
        SortedJoined(cur, b, rest[1..]);
        JoinShows(out, cur, b, x, covered, under, lost);
        LossShows(hook, out, Joined(cur, b), rest[1..], x, covered, under,
                  LostByJoin(x, cur, b, covered, under, lost));
      } else {
        ReadSnoc(out + [cur], b, ZERO, x);
        assert (out + [cur]) + Merge(hook, b, rest[1..]) == out + Merge(hook, cur, rest);
        LossShows(hook, out + [cur], b, rest[1..], x, covered, lost, lost);
      }
    }
  }

  /** Up to request k everything is blank; request k alone shows 1 at x. */
  lemma {:induction false} LossShowsFrom(hook: Hook, out: seq<Req>, cur: Req, rest: seq<Req>, x: int, k: nat,
                                         covered: bool, under: bool, lost: bool)
    requires Sorted(cur, rest) && WellFormed(cur) && AllWellFormed(rest) && k < |rest|
    requires AllBlank(out) && Blank(cur) && forall i :: 0 <= i < k ==> Blank(rest[i])
    requires Covers(rest[k], x) && At(rest[k], x) == 1 && !Touched(rest[k + 1..], x)
    ensures Read(out + Merge(hook, cur, rest), ZERO, x)
         == if LostAt(hook, x, cur, rest, covered, under, lost) then 0 else 1
    decreases |rest|
  {
    hide Bytes, JoinedIov, Blank, Touched;
    var b, c := rest[0], Covers(rest[0], x);
    assert WellFormed(b);
    assert AllWellFormed(rest[1..]) by { assert forall r <- rest[1..] :: r in rest; }
    assert rest[1..][k..] == rest[k + 1..];
    BlankReads(out, x);
    if Merges(hook, cur, b) {
      var lost' := LostByJoin(x, cur, b, covered, under, lost);
      JoinedAt(cur, b);
      SortedJoined(cur, b, rest[1..]);
      JoinReads(out, cur, b, ZERO, x);
      if k == 0 {
        LossShows(hook, out, Joined(cur, b), rest[1..], x, true, true, false);
      } else {
        BlankJoin(cur, b);
        assert rest[1..][k - 1] == rest[k];
        LossShowsFrom(hook, out, Joined(cur, b), rest[1..], x, k - 1, covered || c, under || c, lost');
      }
    } else {
      ReadSnoc(out + [cur], b, ZERO, x);
      assert (out + [cur]) + Merge(hook, b, rest[1..]) == out + Merge(hook, cur, rest);
      assert AllBlank(out + [cur]);
      BlankReads(out + [cur], x);
      if k == 0 {
        LossShows(hook, out + [cur], b, rest[1..], x, true, true, false);
      } else {
        assert rest[1..][k - 1] == rest[k];
        LossShowsFrom(hook, out + [cur], b, rest[1..], x, k - 1, covered || c, lost || c, lost && !c);
      }
    }
  }

  lemma BlankJoin(a: Req, b: Req)
    requires a.sector <= b.sector && WellFormed(a) && WellFormed(b) && Blank(a) && Blank(b)
    ensures Blank(Joined(a, b))
  {
    hide Bytes, JoinedIov;
    JoinedAt(a, b);
  }

  /** Where no request writes, nothing is lost. */
  lemma {:induction false} NoLossUntouched(hook: Hook, x: int, cur: Req, rest: seq<Req>)
    requires Sorted(cur, rest) && !Touched(rest, x)
    ensures !LostAt(hook, x, cur, rest, false, false, false)
    decreases |rest|
  {
    hide Bytes, JoinedIov;
    if rest != [] {
      assert !Covers(rest[0], x);
      assert !Touched(rest[1..], x) by { assert forall r <- rest[1..] :: r in rest; }
      if Merges(hook, cur, rest[0]) {
        SortedJoined(cur, rest[0], rest[1..]);
        NoLossUntouched(hook, x, Joined(cur, rest[0]), rest[1..]);
      } else {
        NoLossUntouched(hook, x, rest[0], rest[1..]);
      }
    }
  }

  // ---- exactly ------------------------------------------------------------------------

  predicate SortedList(reqs: seq<Req>) {
    reqs != [] && Sorted(reqs[0], reqs[1..])
  }

  function MergeList(hook: Hook, reqs: seq<Req>): seq<Req>
    requires SortedList(reqs)
  {
    Merge(hook, reqs[0], reqs[1..])
  }

  /** Merging loses what the sorted requests wrote at x. */
  predicate Lost(hook: Hook, reqs: seq<Req>, x: int)
    requires SortedList(reqs)
  {
    var c := Covers(reqs[0], x);
    LostAt(hook, x, reqs[0], reqs[1..], c, c, false)
  }

  /** Whatever the requests contain, and whatever is on a disk whose merged gaps
      are zero, the merged list leaves at x what the sorted list leaves. */
  ghost predicate Faithful(hook: Hook, reqs: seq<Req>, x: int)
    requires SortedList(reqs)
  {
    forall other, d :: SameShapes(reqs, other) && SortedList(other) && GapSafe(hook, d) ==>
                         Read(MergeList(hook, other), d, x) == Read(other, d, x)
  }

  lemma NotLostIsKept(hook: Hook, reqs: seq<Req>, d: Disk, x: int)
    requires SortedList(reqs) && AllWellFormed(reqs) && GapSafe(hook, d) && !Lost(hook, reqs, x)
    ensures Read(MergeList(hook, reqs), d, x) == Read(reqs, d, x)
  {
    hide Bytes, GapSafe, Merge, LostAt, Read, Sorted;
    var first, rest, c := reqs[0], reqs[1..], Covers(reqs[0], x);
    assert [] + [first] == [first] && [first] + rest == reqs;
    assert AllWellFormed(rest) by { assert forall r <- rest :: r in reqs; }
    assert WellFormed(first);
    assert Touched([first], x) <==> c by { TouchedSnoc([], first, x); }
    ReadSnoc([], first, d, x);
    MergeKeeps(hook, [], first, rest, [first], d, x, c, c, false);
    assert [] + Merge(hook, first, rest) == Merge(hook, first, rest);
  }

  function PaintOne(reqs: seq<Req>, k: nat): (p: seq<Req>)
    ensures |p| == |reqs|
    ensures forall i :: 0 <= i < |reqs| ==> p[i] == Paint(reqs[i], if i == k then 1 else 0)
  {
    seq(|reqs|, i requires 0 <= i < |reqs| => Paint(reqs[i], if i == k then 1 else 0))
  }

  /** The last request that covers x. */
  lemma LastCover(reqs: seq<Req>, x: int) returns (k: nat)
    requires Touched(reqs, x)
    ensures k < |reqs| && Covers(reqs[k], x) && forall i :: k < i < |reqs| ==> !Covers(reqs[i], x)
  {
    hide Covers;
    k := |reqs| - 1;
    while !Covers(reqs[k], x)
      invariant k < |reqs| && forall i :: k < i < |reqs| ==> !Covers(reqs[i], x)
      decreases k
    {
      assert k > 0;
      k := k - 1;
    }
  }

  lemma {:induction false} LastCoverReads(reqs: seq<Req>, d: Disk, x: int, k: nat)
    requires k < |reqs| && Covers(reqs[k], x) && forall i :: k < i < |reqs| ==> !Covers(reqs[i], x)
    ensures Read(reqs, d, x) == At(reqs[k], x)
    decreases |reqs|
  {
    hide Bytes;
    if k < |reqs| - 1 {
      LastCoverReads(reqs[..|reqs| - 1], d, x, k);
    }
  }

  /** Painted so that only the last writer of x shows 1 there, a lost byte reads
      0 from the merged list and 1 from the sorted one. */
  lemma LostIsNotFaithful(hook: Hook, reqs: seq<Req>, x: int)
    requires SortedList(reqs) && AllWellFormed(reqs) && Lost(hook, reqs, x)
    ensures !Faithful(hook, reqs, x)
  {
    hide Bytes, Merge, LostAt, Read, Sorted, Paint;
    if !Touched(reqs, x) {
      assert !Covers(reqs[0], x) && !Touched(reqs[1..], x) by { assert forall r <- reqs[1..] :: r in reqs; }
      NoLossUntouched(hook, x, reqs[0], reqs[1..]);
      assert false;
    }
    var k := LastCover(reqs, x);
    var p := PaintOne(reqs, k);
    PaintedList(hook, reqs, k, x);
    PaintAt(reqs[k], 1, x);
    LastCoverReads(p, ZERO, x, k);
    assert GapSafe(hook, ZERO);
    PaintedRead(hook, p, x, k);
  }

  lemma PaintedList(hook: Hook, reqs: seq<Req>, k: nat, x: int)
    requires SortedList(reqs) && AllWellFormed(reqs) && k < |reqs|
    ensures var p := PaintOne(reqs, k);
            && SameShapes(reqs, p) && SortedList(p) && AllWellFormed(p)
            && Lost(hook, p, x) == Lost(hook, reqs, x)
            && (forall i :: 0 <= i < |p| ==> (Covers(p[i], x) <==> Covers(reqs[i], x)))
            && (forall i :: 0 <= i < |p| && i != k ==> Blank(p[i]))
  {
    hide Bytes, LostAt, Sorted, Paint, Blank, SameShape;
    var p := PaintOne(reqs, k);
    forall i | 0 <= i < |p|
      ensures SameShape(reqs[i], p[i]) && WellFormed(p[i]) && (Covers(p[i], x) <==> Covers(reqs[i], x))
      ensures i != k ==> Blank(p[i])
    {
      PaintShape(reqs[i], if i == k then 1 else 0);
      ShapeEnds(reqs[i], p[i]);
      assert WellFormed(reqs[i]);
      PaintBlank(reqs[i]);
    }
    assert SameShapes(reqs[1..], p[1..]);
    var c := Covers(reqs[0], x);
    LossByShape(hook, x, reqs[0], reqs[1..], p[0], p[1..], c, c, false);
  }

  lemma PaintBlank(r: Req)
    ensures Blank(Paint(r, 0))
  {
    forall x | Covers(Paint(r, 0), x) ensures At(Paint(r, 0), x) == 0 {
      PaintAt(r, 0, x);
    }
  }

  lemma PaintedRead(hook: Hook, p: seq<Req>, x: int, k: nat)
    requires SortedList(p) && AllWellFormed(p) && Lost(hook, p, x) && k < |p|
    requires forall i :: 0 <= i < |p| && i != k ==> Blank(p[i])
    requires Covers(p[k], x) && At(p[k], x) == 1 && forall i :: k < i < |p| ==> !Covers(p[i], x)
    ensures Read(MergeList(hook, p), ZERO, x) == 0
  {
    hide Bytes, Merge, LostAt, Read, Sorted, Blank, Covers, At;
    var first, rest, c := p[0], p[1..], Covers(p[0], x);
    assert AllWellFormed(rest) by { assert forall r <- rest :: r in p; }
    assert WellFormed(first);
    assert [] + Merge(hook, first, rest) == Merge(hook, first, rest);
    if k == 0 {
      assert Read([], ZERO, x) == 0 && Read([] + [first], ZERO, x) == 1 by { ReadSnoc([], first, ZERO, x); EmptyReads(x); }
      assert !Touched(rest, x);
      LossShows(hook, [], first, rest, x, true, true, false);
    } else {
      assert rest[k - 1] == p[k];
      assert !Touched(rest[k..], x);
      LossShowsFrom(hook, [], first, rest, x, k - 1, c, c, false);
    }
  }

  lemma EmptyReads(x: int)
    ensures Read([], ZERO, x) == 0
  {
  }

  /** Merging preserves what the sorted requests mean at x, for all contents and
      all disks the driver's hook is right about, exactly when x is not lost. */
  lemma MergeExactly(hook: Hook, reqs: seq<Req>, x: int)
    requires SortedList(reqs) && AllWellFormed(reqs)
    ensures Faithful(hook, reqs, x) <==> !Lost(hook, reqs, x)
  {
    hide Lost, MergeList, Read, GapSafe, SortedList, WellFormed;
    if Lost(hook, reqs, x) {
      LostIsNotFaithful(hook, reqs, x);
    } else {
      forall other, d | SameShapes(reqs, other) && SortedList(other) && GapSafe(hook, d)
        ensures Read(MergeList(hook, other), d, x) == Read(other, d, x)
      {
        SameLoss(hook, reqs, other, x);
        NotLostIsKept(hook, other, d, x);
      }
    }
  }

  lemma SameLoss(hook: Hook, reqs: seq<Req>, other: seq<Req>, x: int)
    requires SortedList(reqs) && AllWellFormed(reqs) && SameShapes(reqs, other) && SortedList(other)
    ensures AllWellFormed(other) && Lost(hook, other, x) == Lost(hook, reqs, x)
  {
    hide Bytes, LostAt, Sorted, SameLengths;
    forall r | r in other ensures WellFormed(r) {
      var i :| 0 <= i < |other| && other[i] == r;
      ShapeEnds(reqs[i], r);
      assert WellFormed(reqs[i]);
    }
    ShapeEnds(reqs[0], other[0]);
    assert SameShapes(reqs[1..], other[1..]);
    var c := Covers(reqs[0], x);
    LossByShape(hook, x, reqs[0], reqs[1..], other[0], other[1..], c, c, false);
  }

  // ---- consequences -------------------------------------------------------------------

  /** No request ends before an earlier one does. */
  predicate EndsGrow(cur: Req, rest: seq<Req>)
    decreases |rest|
  {
    rest == [] || (End(cur) <= End(rest[0]) && EndsGrow(rest[0], rest[1..]))
  }

  lemma {:induction false} GrowingEndsLoseNothing(hook: Hook, x: int, cur: Req, rest: seq<Req>, covered: bool, under: bool)
    requires Sorted(cur, rest) && WellFormed(cur) && AllWellFormed(rest) && EndsGrow(cur, rest)
    requires covered ==> x < End(cur)
    requires under ==> x < End(cur)
    ensures !LostAt(hook, x, cur, rest, covered, under, false)
    decreases |rest|
  {
    hide Bytes, JoinedIov;
    if rest != [] {
      var b, c := rest[0], Covers(rest[0], x);
      assert WellFormed(b);
      assert AllWellFormed(rest[1..]) by { assert forall r <- rest[1..] :: r in rest; }
      if Merges(hook, cur, b) {
        JoinedAt(cur, b);
        SortedJoined(cur, b, rest[1..]);
        EndsGrowJoined(Joined(cur, b), b, rest[1..]);
        GrowingEndsLoseNothing(hook, x, Joined(cur, b), rest[1..], covered || c, under || c);
      } else {
        GrowingEndsLoseNothing(hook, x, b, rest[1..], covered || c, c);
      }
    }
  }

  lemma EndsGrowJoined(j: Req, b: Req, rest: seq<Req>)
    requires EndsGrow(b, rest) && End(j) == End(b)
    ensures EndsGrow(j, rest)
  {
  }

  /** If in sorted order no request ends before an earlier one ends, the merged
      list leaves the same disk as the sorted list applied one by one. */
  lemma GrowingEndsKeepMeaning(hook: Hook, reqs: seq<Req>, d: Disk, x: int)
    requires SortedList(reqs) && AllWellFormed(reqs) && GapSafe(hook, d) && EndsGrow(reqs[0], reqs[1..])
    ensures Read(MergeList(hook, reqs), d, x) == Read(reqs, d, x)
  {
    hide Bytes, GapSafe, Merge, LostAt, Read, Sorted;
    assert AllWellFormed(reqs[1..]) by { assert forall r <- reqs[1..] :: r in reqs; }
    assert WellFormed(reqs[0]);
    var c := Covers(reqs[0], x);
    GrowingEndsLoseNothing(hook, x, reqs[0], reqs[1..], c, c);
    NotLostIsKept(hook, reqs, d, x);
  }

  /** A request that ends inside the one it is merged into cuts off that one's
      tail: two requests, and every byte behind the second one's end is lost. */
  lemma NestedRequestIsLost(hook: Hook, a: Req, b: Req, x: int)
    requires WellFormed(a) && WellFormed(b) && a.sector <= b.sector && Merges(hook, a, b)
    requires End(b) <= x < End(a)
    ensures SortedList([a, b]) && Lost(hook, [a, b], x) && !Faithful(hook, [a, b], x)
  {
    hide Bytes, JoinedIov, Faithful;
    var reqs := [a, b];
    assert reqs[1..] == [b] && Sorted(b, []) && Sorted(a, [b]);
    SortedJoined(a, b, []);
    assert [b][1..] == [];
    assert LostAt(hook, x, Joined(a, b), [], true, true, true);
    assert LostAt(hook, x, a, [b], true, true, false);
    MergeExactly(hook, reqs, x);
  }

  /** Merged vectors match their sector counts and stay within IOV_MAX buffers. */
  lemma {:induction false} MergedVectorsFit(hook: Hook, cur: Req, rest: seq<Req>)
    requires Sorted(cur, rest) && WellFormed(cur) && AllWellFormed(rest)
    requires |cur.iov| <= IOV_MAX && forall r <- rest :: |r.iov| <= IOV_MAX
    ensures forall r <- Merge(hook, cur, rest) :: WellFormed(r) && |r.iov| <= IOV_MAX
    ensures 1 <= |Merge(hook, cur, rest)| <= 1 + |rest|
    decreases |rest|
  {
    hide Bytes, JoinedIov, WellFormed;
    if rest != [] {
      var b := rest[0];
      assert WellFormed(b) && |b.iov| <= IOV_MAX;
      assert AllWellFormed(rest[1..]) && (forall r <- rest[1..] :: |r.iov| <= IOV_MAX) by {
        assert forall r <- rest[1..] :: r in rest;
      }
      if Merges(hook, cur, b) {
        JoinedAt(cur, b);
        SortedJoined(cur, b, rest[1..]);
        MergedVectorsFit(hook, Joined(cur, b), rest[1..]);
      } else {
        MergedVectorsFit(hook, b, rest[1..]);
      }
    }
  }

  /** An upper bound on the buffers merging can need. */
  function Buffers(cur: Req, rest: seq<Req>): nat
    decreases |rest|
  {
    |cur.iov| + (if rest == [] then 0 else 1 + Buffers(rest[0], rest[1..]))
  }

  lemma BuffersJoined(cur: Req, rest: seq<Req>)
    requires rest != [] && cur.sector <= rest[0].sector && WellFormed(cur) && WellFormed(rest[0])
    ensures Joined(cur, rest[0]).sector == cur.sector && Buffers(Joined(cur, rest[0]), rest[1..]) <= Buffers(cur, rest)
  {
    hide Bytes, JoinedIov, WellFormed;
    JoinedAt(cur, rest[0]);
  }

  /** As long as the buffers fit, everything is merged that touches or overlaps: the
      requests that remain have gaps between them. And a driver that wants every gap
      filled gets a single request. */
  lemma {:induction false} MergedApart(hook: Hook, cur: Req, rest: seq<Req>)
    requires Sorted(cur, rest) && WellFormed(cur) && AllWellFormed(rest) && Buffers(cur, rest) <= IOV_MAX
    ensures var out := Merge(hook, cur, rest);
            && out != [] && out[0].sector == cur.sector
            && (forall i :: 0 <= i < |out| - 1 ==> out[i].sector + out[i].nb < out[i + 1].sector)
            && ((forall s, n, s', n' :: hook(s, n, s', n')) ==> |out| == 1)
    decreases |rest|
  {
    hide JoinedIov, WellFormed, Joined;
    if rest != [] {
      var b := rest[0];
      assert WellFormed(b);
      assert AllWellFormed(rest[1..]) by {
        assert forall r <- rest[1..] :: r in rest;
      }
      if Merges(hook, cur, b) {
        JoinedAt(cur, b);
        SortedJoined(cur, b, rest[1..]);
        BuffersJoined(cur, rest);
        MergedApart(hook, Joined(cur, b), rest[1..]);
      } else {
        assert Buffers(b, rest[1..]) >= |b.iov|;
        MergedApart(hook, b, rest[1..]);
      }
    }
  }

  /** Every request ends before the next one starts. */
  predicate Apart(cur: Req, rest: seq<Req>)
    decreases |rest|
  {
    rest == [] || (cur.sector + cur.nb < rest[0].sector && Apart(rest[0], rest[1..]))
  }

  /** Requests with gaps between them that the driver does not want filled stay as they are. */
  lemma {:induction false} GapsStay(hook: Hook, cur: Req, rest: seq<Req>)
    requires Sorted(cur, rest) && Apart(cur, rest) && forall s, n, s', n' :: !hook(s, n, s', n')
    ensures Merge(hook, cur, rest) == [cur] + rest
    decreases |rest|
  {
    hide Joined;
    if rest != [] {
      GapsStay(hook, rest[0], rest[1..]);
    }
  }

  // ---- the code -------------------------------------------------------------------------

  function Insert(s: seq<Req>, r: Req): seq<Req> {
    if s == [] || r.sector <= s[0].sector then [r] + s else [s[0]] + Insert(s[1..], r)
  }

  /** A sort by start sector, in the place of qsort. */
  function SortedReqs(s: seq<Req>): seq<Req> {
    if s == [] then [] else Insert(SortedReqs(s[1..]), s[0])
  }

  lemma {:induction false} InsertKeeps(s: seq<Req>, r: Req)
    ensures multiset(Insert(s, r)) == multiset(s) + multiset{r}
    decreases |s|
  {
    if s != [] && r.sector > s[0].sector {
      InsertKeeps(s[1..], r);
      assert s == [s[0]] + s[1..];
    }
  }

  lemma {:induction false} InsertSorts(s: seq<Req>, r: Req)
    requires s == [] || SortedList(s)
    ensures SortedList(Insert(s, r))
    ensures Insert(s, r)[0] == r || (s != [] && Insert(s, r)[0] == s[0])
    decreases |s|
  {
    if s == [] || r.sector <= s[0].sector {
      assert ([r] + s)[1..] == s;
    } else {
      InsertSorts(s[1..], r);
      assert ([s[0]] + Insert(s[1..], r))[1..] == Insert(s[1..], r);
    }
  }

  lemma {:induction false} SortSorts(s: seq<Req>)
    ensures multiset(SortedReqs(s)) == multiset(s) && |SortedReqs(s)| == |s|
    ensures s != [] ==> SortedList(SortedReqs(s))
    decreases |s|
  {
    hide Insert, SortedList;
    if s != [] {
      var tail := SortedReqs(s[1..]);
      SortSorts(s[1..]);
      InsertKeeps(tail, s[0]);
      InsertSorts(tail, s[0]);
      assert s == [s[0]] + s[1..];
      assert |multiset(Insert(tail, s[0]))| == |Insert(tail, s[0])|;
    }
  }

  /** The merging loop of multiwrite_merge: the array is compacted in place. */
  method MergeInPlace(hook: Hook, reqs: array<Req>) returns (count: nat)
    requires SortedList(reqs[..]) && AllWellFormed(reqs[..])
    modifies reqs
    ensures 1 <= count <= reqs.Length
    ensures reqs[..count] == MergeList(hook, old(reqs[..]))
  {
    hide Merge, Sorted, WellFormed, Merges, JoinedIov, Bytes;
    ghost var all := reqs[..];
    var outidx, i := 0, 1;
    ghost var goal := Merge(hook, all[0], all[1..]);
    assert reqs[..0] == [] && reqs[1..] == all[1..];
    while i < reqs.Length
      invariant 0 <= outidx < i <= reqs.Length && reqs[i..] == all[i..]
      invariant Sorted(reqs[outidx], all[i..]) && WellFormed(reqs[outidx])
      invariant reqs[..outidx] + Merge(hook, reqs[outidx], all[i..]) == goal
      decreases reqs.Length - i
    {
      ghost var done, rest := reqs[..outidx], all[i..];
      var a, b := reqs[outidx], reqs[i];
      assert b == reqs[i..][0] && rest[0] == b && rest[1..] == all[i + 1..];
      assert WellFormed(b) by { assert all[i] in all; }
      MergeStep(hook, done, a, rest);
      if Merges(hook, a, b) {
        var q := JoinVectors(a, b);
        JoinedAt(a, b);
        reqs[outidx] := Req(a.sector, |Bytes(q)| / 512, q);
        assert reqs[..outidx] == done;
      } else {
        outidx := outidx + 1;
        reqs[outidx] := b;
        assert reqs[..outidx] == done + [a];
      }
      i := i + 1;
      assert reqs[i..] == all[i..];
    }
    assert all[i..] == [];
    LastMerge(hook, reqs[outidx]);
    assert reqs[..outidx + 1] == reqs[..outidx] + [reqs[outidx]];
    count := outidx + 1;
  }

  lemma MergeStep(hook: Hook, done: seq<Req>, a: Req, rest: seq<Req>)
    requires rest != [] && Sorted(a, rest)
    ensures a.sector <= rest[0].sector && Sorted(rest[0], rest[1..]) && Sorted(Joined(a, rest[0]), rest[1..])
    ensures done + Merge(hook, a, rest) ==
              if Merges(hook, a, rest[0]) then done + Merge(hook, Joined(a, rest[0]), rest[1..])
              else (done + [a]) + Merge(hook, rest[0], rest[1..])
  {
    hide JoinedIov, Bytes;
    SortedJoined(a, rest[0], rest[1..]);
  }

  lemma LastMerge(hook: Hook, a: Req)
    ensures Sorted(a, []) && Merge(hook, a, []) == [a]
  {
  }

  /** The new vector of a merge, built buffer by buffer. */
  method JoinVectors(a: Req, b: Req) returns (q: Iov)
    requires a.sector <= b.sector
    ensures q == JoinedIov(a, b)
  {
    hide Bytes, Copied;
    var qiov := new QemuIoVector(|a.iov| + |b.iov| + 1);
    qiov.Copy(a.iov, 0, 512 * (b.sector - a.sector));
    if b.sector > a.sector + a.nb {
      qiov.Add(Zeros(512 * (b.sector - a.sector - a.nb)));
    }
    qiov.Copy(b.iov, 0, |Bytes(b.iov)|);
    q := qiov.iov;
  }

  /** multiwrite_merge: sort, then merge. */
  method MultiwriteMerge(hook: Hook, reqs: array<Req>) returns (count: nat, ghost sorted: seq<Req>)
    requires reqs.Length > 0 && AllWellFormed(reqs[..])
    modifies reqs
    ensures multiset(sorted) == multiset(old(reqs[..])) && SortedList(sorted) && AllWellFormed(sorted)
    ensures 1 <= count <= reqs.Length && reqs[..count] == MergeList(hook, sorted)
  {
    hide WellFormed, MergeList, Sorted;
    ghost var before := reqs[..];
    var order := SortedReqs(reqs[..]);
    SortSorts(before);
    forall i | 0 <= i < reqs.Length { reqs[i] := order[i]; }
    sorted := order;
    assert reqs[..] == sorted;
    assert AllWellFormed(sorted) by {
      forall r | r in sorted ensures WellFormed(r) {
        assert r in multiset(before);
      }
    }
    count := MergeInPlace(hook, reqs);
  }
}
