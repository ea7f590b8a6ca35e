/**
 Committing an overlay image into its backing image, run by run, and emptying it.
 */
module Commit {
  import opened Wire

  const BUF_SECTORS := 2048
  const EIO := -5

  type Sector = seq<byte>

  function Zeroes(): Sector {
    seq(512, i => 0 as byte)
  }

  /** Sector i of an image, which reads as zeroes past its end. */
  function SectorOf(image: seq<Sector>, i: nat): Sector {
    if i < |image| then image[i] else Zeroes()
  }

  /** An overlay over a backing image that may be shorter. `hints` are the run
      lengths the driver would like to report, `answers` the results of the
      requests to come (0 for success, and once they are used up). */
  datatype Images = Images(alloc: seq<bool>, top: seq<Sector>, backing: seq<Sector>, hints: seq<nat>, answers: seq<int>) {
    predicate Valid() {
      |alloc| == |top|
    }

    /** What the guest sees in sector i. */
    function View(i: nat): Sector
      requires Valid() && i < |top|
    {
      if alloc[i] then top[i] else SectorOf(backing, i)
    }
  }

  ghost predicate SameView(a: Images, b: Images) {
    a.Valid() && b.Valid() && |a.top| == |b.top| && forall i :: 0 <= i < |a.top| ==> a.View(i) == b.View(i)
  }

  // ---- is_allocated ------------------------------------------------------------------------

  /** Length of the run of equal allocation states from i on, at most `max`. */
  function RunLength(alloc: seq<bool>, i: nat, max: nat): (n: nat)
    requires i < |alloc| && max > 0
    ensures 1 <= n <= max && i + n <= |alloc|
    ensures forall k :: i <= k < i + n ==> alloc[k] == alloc[i]
    ensures n < max && i + n < |alloc| ==> alloc[i + n] != alloc[i]
    decreases max
  {
    if max == 1 || i + 1 == |alloc| || alloc[i + 1] != alloc[i] then 1 else 1 + RunLength(alloc, i + 1, max - 1)
  }

  /** The run length a driver reports: any positive part of the run. */
  function Reported(im: Images, i: nat): (n: nat)
    requires i < |im.alloc|
    ensures 1 <= n <= BUF_SECTORS && i + n <= |im.alloc|
    ensures forall k :: i <= k < i + n ==> im.alloc[k] == im.alloc[i]
  {
    var run := RunLength(im.alloc, i, BUF_SECTORS);
    if im.hints == [] || im.hints[0] == 0 || im.hints[0] > run then run else im.hints[0]
  }

  function NextAnswer(answers: seq<int>): int {
    if answers == [] then 0 else answers[0]
  }

  function Tail<T>(s: seq<T>): seq<T> {
    if s == [] then [] else s[1..]
  }

  // ---- the loop --------------------------------------------------------------------------------

  /** Sectors [i, i + n) of `backing` replaced by those of `top`. */
  function Copied(backing: seq<Sector>, top: seq<Sector>, i: nat, n: nat): (r: seq<Sector>)
    requires i + n <= |top| && i + n <= |backing|
    ensures |r| == |backing|
    ensures forall k :: 0 <= k < |backing| ==> r[k] == if i <= k < i + n then top[k] else backing[k]
  {
    backing[..i] + top[i..i + n] + backing[i + n..]
  }

  /** One round: the images after it, and its result. */
  function Round(im: Images, i: nat): (r: (Images, int))
    requires im.Valid() && i < |im.top|
    ensures r.0.Valid() && r.0.alloc == im.alloc && r.0.top == im.top
  {
    var n := Reported(im, i);
    var asked := im.(hints := Tail(im.hints));
    if !im.alloc[i] then (asked, 0)
    else
      var got := asked.(answers := Tail(im.answers));
      if NextAnswer(im.answers) != 0 || i + n > |im.backing| then (got, EIO)
      else if NextAnswer(got.answers) != 0 then (got.(answers := Tail(got.answers)), EIO)
      else (got.(answers := Tail(got.answers), backing := Copied(im.backing, im.top, i, n)), 0)
  }

  /** The commit loop from sector i on. */
  function Loop(im: Images, i: nat): (r: (Images, int))
    requires im.Valid() && i <= |im.top|
    ensures r.0.Valid() && r.0.alloc == im.alloc && r.0.top == im.top
    decreases |im.top| - i
  {
    if i == |im.top| then (im, 0)
    else
      var one := Round(im, i);
      if one.1 != 0 then one else Loop(one.0, i + Reported(im, i))
  }

  function Unallocated(n: nat): seq<bool> {
    seq(n, i => false)
  }

  /** bdrv_make_empty */
  function Emptied(im: Images): Images {
    im.(alloc := Unallocated(|im.alloc|))
  }

  /** How the rest of bdrv_commit goes: what emptying the overlay returns, if its
      driver can, and what reopening the backing image returns, if it was opened
      read-only. */
  datatype Rest = Rest(empty: Option<int>, reopen: Option<int>)

  /** bdrv_commit: the loop, emptying the overlay, and reopening the backing image
      read-only, whose result replaces the one so far. */
  function Committed(im: Images, rest: Rest): (r: (Images, int))
    requires im.Valid()
  {
    var loop := Loop(im, 0);
    var emptied := if loop.1 == 0 && rest.empty.Some? then rest.empty.value else loop.1;
    (if loop.1 == 0 && rest.empty.Some? && emptied >= 0 then Emptied(loop.0) else loop.0,
     if rest.reopen.Some? then rest.reopen.value else emptied)
  }

  // ---- what it keeps, and what it delivers ------------------------------------------------------

  lemma RoundKeepsView(im: Images, i: nat)
    requires im.Valid() && i < |im.top|
    ensures SameView(im, Round(im, i).0)
    ensures |Round(im, i).0.backing| == |im.backing|
  {
    hide RunLength;
  }

  /** Every allocated sector in [lo, hi) is in the backing image. */
  ghost predicate Delivered(im: Images, lo: nat, hi: nat) {
    |im.alloc| == |im.top| && forall k :: lo <= k < hi && k < |im.top| && im.alloc[k] ==> k < |im.backing| && im.backing[k] == im.top[k]
  }

  lemma RoundDelivers(im: Images, i: nat, lo: nat)
    requires im.Valid() && i < |im.top| && Delivered(im, lo, i) && lo <= i
    requires Round(im, i).1 == 0
    ensures Delivered(Round(im, i).0, lo, i + Reported(im, i))
  {
    hide RunLength;
  }

  lemma {:induction false} LoopDelivers(im: Images, i: nat)
    requires im.Valid() && i <= |im.top| && Delivered(im, 0, i)
    ensures SameView(im, Loop(im, i).0)
    ensures Loop(im, i).1 == 0 ==> Delivered(Loop(im, i).0, 0, |im.top|)
    decreases |im.top| - i
  {
    hide Reported, Round;
    if i < |im.top| {
      var one := Round(im, i);
      RoundKeepsView(im, i);
      if one.1 == 0 {
        RoundDelivers(im, i, 0);
        LoopDelivers(one.0, i + Reported(im, i));
      }
    }
  }

  lemma EmptyKeepsView(im: Images)
    requires im.Valid() && Delivered(im, 0, |im.top|)
    ensures SameView(im, Emptied(im))
  {
  }

  /** The guest sees the same image before and after, whether the commit succeeded,
      failed half way, or emptied the overlay. */
  lemma CommitKeepsView(im: Images, rest: Rest)
    requires im.Valid()
    ensures SameView(im, Committed(im, rest).0)
  {
    hide Loop;
    LoopDelivers(im, 0);
    var loop := Loop(im, 0);
    if loop.1 == 0 {
      EmptyKeepsView(loop.0);
    }
  }

  /** The backing image alone shows what the overlay over it showed. */
  ghost predicate Flattened(im: Images, result: Images) {
    im.Valid() && forall i :: 0 <= i < |im.top| ==> im.View(i) == SectorOf(result.backing, i)
  }

  /** An error-free loop leaves in the backing image the view of every sector. */
  lemma LoopFlattens(im: Images)
    requires im.Valid() && Loop(im, 0).1 == 0
    ensures Flattened(im, Loop(im, 0).0)
  {
    hide Loop;
    LoopDelivers(im, 0);
    var r := Loop(im, 0).0;
    forall i | 0 <= i < |im.top|
      ensures im.View(i) == SectorOf(r.backing, i)
    {
      assert im.View(i) == r.View(i);
    }
  }

  /** Success means the data is in the backing image. */
  ghost predicate Honest(im: Images, rest: Rest)
    requires im.Valid()
  {
    Committed(im, rest).1 >= 0 ==> Flattened(im, Committed(im, rest).0)
  }

  ghost predicate SuccessFlattens(rest: Rest) {
    forall im: Images | im.Valid() :: Honest(im, rest)
  }

  lemma OpenHonest(im: Images, rest: Rest)
    requires im.Valid() && (rest.reopen.None? || rest.reopen.value < 0)
    ensures Honest(im, rest)
  {
    hide Loop, Flattened;
    LoopFails(im, 0);
    if Loop(im, 0).1 == 0 {
      LoopFlattens(im);
      SameBacking(im, Loop(im, 0).0);
    }
  }

  lemma {:induction false} LoopFails(im: Images, i: nat)
    requires im.Valid() && i <= |im.top|
    ensures Loop(im, i).1 == 0 || Loop(im, i).1 == EIO
    decreases |im.top| - i
  {
    hide Reported, Copied;
    if i < |im.top| {
      LoopFails(Round(im, i).0, i + Reported(im, i));
    }
  }

  lemma SameBacking(im: Images, r: Images)
    requires Flattened(im, r)
    ensures Flattened(im, Emptied(r))
  {
  }

  /** That holds exactly if the backing image was opened read-write, or reopening it
      fails: the result of reopening it read-only hides an error of the loop. */
  lemma SuccessExactly(rest: Rest)
    ensures SuccessFlattens(rest) <==> rest.reopen.None? || rest.reopen.value < 0
  {
    hide Honest;
    if rest.reopen.Some? && rest.reopen.value >= 0 {
      LostErrorExample(rest);
    } else {
      forall im: Images | im.Valid()
        ensures Honest(im, rest)
      {
        OpenHonest(im, rest);
      }
    }
  }

  /** One allocated sector whose read fails: success, and the backing image unchanged. */
  lemma LostErrorExample(rest: Rest)
    requires rest.reopen.Some? && rest.reopen.value >= 0
    ensures var im := Images([true], [[1]], [[2]], [], [EIO]);
            im.Valid() && !Honest(im, rest)
  {
    var im := Images([true], [[1]], [[2]], [], [EIO]);
    assert im.alloc[0] && NextAnswer(im.answers) == EIO && Tail(im.answers) == [] && Tail(im.hints) == [];
    assert Round(im, 0) == (im.(answers := []), EIO);
    assert Loop(im, 0) == (im.(answers := []), EIO);
    assert im.View(0) == [1] && im.backing[0] == [2];
    assert [1][0] != [2][0];
  }

  /** Any positive part of the run can be the one reported. */
  lemma ReportedAny(im: Images, i: nat, n: nat)
    requires i < |im.alloc| && im.hints != [] && im.hints[0] == n
    requires 1 <= n <= BUF_SECTORS && i + n <= |im.alloc| && forall k :: i <= k < i + n ==> im.alloc[k] == im.alloc[i]
    ensures Reported(im, i) == n
  {
    assert n <= RunLength(im.alloc, i, BUF_SECTORS);
  }

  /** The k-th answer to come. */
  function AnswerAt(answers: seq<int>, k: nat): int {
    if k < |answers| then answers[k] else 0
  }

  /** An allocated run takes an answer for its read and, if that went well and the run
      fits the backing image, one for its write; each of the three can fail it. */
  lemma RoundAnswers(im: Images, i: nat)
    requires im.Valid() && i < |im.top| && im.alloc[i]
    ensures var one, n := Round(im, i), Reported(im, i);
            var read, write := AnswerAt(im.answers, 0), AnswerAt(im.answers, 1);
            && (one.1 == 0 <==> read == 0 && i + n <= |im.backing| && write == 0)
            && (forall k: nat :: AnswerAt(one.0.answers, k) ==
                  AnswerAt(im.answers, k + if read == 0 && i + n <= |im.backing| then 2 else 1))
            && (one.1 != 0 ==> one.1 == EIO && one.0.backing == im.backing)
  {
    hide RunLength, Copied;
  }

  /** No request to come fails. */
  predicate NoFailures(im: Images) {
    forall k :: 0 <= k < |im.answers| ==> im.answers[k] == 0
  }

  /** Every allocated sector from i on has its place in the backing image. */
  predicate HasRoom(im: Images, i: nat) {
    |im.alloc| == |im.top| && forall k :: i <= k < |im.top| && im.alloc[k] ==> k < |im.backing|
  }

  lemma RoundSucceeds(im: Images, i: nat)
    requires im.Valid() && i < |im.top| && NoFailures(im)
    ensures var one, n := Round(im, i), Reported(im, i);
            && NoFailures(one.0) && |one.0.backing| == |im.backing|
            && (one.1 == 0 <==> !im.alloc[i] || i + n <= |im.backing|)
            && (one.1 == 0 ==> (HasRoom(im, i) <==> HasRoom(one.0, i + n)))
            && (one.1 != 0 ==> !HasRoom(im, i))
  {
    hide RunLength, Copied;
    var n := Reported(im, i);
    assert im.alloc[i + n - 1] == im.alloc[i];
  }

  /** Without failing requests the loop ends well exactly if the backing image has
      room for every allocated sector. */
  lemma {:induction false} LoopSucceedsExactly(im: Images, i: nat)
    requires im.Valid() && i <= |im.top| && NoFailures(im)
    ensures Loop(im, i).1 == 0 <==> HasRoom(im, i)
    decreases |im.top| - i
  {
    hide Reported, Round, NoFailures, HasRoom;
    if i == |im.top| {
      assert HasRoom(im, i) by { RoomAtEnd(im); }
    } else {
      RoundSucceeds(im, i);
      if Round(im, i).1 == 0 {
        LoopSucceedsExactly(Round(im, i).0, i + Reported(im, i));
      }
    }
  }

  lemma RoomAtEnd(im: Images)
    requires im.Valid()
    ensures HasRoom(im, |im.top|)
  {
  }

  /** After a commit that succeeded and whose driver emptied the overlay no sector is
      allocated; otherwise the same sectors are as before. The overlay's own data
      stays, and the result is that of the failed loop, of emptying, or zero. */
  lemma CommitEmpties(im: Images, rest: Rest)
    requires im.Valid()
    ensures var r, n := Committed(im, rest), if rest.empty.Some? then rest.empty.value else 0;
            && r.0.Valid() && r.0.top == im.top
            && (Loop(im, 0).1 == 0 && rest.empty.Some? && n >= 0 ==> forall i :: 0 <= i < |r.0.alloc| ==> !r.0.alloc[i])
            && (Loop(im, 0).1 != 0 || rest.empty.None? || n < 0 ==> r.0.alloc == im.alloc)
            && (rest.reopen.None? ==> r.1 == if Loop(im, 0).1 != 0 then EIO else n)
            && (rest.reopen.Some? ==> r.1 == rest.reopen.value)
  {
    hide Loop;
    LoopFails(im, 0);
  }

  /** A successful commit of an overlay that can be emptied, without failing requests
      and with room in the backing image: all of the view in the backing image, and
      nothing allocated above it. */
  lemma CommitMovesAll(im: Images)
    requires im.Valid() && NoFailures(im) && HasRoom(im, 0)
    ensures var r := Committed(im, Rest(Some(0), None));
            r.1 == 0 && Flattened(im, r.0) && r.0.Valid() && forall i :: 0 <= i < |r.0.alloc| ==> !r.0.alloc[i]
  {
    hide Loop, NoFailures, HasRoom, Flattened;
    LoopSucceedsExactly(im, 0);
    LoopFlattens(im);
    SameBacking(im, Loop(im, 0).0);
  }

  // ---- the code --------------------------------------------------------------------------------------

  class Overlay {
    var alloc: array<bool>
    const top: array<Sector>
    const backing: array<Sector>
    var hints: seq<nat>
    var answers: seq<int>

    ghost predicate Valid()
      reads this
    {
      alloc.Length == top.Length && top != backing
    }

    ghost function Abs(): (im: Images)
      requires Valid()
      reads this, alloc, top, backing
      ensures im.Valid()
    {
      Images(alloc[..], top[..], backing[..], hints, answers)
    }

    constructor (alloc: array<bool>, top: array<Sector>, backing: array<Sector>, hints: seq<nat>, answers: seq<int>)
      requires alloc.Length == top.Length && top != backing
      ensures Valid() && Abs() == Images(alloc[..], top[..], backing[..], hints, answers)
    {
      this.alloc, this.top, this.backing, this.hints, this.answers := alloc, top, backing, hints, answers;
    }

    /** The driver's is_allocated: a state, and a positive part of the run of equal states. */
    method IsAllocated(sector: nat) returns (a: bool, n: nat)
      requires Valid() && sector < top.Length
      modifies this`hints
      ensures Valid() && Abs() == old(Abs()).(hints := Tail(old(hints)))
      ensures a == alloc[sector] && n == Reported(old(Abs()), sector)
    {
      hide RunLength;
      a := alloc[sector];
      n := RunLength(alloc[..], sector, BUF_SECTORS);
      if hints != [] {
        if 0 < hints[0] <= n {
          n := hints[0];
        }
        hints := hints[1..];
      }
    }

    method Ask() returns (ret: int)
      requires Valid()
      modifies this`answers
      ensures Valid() && ret == NextAnswer(old(answers)) && Abs() == old(Abs()).(answers := Tail(old(answers)))
    {
      ret := NextAnswer(answers);
      answers := Tail(answers);
    }

    /** Body of the loop: read the run through the buffer, write it to the backing image. */
    method CopyRun(sector: nat, n: nat) returns (ret: int)
      requires Valid() && sector + n <= top.Length
      requires forall k :: sector <= k < sector + n ==> alloc[k]
      modifies this`answers, backing
      ensures Valid()
      ensures var im := old(Abs()).(answers := Tail(old(answers)));
              (Abs(), ret) ==
              if NextAnswer(old(answers)) != 0 || sector + n > |im.backing| then (im, EIO)
              else if NextAnswer(im.answers) != 0 then (im.(answers := Tail(im.answers)), EIO)
              else (im.(answers := Tail(im.answers), backing := Copied(im.backing, im.top, sector, n)), 0)
    {
      ret := Ask();
      if ret != 0 {
        return EIO;
      }
      var buf := top[sector..sector + n];
      if sector + n > backing.Length {
        return EIO;
      }
      ret := Ask();
      if ret != 0 {
        return EIO;
      }
      ghost var was, all, states := backing[..], top[..], alloc[..];
      forall i | 0 <= i < n { backing[sector + i] := buf[i]; }
      assert top[..] == all && alloc[..] == states;
      assert backing[..] == Copied(was, all, sector, n);
    }

    /** The commit loop. */
    method CommitLoop() returns (ret: int)
      requires Valid()
      modifies this`hints, this`answers, backing
      ensures Valid() && (Abs(), ret) == Loop(old(Abs()), 0)
    {
      hide Reported, Copied;
      var sector := 0;
      while sector < top.Length
        invariant Valid() && sector <= top.Length
        invariant Loop(Abs(), sector) == Loop(old(Abs()), 0)
      {
        ghost var im := Abs();
        var a, n := IsAllocated(sector);
        if a {
          ret := CopyRun(sector, n);
          if ret != 0 {
            return;
          }
        }
        assert Round(im, sector) == (Abs(), 0);
        sector := sector + n;
      }
      ret := 0;
    }

    /** bdrv_commit, on a backing image that is open for writing by now. */
    method CommitAll(rest: Rest) returns (ret: int)
      requires Valid()
      modifies this`hints, this`answers, this`alloc, backing
      ensures Valid() && (Abs(), ret) == Committed(old(Abs()), rest)
    {
      hide Loop;
      ret := CommitLoop();
      if ret == 0 && rest.empty.Some? {
        ret := rest.empty.value;
        if ret >= 0 {
          alloc := new bool[top.Length](i => false);
          assert alloc[..] == Unallocated(top.Length);
        }
      }
      if rest.reopen.Some? {
        ret := rest.reopen.value;
      }
    }
  }
}
