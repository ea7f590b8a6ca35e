/**
 The code of live block migration that makes the runs of BlockMigration: the
 bulk and dirty cursors over the devices, the read callback, flush_blks, the
 loops of block_save_live, and whole migrations.
 */
module BlockSaver {
  import opened Wire
  import opened BlockMigration
  import opened BlockLoad

  /** Per-device state: sizes and cursors count sectors. */
  datatype Dev = Dev(total: nat, curSector: nat, curDirty: nat, completed: nat, bulkCompleted: bool)

  predicate InDevs(devs: seq<Dev>, k: Key) {
    k.dev < |devs| && k.chunk * CHUNK < devs[k.dev].total
  }

  /** A cursor stands at a chunk boundary or at the end of the device. */
  predicate AlignedTo(cur: nat, total: nat) {
    (cur % CHUNK == 0 && cur <= total) || cur == total
  }

  predicate CursorsAligned(devs: seq<Dev>) {
    forall d <- devs :: 0 < d.total && AlignedTo(d.curSector, d.total) && d.curDirty % CHUNK == 0
  }

  /** A chunk has been bulk-read exactly when its device's cursor has passed it. */
  ghost predicate Passed(devs: seq<Dev>, keys: set<Key>, bulked: set<Key>) {
    && (forall k :: k in keys <==> InDevs(devs, k))
    && (forall k <- keys :: k in bulked <==> k.chunk * CHUNK < devs[k.dev].curSector)
  }

  /** The cursors agree with the state. */
  ghost predicate Cursors(devs: seq<Dev>, bulkCompleted: bool, keys: set<Key>, bulked: set<Key>) {
    && CursorsAligned(devs)
    && Passed(devs, keys, bulked)
    && (forall d <- devs :: d.bulkCompleted ==> d.curSector == d.total)
    && (bulkCompleted ==> forall d <- devs :: d.bulkCompleted)
  }

  /** data has the size of chunk k. */
  predicate Fits(totals: seq<nat>, k: Key, data: Chunk) {
    k.dev < |totals| && k.chunk * CHUNK < totals[k.dev] && |data| == Length(totals[k.dev], k.chunk)
  }

  ghost predicate AllFit(totals: seq<nat>, disk: Disk, queue: seq<Copy>) {
    (forall k <- disk :: Fits(totals, k, disk[k])) && (forall c <- queue :: Fits(totals, c.key, c.data))
  }

  ghost predicate SameTotals(totals: seq<nat>, devs: seq<Dev>) {
    |totals| == |devs| && forall i :: 0 <= i < |devs| ==> devs[i].total == totals[i]
  }

  class Saver {
    const names: seq<Name>
    const totals: seq<nat>
    const totalSum: nat
    var devs: seq<Dev>
    var bulkCompleted: bool
    var prevProgress: int
    /** block_mig_state, the two bitmaps, the disks and the I/O in flight. */
    var m: Mig
    /** The sections written so far, and the one being written. */
    var sections: seq<seq<Msg>>
    var cur: seq<Msg>

    ghost predicate Valid()
      reads this
    {
      && Counted(m)
      && Cursors(devs, bulkCompleted, m.disk.Keys, m.bulked)
      && m.dirty <= m.disk.Keys
      && |names| == |totals| && SameTotals(totals, devs) && AllFit(totals, m.disk, m.queue)
      && Tells(Flatten(sections) + cur, names, totals, m.wire)
    }

    /** init_blk_migration and set_dirty_tracking(1), at the start of stage 1, for
        devices that are not empty: their chunks are the disk, and untracked are
        the chunks of writes in flight at that moment. */
    constructor (ghost g: Guard, names: seq<Name>, totals: seq<nat>, disk: Disk, untracked: set<Key>)
      requires |names| == |totals| && forall t <- totals :: t > 0
      requires forall k :: k in disk <==> k.dev < |totals| && k.chunk * CHUNK < totals[k.dev]
      requires forall k <- disk :: Fits(totals, k, disk[k])
      requires untracked <= disk.Keys && (g.quiet ==> untracked == {})
      ensures Valid() && Busy(devs) && Init(g, m) && m.disk == disk && !bulkCompleted
      ensures sections == [] && cur == [] && this.names == names && this.totals == totals
      ensures totalSum == Sum(totals) && prevProgress == -1
    {
      hide Cursors, Counted, Busy, Tells, Ordered, Sum;
      this.names, this.totals, totalSum := names, totals, Sum(totals);
      devs := seq(|totals|, i requires 0 <= i < |totals| => Dev(totals[i], 0, 0, 0, false));
      bulkCompleted, prevProgress := false, -1;
      m := Mig(disk, {}, {}, {}, map[], [], [], multiset{}, untracked, 0, 0, 0, 0, 0, false);
      sections, cur := [], [];
      new;
      assert Flatten(sections) + cur == [];
      InitCounted(g, m);
      TellsEmpty(names, totals);
      FreshCursors(totals, devs, m.disk.Keys);
    }

    /** blk_send: name, place and buffer; what lies behind the data of a last,
        shorter chunk is whatever the buffer held. */
    method BlkSend(c: Copy) returns (ghost msg: Msg)
      requires |names| == |totals| && Fits(totals, c.key, c.data)
      modifies this`cur
      ensures cur == old(cur) + [msg] && Carries(msg, names, totals, c)
    {
      var buf: seq<Sector> := *;
      if |buf| != CHUNK || buf[..|c.data|] != c.data {
        buf := c.data + seq(CHUNK - |c.data|, i => []);
      }
      msg := Block(names[c.key.dev], c.key.chunk * CHUNK, buf);
      cur := cur + [Block(names[c.key.dev], c.key.chunk * CHUNK, buf)];
    }

    /** blk_mig_read_cb: into the list, in-flight bit off, counters moved. */
    method ReadCb(i: nat, data: Chunk)
      requires Valid() && i in m.aio && Fits(totals, m.aio[i].key, data)
      modifies this`m
      ensures m == Step(old(m), ReadDone(i, data)) && Valid()
      ensures m.submitted >= 0
    {
      hide Cursors, Counted, Tells, SameTotals, Fits, AllFit;
      DoneCounted(m, i, data);
      var k := m.aio[i].key;
      FitsMore(totals, m.disk, m.queue, Copy(k, data, i));
      m := m.(queue := m.queue + [Copy(k, data, i)]);
      m := m.(inflight := m.inflight - {k});
      m := m.(submitted := m.submitted - 1, readDone := m.readDone + 1, aio := m.aio - {i});
      CountedSubmitted(m);
    }

    /** mig_save_device_bulk without a shared base: the next chunk of device d is
        read, its dirty bit cleared, and the cursor moves past it. */
    method SaveDeviceBulk(d: nat) returns (done: bool)
      requires Valid() && d < |devs| && !devs[d].bulkCompleted && !m.last
      modifies this`devs, this`m
      ensures Valid() && |devs| == |old(devs)|
      ensures forall j :: 0 <= j < |devs| && j != d ==> devs[j] == old(devs)[j]
      ensures devs[d] == old(devs)[d].(curSector := devs[d].curSector, completed := devs[d].completed)
      ensures var cur := old(devs)[d].curSector;
              if cur < old(devs)[d].total then
                && Key(d, cur / CHUNK) in m.disk && Key(d, cur / CHUNK) !in old(m).bulked
                && m == Step(old(m), BulkRead(Key(d, cur / CHUNK)))
                && cur < devs[d].curSector
              else m == old(m)
      ensures devs[d].curSector <= devs[d].total
      ensures devs[d].completed == old(devs)[d].curSector
      ensures done <==> devs[d].curSector == devs[d].total
    {
      hide Counted, Cursors, AlignedTo, AllFit, Tells;
      var dev := devs[d];
      var total, cur := dev.total, dev.curSector;
      CursorAt(devs, bulkCompleted, m.disk.Keys, m.bulked, d);
      if cur >= total {
        devs := devs[d := dev.(curSector := total, completed := total)];
        CursorStays(old(devs), devs, bulkCompleted, m.disk.Keys, m.bulked, d);
        return true;
      }
      BulkedInDisk(m);
      var aligned := cur - cur % CHUNK;
      var nr := if total - aligned < CHUNK then total - aligned else CHUNK;
      var k := Key(d, aligned / CHUNK);
      IssueCounted(m, k, true, m.bulked + {k}, m.inflight);
      m := Issue(m, k, true).(bulked := m.bulked + {k});
      devs := devs[d := dev.(completed := cur, curSector := aligned + nr)];
      CursorMoves(old(devs), devs, bulkCompleted, m.disk.Keys, old(m).bulked, d);
      done := aligned + nr >= total;
    }

    /** A step outside the migration code: a guest write is submitted, reaches the
        disk or completes, or a read completes. */
    method Happens(e: Event, ghost g: Guard)
      requires Valid() && Outer(e) && Enabled(g, m, e)
      requires e.ReadDone? ==> e.i in m.aio && Fits(totals, m.aio[e.i].key, e.data)
      requires e.WriteEffect? || e.UntrackedEffect? ==> Fits(totals, e.k, e.data)
      modifies this`m
      ensures Valid() && m == Step(old(m), e) && Waited(old(m), m)
    {
      hide Cursors, Counted, Tells, SameTotals, Waited, Fits, AllFit, Enabled;
      OuterStep(g, m, e);
      WaitedMeans(m, Step(m, e));
      OuterFits(g, totals, m, e);
      match e {
        case ReadDone(i, data) => ReadCb(i, data);
        case WriteSubmit(ks) => m := m.(writes := m.writes + multiset{ks});
        case WriteEffect(_, k, data) => m := Overwrite(m, k, data);
        case WriteDone(ks) => m := m.(writes := m.writes - multiset{ks}, dirty := m.dirty + ks);
        case UntrackedEffect(k, data) => m := Overwrite(m, k, data);
        case UntrackedDone(k) => m := m.(untracked := m.untracked - {k});
      }
    }

    /** Any submission, any data that reaches the disk; or nothing. */
    method Disturb(ghost g: Guard) returns (ghost events: seq<Event>)
      requires Valid()
      modifies this`m
      ensures Valid() && Runs(g, old(m), events, m) && Waited(old(m), m)
    {
      hide Cursors, Counted, Runs, Tells, SameTotals, Waited, Fits, AllFit, Step;
      events := [];
      RunsNothing(g, m);
      WaitedNothing(m);
      WritesInDisk(m);
      var e := SendOne;
      var ks: set<Key> := *;
      var data: Chunk := *;
      if * {
        if ks <= m.disk.Keys {
          e := WriteSubmit(ks);
        }
      } else if * {
        if m.writes != multiset{} {
          ks :| ks in m.writes;
          if ks != {} {
            var k :| k in ks;
            e := WriteEffect(ks, k, data);
          }
        }
      } else if m.untracked != {} {
        var k :| k in m.untracked;
        if k in m.disk {
          e := UntrackedEffect(k, data);
        }
      }
      if e.WriteSubmit? || (e != SendOne && Fits(totals, e.k, data)) {
        RunsAppend(g, m, [], m, e);
        Happens(e, g);
        events := [] + [e];
      }
    }

    /** Any one of the requests in flight completes. */
    method CompleteOne(ghost g: Guard) returns (ghost events: seq<Event>)
      requires Valid() && (m.aio != map[] || m.writes != multiset{} || m.untracked != {})
      modifies this`m
      ensures Valid() && Runs(g, old(m), events, m) && Waited(old(m), m)
      ensures InFlight(m) < InFlight(old(m))
    {
      hide Cursors, Counted, Runs, Tells, SameTotals, Waited, Fits, AllFit;
      CountedSubmitted(m);
      var pick: nat := *;
      var e := SendOne;
      if m.aio != map[] && (pick == 0 || (m.writes == multiset{} && m.untracked == {})) {
        var i :| i in m.aio;
        var data: Chunk := *;
        if !m.aio[i].torn || !Fits(totals, m.aio[i].key, data) {
          data := m.disk[m.aio[i].key];
        }
        FitsAt(totals, m.disk, m.queue, m.aio[i].key);
        e := ReadDone(i, data);
        FewerReads(m, i);
      } else if m.writes != multiset{} && (pick == 1 || m.untracked == {}) {
        var ks :| ks in m.writes;
        e := WriteDone(ks);
        assert |m.writes - multiset{ks}| < |m.writes|;
      } else {
        var k :| k in m.untracked;
        e := UntrackedDone(k);
        assert m.untracked == (m.untracked - {k}) + {k};
      }
      RunsNothing(g, m);
      RunsAppend(g, m, [], m, e);
      Happens(e, g);
      events := [] + [e];
    }

    /** qemu_aio_flush: every read and every write in flight completes, in any
        order; meanwhile writes may reach the disk, and callbacks may submit
        finitely many more. */
    method AioFlush(ghost g: Guard) returns (ghost events: seq<Event>)
      requires Valid()
      modifies this`m
      ensures Valid() && Runs(g, old(m), events, m) && Waited(old(m), m)
      ensures m.aio == map[] && m.writes == multiset{} && m.untracked == {} && m.inflight == {}
    {
      hide Cursors, Counted, Runs, Tells, SameTotals, Waited, AllFit;
      events := [];
      RunsNothing(g, m);
      WaitedNothing(m);
      var more: nat := *;
      while m.aio != map[] || m.writes != multiset{} || m.untracked != {}
        invariant Valid() && Runs(g, old(m), events, m) && Waited(old(m), m)
        decreases more, InFlight(m)
      {
        ghost var m0 := m;
        ghost var e: seq<Event>;
        var disturbed: bool := *;
        if disturbed && more > 0 {
          e := Disturb(g);
          more := more - 1;
        } else {
          e := CompleteOne(g);
        }
        RunsTrans(g, old(m), events, m0, e, m);
        WaitedTrans(old(m), m0, m);
        events := events + e;
      }
      CountedSubmitted(m);
    }

    /** The guest runs and requests complete, for any time and in any order. */
    method GuestRuns(ghost g: Guard) returns (ghost events: seq<Event>)
      requires Valid()
      modifies this`m
      ensures Valid() && Runs(g, old(m), events, m) && Waited(old(m), m)
    {
      hide Cursors, Counted, Runs, Tells, SameTotals, Waited, AllFit;
      events := [];
      RunsNothing(g, m);
      WaitedNothing(m);
      var more: nat := *;
      while more > 0
        invariant Valid() && Runs(g, old(m), events, m) && Waited(old(m), m)
      {
        ghost var m0 := m;
        ghost var e: seq<Event>;
        var disturbed: bool := *;
        if disturbed || (m.aio == map[] && m.writes == multiset{} && m.untracked == {}) {
          e := Disturb(g);
        } else {
          e := CompleteOne(g);
        }
        RunsTrans(g, old(m), events, m0, e, m);
        WaitedTrans(old(m), m0, m);
        events := events + e;
        more := more - 1;
      }
    }

    /** flush_blks: sends completed reads in order, as many as the rate limit
        lets through. */
    method FlushBlks(ghost g: Guard, limit: nat) returns (ghost events: seq<Event>)
      requires Valid() && !m.last
      modifies this`m, this`cur
      ensures Valid() && Runs(g, old(m), events, m) && NoEos(old(cur), cur)
      ensures var n := Min(limit, |old(m).queue|);
              && m.wire == old(m).wire + old(m).queue[..n] && m.queue == old(m).queue[n..]
              && m == old(m).(wire := m.wire, queue := m.queue, readDone := old(m).readDone - n,
                              transferred := old(m).transferred + n)
      ensures m.readDone >= 0
    {
      hide Cursors, Counted, Runs, Tells, SameTotals, NoEos, Fits;
      events := [];
      RunsNothing(g, m);
      NoEosNothing(cur);
      var n := 0;
      while m.queue != [] && n < limit
        invariant 0 <= n <= |old(m).queue| && n <= limit
        invariant Valid() && Runs(g, old(m), events, m) && NoEos(old(cur), cur)
        invariant m.wire == old(m).wire + old(m).queue[..n] && m.queue == old(m).queue[n..]
        invariant m == old(m).(wire := m.wire, queue := m.queue, readDone := old(m).readDone - n,
                               transferred := old(m).transferred + n)
        decreases |m.queue|
      {
        SendCounted(m);
        RunsAppend(g, old(m), events, m, SendOne);
        events := events + [SendOne];
        SendHead();
        n := n + 1;
      }
      CountedSubmitted(m);
    }

    /** One turn of flush_blks: the head of the list is sent and leaves it. */
    method SendHead()
      requires Valid() && m.queue != [] && Counted(Step(m, SendOne))
      modifies this`m, this`cur
      ensures Valid() && m == Step(old(m), SendOne)
      ensures forall cur0 :: NoEos(cur0, old(cur)) ==> NoEos(cur0, cur)
    {
      hide Cursors, Counted, Tells, SameTotals, Fits;
      ghost var file := Flatten(sections) + cur;
      ghost var msg := BlkSend(m.queue[0]);
      TellsCopy(file, msg, names, totals, m.wire, m.queue[0]);
      assert file + [msg] == Flatten(sections) + cur;
      CarriesBlock(msg, names, totals, m.queue[0]);
      m := m.(wire := m.wire + [m.queue[0]], queue := m.queue[1..]);
      m := m.(readDone := m.readDone - 1, transferred := m.transferred + 1);
    }

    /** The wait in front of every chunk: all I/O completes if its bit is set. */
    method Settle(c: Key, isAsync: bool, ghost g: Guard) returns (ghost events: seq<Event>)
      requires Valid()
      requires isAsync || Quiescent(g, m)
      modifies this`m
      ensures Valid() && Runs(g, old(m), events, m) && c !in m.inflight
      ensures if isAsync then Waited(old(m), m) else m == old(m)
    {
      hide Cursors, Counted, Runs, NoBulkReads, Waited, AllFit, Tells, SameTotals;
      events := [];
      RunsNothing(g, m);
      WaitedNothing(m);
      CountedSubmitted(m);
      if c in m.inflight {
        events := AioFlush(g);
      }
    }

    /** What mig_save_device_dirty does with a dirty chunk it has found. */
    method TakeDirty(c: Key, isAsync: bool, ghost g: Guard) returns (ghost e: Event)
      requires Valid() && bulkCompleted && c in m.disk && c in m.dirty
      requires if isAsync then c !in m.inflight && !m.last && (g.bulkDrained ==> NoBulkReads(m)) else Quiescent(g, m)
      modifies this`m, this`cur
      ensures Valid() && Enabled(g, old(m), e)
      ensures forall cur0 :: NoEos(cur0, old(cur)) ==> NoEos(cur0, cur)
      ensures e == if isAsync then DirtyRead(c) else SyncSend(c)
      ensures m == Step(old(m), e) && m.disk == old(m).disk
      ensures isAsync && g.bulkDrained ==> NoBulkReads(m)
      ensures isAsync ==> m.submitted + m.readDone == old(m).submitted + old(m).readDone + 1
    {
      hide Cursors, Counted, NoBulkReads, BulkReading, Tells, SameTotals;
      AllBulked(devs, m.disk.Keys, m.bulked);
      BulkedInDisk(m);
      if isAsync {
        e := DirtyRead(c);
        NoneBulk(g, m, c);
        IssueCounted(m, c, false, m.bulked, m.inflight + {c});
        if g.bulkDrained {
          IssueNoBulk(m, c, m.inflight + {c});
        }
        m := Issue(m, c, false).(inflight := m.inflight + {c});
      } else {
        e := SyncSend(c);
        SyncSendCounted(m, c);
        var copy := Copy(c, m.disk[c], m.clock);
        ghost var file := Flatten(sections) + cur;
        ghost var msg := BlkSend(copy);
        TellsCopy(file, msg, names, totals, m.wire, copy);
        assert file + [msg] == Flatten(sections) + cur;
        m := m.(wire := m.wire + [copy], clock := m.clock + 1, last := true);
        m := m.(dirty := m.dirty - {c});
      }
    }

    /** One turn of mig_save_device_dirty: wait if the chunk's bit is in flight,
        then look whether it is dirty, and take it if so. */
    method LookAt(c: Key, isAsync: bool, ghost g: Guard)
      returns (taken: bool, ghost events: seq<Event>, ghost seen: Mig)
      requires Valid() && bulkCompleted && c in m.disk
      requires if isAsync then !m.last && (g.bulkDrained ==> NoBulkReads(m)) else Quiescent(g, m)
      modifies this`m, this`cur
      ensures Valid() && Runs(g, old(m), events, m) && Waited(old(m), seen)
      ensures forall cur0 :: NoEos(cur0, old(cur)) ==> NoEos(cur0, cur)
      ensures taken <==> c in seen.dirty
      ensures if taken then Took(g, old(m), events, seen, c, isAsync, m) else m == seen && cur == old(cur)
      ensures !isAsync ==> seen == old(m)
    {
      hide Cursors, Counted, Runs, NoBulkReads, Step, Enabled, Quiescent, Waited, AllFit, Tells, SameTotals;
      events := Settle(c, isAsync, g);
      WaitedNothing(m);
      seen, taken := m, c in m.dirty;
      WaitedMeans(old(m), m);
      if taken {
        ghost var e := TakeDirty(c, isAsync, g);
        RunsAppend(g, old(m), events, seen, e);
        assert (events + [e])[..|events|] == events;
        events := events + [e];
      }
    }

    /** mig_save_device_dirty: from the cursor on, the first dirty chunk of device
        d is read again (after waiting for I/O if its bit is in flight), or, in
        the last stage, sent at once. No chunk that is dirty at the call is
        passed. done: no dirty chunk was left; seen: what was there when k was taken. */
    method SaveDeviceDirty(d: nat, isAsync: bool, ghost g: Guard)
      returns (done: bool, ghost events: seq<Event>, ghost k: Key, ghost seen: Mig)
      requires Valid() && bulkCompleted && d < |devs|
      requires if isAsync then !m.last && (g.bulkDrained ==> NoBulkReads(m)) else Quiescent(g, m)
      modifies this`devs, this`m, this`cur
      ensures Valid() && Runs(g, old(m), events, m)
      ensures forall cur0 :: NoEos(cur0, old(cur)) ==> NoEos(cur0, cur)
      ensures |devs| == |old(devs)| && devs == old(devs)[d := old(devs)[d].(curDirty := devs[d].curDirty)]
      ensures old(devs)[d].curDirty <= devs[d].curDirty
      ensures done <==> devs[d].curDirty >= devs[d].total
      ensures CleanBetween(old(m), d, old(devs)[d].curDirty, devs[d].curDirty)
      ensures if done then Waited(old(m), m) && cur == old(cur)
              else k == Key(d, devs[d].curDirty / CHUNK) && Took(g, old(m), events, seen, k, isAsync, m)
      ensures !isAsync ==> if done then m == old(m) else seen == old(m)
    {
      hide Cursors, Counted, Runs, NoBulkReads, CleanBetween, Step, Enabled, Quiescent, Waited, AllFit, Tells, Took;
      events, k, seen := [], Key(d, 0), m;
      RunsNothing(g, m);
      WaitedNothing(m);
      CleanNowhere(m, d, devs[d].curDirty);
      var sector: nat := devs[d].curDirty;
      while sector < devs[d].total
        invariant Valid() && Runs(g, old(m), events, m)
        invariant devs == old(devs)[d := old(devs)[d].(curDirty := sector)]
        invariant old(devs)[d].curDirty <= sector && cur == old(cur) && Waited(old(m), m)
        invariant CleanBetween(old(m), d, old(devs)[d].curDirty, sector)
        invariant !isAsync ==> m == old(m)
        decreases devs[d].total - sector
      {
        DirtyCursorAt(devs, bulkCompleted, m.disk.Keys, m.bulked, d);
        WaitedMeans(old(m), m);
        var c := Key(d, sector / CHUNK);
        ghost var m0, e := m, [];
        var taken;
        taken, e, seen := LookAt(c, isAsync, g);
        RunsTrans(g, old(m), events, m0, e, m);
        if taken {
          TookLater(g, old(m), events, m0, e, seen, c, isAsync, m);
          k, events := c, events + e;
          break;
        }
        events := events + e;
        WaitedTrans(old(m), m0, m);
        WaitedMeans(old(m), m);
        CleanFurther(old(m), d, old(devs)[d].curDirty, sector);
        DirtyCursorMoves(devs, bulkCompleted, m.disk.Keys, m.bulked, d);
        sector := sector + CHUNK;
        devs := devs[d := devs[d].(curDirty := sector)];
      }
      done := devs[d].curDirty >= devs[d].total;
    }

    /** blk_mig_save_dirty_block: one dirty chunk of the first device that has
        one; no chunk that is dirty at the call is passed; ret is false when no
        device has any left. */
    method SaveDirtyBlock(isAsync: bool, ghost g: Guard)
      returns (ret: bool, ghost events: seq<Event>, ghost k: Key, ghost seen: Mig)
      requires Valid() && bulkCompleted
      requires if isAsync then !m.last && (g.bulkDrained ==> NoBulkReads(m)) else Quiescent(g, m) && CleanBelow(m, devs)
      modifies this`devs, this`m, this`cur
      ensures Valid() && Runs(g, old(m), events, m) && |devs| == |old(devs)|
      ensures forall cur0 :: NoEos(cur0, old(cur)) ==> NoEos(cur0, cur)
      ensures forall j :: 0 <= j < |devs| ==> CleanBetween(old(m), j, old(devs)[j].curDirty, devs[j].curDirty)
      ensures ret ==> k.dev < |devs| && k == Key(k.dev, devs[k.dev].curDirty / CHUNK)
      ensures if ret then Took(g, old(m), events, seen, k, isAsync, m)
              else Scanned(devs) && Waited(old(m), m)
      ensures ret ==> devs[k.dev].curDirty < devs[k.dev].total
      ensures ret ==> Scanned(devs[..k.dev]) && devs[k.dev + 1..] == old(devs)[k.dev + 1..]
      ensures isAsync ==>
                && !m.last && (g.bulkDrained ==> NoBulkReads(m))
                && m.submitted + m.readDone == old(m).submitted + old(m).readDone + (if ret then 1 else 0)
      ensures !isAsync ==> Quiescent(g, m) && CleanBelow(m, devs) && m.disk == old(m).disk
      ensures !isAsync ==> if ret then |m.dirty| < |old(m).dirty| else m.dirty == {}
    {
      hide Cursors, Counted, Runs, NoBulkReads, CleanBetween, CleanBelow, Step, Enabled, Quiescent, AllFit, Tells, NoEos,
           Waited, Took, SameTotals;
      events, ret, k, seen := [], false, Key(0, 0), m;
      RunsNothing(g, m);
      WaitedNothing(m);
      forall j | 0 <= j < |devs| ensures CleanBetween(m, j, devs[j].curDirty, devs[j].curDirty) {
        CleanNowhere(m, j, devs[j].curDirty);
      }
      var i := 0;
      while i < |devs|
        invariant 0 <= i <= |devs| == |old(devs)| && Valid() && Runs(g, old(m), events, m)
        invariant cur == old(cur) && Waited(old(m), m)
        invariant forall j :: i <= j < |devs| ==> devs[j] == old(devs)[j]
        invariant forall j :: 0 <= j < |devs| ==> CleanBetween(old(m), j, old(devs)[j].curDirty, devs[j].curDirty)
        invariant !isAsync ==> m == old(m) && CleanBelow(m, devs)
        invariant forall j :: 0 <= j < i ==> devs[j].curDirty >= devs[j].total
        decreases |devs| - i
      {
        WaitedMeans(old(m), m);
        ghost var m0, devs0, e := m, devs, [];
        var done;
        done, e, k, seen := SaveDeviceDirty(i, isAsync, g);
        RunsTrans(g, old(m), events, m0, e, m);
        CleanBefore(old(m), m0, i, devs0[i].curDirty, devs[i].curDirty);
        if !isAsync {
          BelowFurther(m0, devs0, devs, i);
        }
        if !done {
          ret := true;
          TookLater(g, old(m), events, m0, e, seen, k, isAsync, m);
          events := events + e;
          if !isAsync {
            SyncTaken(g, m0, e, k, devs, m);
          }
          break;
        }
        events := events + e;
        WaitedTrans(old(m), m0, m);
        i := i + 1;
      }
      if ret {
        TookMeans(g, old(m), events, seen, k, isAsync, m);
      } else {
        WaitedMeans(old(m), m);
        if !isAsync {
          NothingLeft(devs, bulkCompleted, m);
        }
      }
    }

    /** blk_mig_save_bulked_block: the next chunk of the first device whose bulk
        phase is not complete, and a progress message when the percentage has
        changed; ret is false when all are complete. */
    method SaveBulkedBlock() returns (ret: bool, ghost k: Key)
      requires Valid() && Busy(devs) && !m.last
      modifies this`devs, this`m, this`cur, this`prevProgress
      ensures Valid() && Busy(devs)
      ensures forall cur0 :: NoEos(cur0, old(cur)) ==> NoEos(cur0, cur)
      ensures if ret then k in old(m).disk && k !in old(m).bulked && m == Step(old(m), BulkRead(k))
              else m == old(m) && devs == old(devs) && forall d <- devs :: d.bulkCompleted
      ensures ret ==> k.dev < |devs| == |old(devs)| && BulkMoved(old(devs), devs, k.dev)
      ensures ret ==> k.chunk == old(devs)[k.dev].curSector / CHUNK && forall j :: 0 <= j < k.dev ==> devs[j].bulkCompleted
      ensures prevProgress == Percent(Completed(if ret then devs[..k.dev + 1] else devs), totalSum)
      ensures cur == old(cur) + if prevProgress == old(prevProgress) then [] else [Progress(prevProgress)]
    {
      hide Counted, Cursors, AllFit, Tells, SameTotals, NoEos, Completed;
      k, ret := Key(0, 0), false;
      var i, sum: nat := 0, 0;
      CompletedNone();
      assert devs[..0] == [];
      while i < |devs|
        invariant 0 <= i <= |devs| && Valid() && m == old(m) && devs == old(devs) && cur == old(cur) && !ret
        invariant Busy(devs) && sum == Completed(devs[..i]) && prevProgress == old(prevProgress)
        invariant forall j :: 0 <= j < i ==> devs[j].bulkCompleted
      {
        if !devs[i].bulkCompleted {
          k := Key(i, devs[i].curSector / CHUNK);
          assert devs[i] in devs;
          BulkOne(i);
          assert devs[..i] == old(devs)[..i];
          CompletedSnoc(devs, i);
          sum, ret := sum + devs[i].completed, true;
          break;
        }
        CompletedSnoc(devs, i);
        sum := sum + devs[i].completed;
        i := i + 1;
      }
      assert i == |devs| ==> devs[..i] == devs;
      ShowProgress(if totalSum != 0 then sum * 100 / totalSum else 100);
    }

    /** The next chunk of device d, and its completion mark. */
    method BulkOne(d: nat)
      requires Valid() && Busy(devs) && !m.last && d < |devs| && !devs[d].bulkCompleted && devs[d].curSector < devs[d].total
      modifies this`devs, this`m
      ensures Valid() && Busy(devs) && |devs| == |old(devs)| && BulkMoved(old(devs), devs, d)
      ensures var k := Key(d, old(devs)[d].curSector / CHUNK);
              k in old(m).disk && k !in old(m).bulked && m == Step(old(m), BulkRead(k))
    {
      hide Counted, Cursors, AllFit, Tells;
      var done := SaveDeviceBulk(d);
      if done {
        BulkCompletes(devs, bulkCompleted, m.disk.Keys, m.bulked, d);
        devs := devs[d := devs[d].(bulkCompleted := true)];
      }
      StillBusy(old(devs), devs, d);
    }

    method ShowProgress(progress: nat)
      requires Valid()
      modifies this`cur, this`prevProgress
      ensures Valid() && forall cur0 :: NoEos(cur0, old(cur)) ==> NoEos(cur0, cur)
      ensures prevProgress == progress
      ensures cur == old(cur) + if progress == old(prevProgress) then [] else [Progress(progress)]
    {
      hide Counted, Cursors, AllFit, SameTotals, Tells;
      if progress != prevProgress {
        prevProgress := progress;
        ghost var file := Flatten(sections) + cur;
        TellsSnoc(file, Progress(progress), names, totals, m.wire);
        cur := cur + [Progress(progress)];
        assert file + [Progress(progress)] == Flatten(sections) + cur;
      }
    }

    /** The loop of stage 2 of block_save_live: blocks are read, first in bulk and
        then dirty ones, while what is in flight or waiting stays below the rate.
        Bulk reads are drained first if none is outstanding once all chunks have
        been read, or the rate stops the loop before the bulk phase can end. */
    method StageTwoReads(rate: nat, ghost g: Guard) returns (ghost events: seq<Event>)
      requires Valid() && Busy(devs) && !m.last
      requires g.bulkDrained ==> BulkDrains(m, m.submitted + m.readDone, rate)
      modifies this
      ensures Valid() && Busy(devs) && Runs(g, old(m), events, m) && m.disk.Keys == old(m).disk.Keys && !m.last
      ensures sections == old(sections) && forall cur0 :: NoEos(cur0, old(cur)) ==> NoEos(cur0, cur)
      ensures m.transferred == old(m).transferred
      ensures (m.submitted + m.readDone) * BLOCK_SIZE >= rate || (bulkCompleted && Scanned(devs))
      ensures m.submitted + m.readDone == old(m).submitted + old(m).readDone ||
              (m.submitted + m.readDone - 1) * BLOCK_SIZE < rate
    {
      hide Counted, Cursors, Runs, NoBulkReads, Enabled, Step, AllFit, Tells, SameTotals, NoEos, Scanned;
      events := [];
      RunsNothing(g, m);
      while (m.submitted + m.readDone) * BLOCK_SIZE < rate
        invariant Valid() && Busy(devs) && Runs(g, old(m), events, m) && m.disk.Keys == old(m).disk.Keys && !m.last
        invariant g.bulkDrained ==> BulkDrains(m, m.submitted + m.readDone, rate)
        invariant m.transferred == old(m).transferred
        invariant m.submitted + m.readDone == old(m).submitted + old(m).readDone ||
                  (m.submitted + m.readDone - 1) * BLOCK_SIZE < rate
        invariant sections == old(sections) && forall cur0 :: NoEos(cur0, old(cur)) ==> NoEos(cur0, cur)
        decreases rate - (m.submitted + m.readDone) * BLOCK_SIZE, !bulkCompleted
      {
        ghost var m0 := m;
        if !bulkCompleted {
          var ret, k := SaveBulkedBlock();
          if ret {
            BulkStep(g, m0, k);
            RunsAppend(g, old(m), events, m0, BulkRead(k));
            events := events + [BulkRead(k)];
          } else {
            CompletesAll(devs, m.disk.Keys, m.bulked);
            bulkCompleted := true;
          }
        } else {
          AllBulked(devs, m.disk.Keys, m.bulked);
          NothingToBulk(m);
          var ret, e, k, seen := SaveDirtyBlock(true, g);
          if ret {
            TookMeans(g, m0, e, seen, k, true, m);
          } else {
            WaitedMeans(m0, m);
          }
          RunsTrans(g, old(m), events, m0, e, m);
          events := events + e;
          AllDone(devs, m.disk.Keys, m.bulked);
          NothingToBulk(m);
          if !ret {
            break;
          }
        }
      }
    }

    /** Stage 2 of block_save_live: the reads, and another look at the list. */
    method StageTwo(rate: nat, limit: nat, ghost g: Guard) returns (ghost events: seq<Event>)
      requires Valid() && Busy(devs) && !m.last
      requires g.bulkDrained ==> BulkDrains(m, m.submitted + m.readDone, rate)
      modifies this
      ensures Valid() && Busy(devs) && Runs(g, old(m), events, m) && m.disk.Keys == old(m).disk.Keys && !m.last
      ensures sections == old(sections) && forall cur0 :: NoEos(cur0, old(cur)) ==> NoEos(cur0, cur)
      ensures ReadEnough(m, old(m).transferred, rate) || (bulkCompleted && Scanned(devs))
      ensures m.queue == [] || m.transferred == old(m).transferred + limit
    {
      hide Counted, Cursors, Runs, NoBulkReads, Enabled, Step, AllFit, Tells, SameTotals, NoEos, Scanned;
      events := StageTwoReads(rate, g);
      ghost var m0, cur1 := m, cur;
      ghost var e := FlushBlks(g, limit);
      forall cur0 | NoEos(cur0, cur1) ensures NoEos(cur0, cur) {
        NoEosTrans(cur0, cur1, cur);
      }
      RunsTrans(g, old(m), events, m0, e, m);
      events := events + e;
    }

    /** The loop of stage 3 of block_save_live: every dirty chunk is sent; it ends,
        since each turn leaves one dirty chunk less, and then nothing is dirty. */
    method LastStage(ghost g: Guard) returns (ghost events: seq<Event>)
      requires Valid() && bulkCompleted && Quiescent(g, m) && CleanBelow(m, devs)
      modifies this`devs, this`m, this`cur
      ensures Valid() && Runs(g, old(m), events, m) && Finished(g, m) && m.disk == old(m).disk
      ensures m.transferred == old(m).transferred
      ensures forall cur0 :: NoEos(cur0, old(cur)) ==> NoEos(cur0, cur)
    {
      hide Cursors, Counted, Runs, CleanBelow, Step, Enabled, AllFit, Tells, SameTotals, NoEos;
      events := [];
      RunsNothing(g, m);
      var more := true;
      while more
        invariant Valid() && Runs(g, old(m), events, m) && Quiescent(g, m) && CleanBelow(m, devs)
        invariant m.disk == old(m).disk && m.transferred == old(m).transferred
        invariant forall cur0 :: NoEos(cur0, old(cur)) ==> NoEos(cur0, cur)
        invariant !more ==> m.dirty == {}
        decreases more, |m.dirty|
      {
        ghost var m0 := m;
        var ret, e, k, seen := SaveDirtyBlock(false, g);
        if ret {
          TookMeans(g, m0, e, seen, k, false, m);
        } else {
          WaitedMeans(m0, m);
        }
        RunsTrans(g, old(m), events, m0, e, m);
        events := events + e;
        more := ret;
      }
    }

    /** One call of block_save_live, of stage 1, 2 or 3: what the list holds is
        sent, stage 2 reads, stage 3 sends every dirty chunk, and the section gets
        its end mark. fast stands for the estimate that the rest is quickly sent. */
    method SaveLive(stage: nat, limit: nat, limit2: nat, rate: nat, fast: bool, ghost g: Guard)
      returns (ret: bool, ghost events: seq<Event>)
      requires Valid() && Busy(devs) && !m.last && cur == [] && 1 <= stage <= 3
      requires stage == 2 && g.bulkDrained ==> BulkDrains(m, m.submitted + m.readDone - Min(limit, |m.queue|), rate)
      requires stage == 3 ==> bulkCompleted && m.aio == map[] && m.writes == multiset{} && m.untracked == {}
      requires stage == 3 && g.listDrained ==> |m.queue| <= limit
      modifies this
      ensures Valid() && Runs(g, old(m), events, m) && m.disk.Keys == old(m).disk.Keys
      ensures stage != 3 ==> Busy(devs) && !m.last
      ensures stage == 3 ==> Finished(g, m) && m.disk == old(m).disk
      ensures cur == [] && |sections| == |old(sections)| + 1 && sections[..|old(sections)|] == old(sections)
      ensures Section(sections[|old(sections)|])
      ensures var sent := old(m).transferred + Min(limit, |old(m).queue|);
              if stage == 2 then
                && (ReadEnough(m, sent, rate) || (bulkCompleted && Scanned(devs)))
                && (m.queue == [] || m.transferred == sent + limit2)
              else m.transferred == sent
      ensures stage == 3 ==>
                var last := sections[|old(sections)|];
                |last| >= 2 && last[|last| - 2] == Progress(100)
      ensures ret <==> stage == 2 && bulkCompleted && (m.dirty == {} || fast)
    {
      hide Cursors, Counted, Runs, CleanBelow, Step, Enabled, AllFit, Tells, SameTotals, NoEos, Section, NoBulkReads, Scanned;
      NoEosNothing(cur);
      events := FlushBlks(g, limit);
      ResetDirtyCursor();
      if stage == 2 {
        SameBulk(old(m), m, m.submitted + m.readDone, rate);
        ghost var m0 := m;
        ghost var e := StageTwo(rate, limit2, g);
        RunsTrans(g, old(m), events, m0, e, m);
        events := events + e;
      }
      if stage == 3 {
        CountedSubmitted(m);
        assert m.submitted == 0 by { NothingSubmitted(m); }
        AllBulked(devs, m.disk.Keys, m.bulked);
        ghost var m0 := m;
        ghost var e := LastStage(g);
        RunsTrans(g, old(m), events, m0, e, m);
        events := events + e;
        ReportDone();
      }
      PutEos();
      ret := stage == 2 && bulkCompleted && (m.dirty == {} || fast);
    }

    /** The completion report of stage 3. */
    method ReportDone()
      requires Valid()
      modifies this`cur
      ensures Valid() && cur == old(cur) + [Progress(100)]
      ensures forall cur0 :: NoEos(cur0, old(cur)) ==> NoEos(cur0, cur)
    {
      hide Counted, Cursors, AllFit, SameTotals, Tells;
      ghost var file := Flatten(sections) + cur;
      TellsSnoc(file, Progress(100), names, totals, m.wire);
      cur := cur + [Progress(100)];
      assert file + [Progress(100)] == Flatten(sections) + cur;
    }

    /** The end mark, which makes what was put since the last one a section. */
    method PutEos()
      requires Valid() && NoEos([], cur)
      modifies this`cur, this`sections
      ensures Valid() && cur == [] && sections == old(sections) + [old(cur) + [Eos]] && Section(old(cur) + [Eos])
    {
      hide Counted, Cursors, AllFit, SameTotals, Tells;
      ghost var file := Flatten(sections) + cur;
      TellsSnoc(file, Eos, names, totals, m.wire);
      sections := sections + [cur + [Eos]];
      assert sections[..|old(sections)|] == old(sections);
      cur := [];
      assert Flatten(sections) + cur == file + [Eos];
    }

    /** blk_mig_reset_dirty_cursor */
    method ResetDirtyCursor()
      requires Valid()
      modifies this`devs
      ensures Valid() && CleanBelow(m, devs) && (old(Busy(devs)) ==> Busy(devs))
      ensures |devs| == |old(devs)| && forall j :: 0 <= j < |devs| ==> devs[j] == old(devs)[j].(curDirty := 0)
    {
      hide Counted, Cursors, Busy, SameTotals, AllFit, Tells;
      var i := 0;
      while i < |devs|
        invariant 0 <= i <= |devs| && Valid() && (old(Busy(devs)) ==> Busy(devs))
        invariant |devs| == |old(devs)|
        invariant forall j :: 0 <= j < |devs| ==> devs[j] == if j < i then old(devs)[j].(curDirty := 0) else old(devs)[j]
      {
        ResetOne(devs, bulkCompleted, m.disk.Keys, m.bulked, i);
        ResetOthers(totals, devs, i);
        devs := devs[i := devs[i].(curDirty := 0)];
        i := i + 1;
      }
    }
  }

  // ---- the bulk cursor over a shared base ------------------------------------------------

  /** The skip of mig_save_device_bulk over a shared base: from cur on, runs that
      is_allocated reports as unallocated are passed, whatever positive part of a
      run it reports. hints are the run lengths it would like to report. */
  method SkipUnallocated(alloc: seq<bool>, cur0: nat, hints: seq<nat>) returns (cur: nat)
    requires cur0 <= |alloc|
    ensures cur0 <= cur <= |alloc| && (forall i :: cur0 <= i < cur ==> !alloc[i]) && (cur < |alloc| ==> alloc[cur])
  {
    cur := cur0;
    var asked := 0;
    while cur < |alloc| && !alloc[cur]
      invariant cur0 <= cur <= |alloc| && 0 <= asked && forall i :: cur0 <= i < cur ==> !alloc[i]
      decreases |alloc| - cur
    {
      var n, most := 1, if asked < |hints| then hints[asked] else 1;
      while n < most && cur + n < |alloc| && !alloc[cur + n]
        invariant 1 <= n && cur + n <= |alloc| && forall i :: cur <= i < cur + n ==> !alloc[i]
        decreases |alloc| - (cur + n)
      {
        n := n + 1;
      }
      cur, asked := cur + n, asked + 1;
    }
  }

  /** mig_save_device_bulk over a shared base: the chunk it reads starts at a chunk
      boundary, the cursor strictly advances, and every allocated sector between
      the old and the new cursor is in the chunk that is read. */
  method NextBulkChunk(alloc: seq<bool>, cur: nat, hints: seq<nat>) returns (found: bool, first: nat, next: nat)
    requires AlignedTo(cur, |alloc|)
    ensures AlignedTo(next, |alloc|) && (next < |alloc| ==> next % CHUNK == 0)
    ensures found ==> first % CHUNK == 0 && cur <= first < next && next - first <= CHUNK
    ensures found ==> cur < next && forall i :: cur <= i < next && alloc[i] ==> first <= i
    ensures !found ==> next == |alloc| && forall i :: cur <= i < |alloc| ==> !alloc[i]
  {
    var at := SkipUnallocated(alloc, cur, hints);
    if at >= |alloc| {
      return false, at, |alloc|;
    }
    first := at - at % CHUNK;
    var nr := if |alloc| - first < CHUNK then |alloc| - first else CHUNK;
    found, next := true, first + nr;
  }

  // ---- a whole migration ------------------------------------------------------------

  /** What the surroundings give a call of stage 2: how much flush_blks may send at
      its start and at its end, the rate, and the estimate of the rest. */
  datatype Round = Round(limit: nat, limit2: nat, rate: nat, fast: bool)

  /** How a migration ends: done; not ready for the last stage after all rounds; a
      round that could read a chunk again before its bulk read is complete; a list
      the last stage may not send as a whole. */
  datatype Ending = Done | NotReady | BulkOutstanding(round: nat) | ListTooLong

  /** The last thing a round is told before it reads: whether bulk reads are drained. */
  predicate RoundDrains(s: Mig, r: Round) {
    BulkDrains(s, s.submitted + s.readDone - Min(r.limit, |s.queue|), r.rate)
  }

  /** Whatever devices of these sizes a receiver has, the sections make them those of the disk. */
  ghost predicate Arrives(names: seq<Name>, totals: seq<nat>, disk: Disk, sections: seq<seq<Msg>>) {
    forall source: Images, target: Images ::
      Shows(disk, names, source) && Sized(names, totals, source) && Sized(names, totals, target) ==>
      Arrived(names, source, LoadSections(target, sections))
  }

  ghost predicate Arrived(names: seq<Name>, source: Images, r: Option<Images>) {
    r.Some? && forall n <- names :: n in r.value && n in source && r.value[n] == source[n]
  }

  /** A migration from stage 1 on: rounds of stage 2 with the guest running in
      between, the guest stopped and all its requests complete, and stage 3. If
      the two drains happen, the receiver ends with the sender's disks. */
  method Migrate(v: Saver, rounds: seq<Round>, limit: nat) returns (ending: Ending, ghost events: seq<Event>)
    requires v.Valid() && Busy(v.devs) && Init(ALL, v.m) && v.sections == [] && v.cur == [] && Distinct(v.names)
    modifies v
    ensures v.Valid() && Runs(ALL, old(v.m), events, v.m) && forall m <- v.sections :: Section(m)
    ensures ending.Done? ==> Finished(ALL, v.m) && Arrives(v.names, v.totals, v.m.disk, v.sections)
    ensures ending.NotReady? ==> |v.sections| == |rounds| + 1
    ensures ending.BulkOutstanding? ==> ending.round < |rounds| && !RoundDrains(v.m, rounds[ending.round])
    ensures ending.ListTooLong? ==> |v.m.queue| > limit
  {
    hide Cursors, Counted, Runs, AllFit, Tells, SameTotals, Section, Init, Finished, Distinct, Busy, BulkDrains, Shows;
    NotLast(v.m);
    var ready, events1 := v.SaveLive(1, 0, 0, 0, false, ALL);
    events, ready := events1, false;
    var i := 0;
    while i < |rounds| && !ready
      invariant 0 <= i <= |rounds| && v.Valid() && Busy(v.devs) && !v.m.last && v.cur == []
      invariant Runs(ALL, old(v.m), events, v.m) && |v.sections| == i + 1 && forall m <- v.sections :: Section(m)
      invariant ready ==> v.bulkCompleted
      decreases |rounds| - i
    {
      ghost var m0 := v.m;
      ghost var e := v.GuestRuns(ALL);
      RunsTrans(ALL, old(v.m), events, m0, e, v.m);
      events := events + e;
      WaitedMeans(m0, v.m);
      if !RoundDrains(v.m, rounds[i]) {
        return BulkOutstanding(i), events;
      }
      m0 := v.m;
      ghost var sections0 := v.sections;
      ready, e := v.SaveLive(2, rounds[i].limit, rounds[i].limit2, rounds[i].rate, rounds[i].fast, ALL);
      RunsTrans(ALL, old(v.m), events, m0, e, v.m);
      events := events + e;
      SectionsMore(sections0, v.sections);
      i := i + 1;
    }
    if !ready {
      return NotReady, events;
    }
    ghost var m0 := v.m;
    ghost var e := v.AioFlush(ALL);
    RunsTrans(ALL, old(v.m), events, m0, e, v.m);
    events := events + e;
    WaitedMeans(m0, v.m);
    if |v.m.queue| > limit {
      return ListTooLong, events;
    }
    m0 := v.m;
    ghost var sections0 := v.sections;
    ready, e := v.SaveLive(3, limit, 0, 0, false, ALL);
    RunsTrans(ALL, old(v.m), events, m0, e, v.m);
    events := events + e;
    SectionsMore(sections0, v.sections);
    FinishedArrives(old(v.m), events, v.m, v.names, v.totals, v.sections);
    ending := Done;
  }

  lemma NotLast(s: Mig)
    requires Init(ALL, s)
    ensures !s.last
  {
  }

  lemma SectionsMore(a: seq<seq<Msg>>, b: seq<seq<Msg>>)
    requires |b| == |a| + 1 && b[..|a|] == a && Section(b[|a|]) && forall m <- a :: Section(m)
    ensures forall m <- b :: Section(m)
  {
    assert b == a + [b[|a|]];
  }

  lemma FinishedArrives(s0: Mig, events: seq<Event>, s: Mig, names: seq<Name>, totals: seq<nat>, sections: seq<seq<Msg>>)
    requires Init(ALL, s0) && Runs(ALL, s0, events, s) && Finished(ALL, s) && Distinct(names)
    requires (forall m <- sections :: Section(m)) && Tells(Flatten(sections) + [], names, totals, s.wire)
    ensures Arrives(names, totals, s.disk, sections)
  {
    hide Init, Runs, Finished, Distinct, Section, Shows, Sized, Tells, LoadSections;
    assert Flatten(sections) + [] == Flatten(sections);
    forall source: Images, target: Images |
      Shows(s.disk, names, source) && Sized(names, totals, source) && Sized(names, totals, target)
      ensures Arrived(names, source, LoadSections(target, sections))
    {
      ImagesConverge(s0, events, s, names, totals, source, target, sections);
    }
  }

  lemma TellsEmpty(names: seq<Name>, totals: seq<nat>)
    ensures Tells([], names, totals, [])
  {
  }

  lemma FreshCursors(totals: seq<nat>, devs: seq<Dev>, keys: set<Key>)
    requires |devs| == |totals| && forall i :: 0 <= i < |devs| ==> devs[i] == Dev(totals[i], 0, 0, 0, false)
    requires forall t <- totals :: t > 0
    requires forall k :: k in keys <==> k.dev < |totals| && k.chunk * CHUNK < totals[k.dev]
    ensures Cursors(devs, false, keys, {}) && Busy(devs)
  {
    forall d | d in devs ensures d.total > 0 && d == Dev(d.total, 0, 0, 0, false) {
      var i :| 0 <= i < |devs| && devs[i] == d;
      assert totals[i] in totals;
    }
  }

  function Completed(devs: seq<Dev>): nat {
    if devs == [] then 0 else Completed(devs[..|devs| - 1]) + devs[|devs| - 1].completed
  }

  lemma CompletedNone()
    ensures Completed([]) == 0
  {
  }

  lemma CompletedSnoc(devs: seq<Dev>, i: nat)
    requires i < |devs|
    ensures Completed(devs[..i + 1]) == Completed(devs[..i]) + devs[i].completed
  {
    assert devs[..i + 1][..i] == devs[..i];
  }

  /** The progress shown: how many per cent of all sectors are completed. */
  function Percent(completed: nat, total: nat): nat {
    if total == 0 then 100 else completed * 100 / total
  }

  /** One bulk read moved the cursor of device d over one chunk, cut at the end of the
      device, where its bulk phase is complete; its old place counts as completed. */
  predicate BulkMoved(devs: seq<Dev>, devs': seq<Dev>, d: nat) {
    && d < |devs| == |devs'| && devs[d].curSector < devs[d].total && !devs[d].bulkCompleted
    && devs' == devs[d := devs[d].(curSector := devs'[d].curSector, completed := devs[d].curSector,
                                   bulkCompleted := devs'[d].curSector == devs[d].total)]
    && devs[d].curSector < devs'[d].curSector <= devs[d].total
  }

  function Sum(ns: seq<nat>): nat {
    if ns == [] then 0 else Sum(ns[..|ns| - 1]) + ns[|ns| - 1]
  }

  function Min(a: nat, b: nat): nat {
    if a < b then a else b
  }

  /** Messages were added, and no end mark among them. */
  ghost predicate NoEos(a: seq<Msg>, b: seq<Msg>) {
    |a| <= |b| && b[..|a|] == a && forall i :: |a| <= i < |b| ==> !b[i].Eos?
  }

  lemma NoEosTrans(a: seq<Msg>, b: seq<Msg>, c: seq<Msg>)
    requires NoEos(a, b) && NoEos(b, c)
    ensures NoEos(a, c)
  {
    assert forall i :: 0 <= i < |b| ==> c[i] == c[..|b|][i];
  }

  lemma NoEosNothing(a: seq<Msg>)
    ensures NoEos(a, a)
  {
  }

  // ---- steps outside the migration code -------------------------------------------

  predicate Outer(e: Event) {
    e.ReadDone? || e.WriteSubmit? || e.WriteEffect? || e.WriteDone? || e.UntrackedEffect? || e.UntrackedDone?
  }

  /** What such steps leave alone: the devices, the bulk phase, the stream, the
      reads in flight or in the list as a number; dirty chunks stay dirty. */
  ghost predicate Waited(a: Mig, b: Mig) {
    && b.disk.Keys == a.disk.Keys && b.bulked == a.bulked && a.dirty <= b.dirty
    && b.submitted + b.readDone == a.submitted + a.readDone && b.transferred == a.transferred
    && b.wire == a.wire && b.last == a.last
    && (NoBulkReads(a) ==> NoBulkReads(b))
  }

  lemma WaitedNothing(a: Mig)
    ensures Waited(a, a)
  {
  }

  lemma WaitedTrans(a: Mig, b: Mig, c: Mig)
    requires Waited(a, b) && Waited(b, c)
    ensures Waited(a, c)
  {
  }

  lemma WaitedMeans(a: Mig, b: Mig)
    requires Waited(a, b)
    ensures b.disk.Keys == a.disk.Keys && b.bulked == a.bulked && b.last == a.last && a.dirty <= b.dirty
    ensures b.submitted + b.readDone == a.submitted + a.readDone && b.transferred == a.transferred
    ensures NoBulkReads(a) ==> NoBulkReads(b)
  {
  }

  lemma OuterStep(g: Guard, s: Mig, e: Event)
    requires Counted(s) && Outer(e) && Enabled(g, s, e) && s.dirty <= s.disk.Keys
    ensures Counted(Step(s, e)) && Waited(s, Step(s, e)) && Step(s, e).dirty <= s.disk.Keys
  {
    hide Counted, Waited;
    StepCounted(g, s, e);
    WritesInDisk(s);
    match e
    case ReadDone(i, _) => NoBulkLess(s, Step(s, e), i);
    case WriteSubmit(_) => SameReads(s, Step(s, e));
    case WriteEffect(_, k, _) => SameReads(s, Step(s, e));
    case WriteDone(_) => SameReads(s, Step(s, e));
    case UntrackedEffect(k, _) => SameReads(s, Step(s, e));
    case UntrackedDone(_) => SameReads(s, Step(s, e));
  }

  lemma NoBulkLess(s: Mig, s': Mig, i: nat)
    requires i in s.aio && s' == s.(aio := s.aio - {i}, queue := s'.queue, inflight := s'.inflight,
                                    submitted := s.submitted - 1, readDone := s.readDone + 1)
    ensures Waited(s, s')
  {
  }

  lemma SameReads(s: Mig, s': Mig)
    requires s' == s.(disk := s'.disk, aio := s'.aio, writes := s'.writes, dirty := s'.dirty, untracked := s'.untracked)
    requires s'.disk.Keys == s.disk.Keys && s.dirty <= s'.dirty && s'.aio.Keys == s.aio.Keys
    requires forall i <- s.aio :: s'.aio[i].bulk == s.aio[i].bulk
    ensures Waited(s, s')
  {
  }

  lemma OuterFits(g: Guard, totals: seq<nat>, s: Mig, e: Event)
    requires AllFit(totals, s.disk, s.queue) && Outer(e) && Enabled(g, s, e)
    requires e.ReadDone? ==> e.i in s.aio && Fits(totals, s.aio[e.i].key, e.data)
    requires e.WriteEffect? || e.UntrackedEffect? ==> Fits(totals, e.k, e.data)
    ensures AllFit(totals, Step(s, e).disk, Step(s, e).queue)
  {
    hide Fits;
  }

  lemma FitsMore(totals: seq<nat>, disk: Disk, queue: seq<Copy>, c: Copy)
    requires AllFit(totals, disk, queue) && Fits(totals, c.key, c.data)
    ensures AllFit(totals, disk, queue + [c])
  {
    hide Fits;
  }

  lemma FitsAt(totals: seq<nat>, disk: Disk, queue: seq<Copy>, k: Key)
    requires AllFit(totals, disk, queue) && k in disk
    ensures Fits(totals, k, disk[k])
  {
  }

  function InFlight(s: Mig): nat {
    |s.aio| + |s.writes| + |s.untracked|
  }

  lemma FewerReads(s: Mig, i: nat)
    requires i in s.aio
    ensures |s.aio - {i}| < |s.aio|
  {
    assert (s.aio - {i}).Keys == s.aio.Keys - {i};
  }

  // ---- the bulk phase and the rate ----------------------------------------------------

  /** Chunks the bulk phase has not read yet. */
  function Unread(s: Mig): nat {
    |s.disk.Keys - s.bulked|
  }

  /** With `waiting` reads in flight or in the list: no bulk read is outstanding
      and none is left to issue, or the rate is used up before the last is issued. */
  predicate BulkDrains(s: Mig, waiting: int, rate: nat) {
    (NoBulkReads(s) && Unread(s) == 0) || (waiting + Unread(s)) * BLOCK_SIZE >= rate
  }

  /** Beyond the first `transferred` reads, those issued reach the rate. */
  predicate ReadEnough(s: Mig, transferred: int, rate: nat) {
    (s.submitted + s.readDone + s.transferred - transferred) * BLOCK_SIZE >= rate
  }

  /** Every dirty cursor stands at the end of its device. */
  predicate Scanned(devs: seq<Dev>) {
    forall d <- devs :: d.curDirty >= d.total
  }

  lemma SameBulk(a: Mig, b: Mig, waiting: int, rate: nat)
    requires a.aio == b.aio && a.disk == b.disk && a.bulked == b.bulked
    ensures BulkDrains(a, waiting, rate) <==> BulkDrains(b, waiting, rate)
  {
  }

  lemma NothingToBulk(s: Mig)
    requires s.disk.Keys <= s.bulked
    ensures Unread(s) == 0
  {
    assert s.disk.Keys - s.bulked == {};
  }

  /** BDRV_SECTORS_PER_DIRTY_CHUNK << BDRV_SECTOR_BITS */
  const BLOCK_SIZE := 0x10_0000

  /** A device whose bulk phase is not complete still has sectors to read. */
  predicate Busy(devs: seq<Dev>) {
    forall d <- devs :: !d.bulkCompleted ==> d.curSector < d.total
  }

  lemma StillBusy(devs: seq<Dev>, devs': seq<Dev>, d: nat)
    requires Busy(devs) && |devs| == |devs'| && d < |devs|
    requires forall j :: 0 <= j < |devs| && j != d ==> devs'[j] == devs[j]
    requires !devs'[d].bulkCompleted ==> devs'[d].curSector < devs'[d].total
    ensures Busy(devs')
  {
    forall e | e in devs' ensures !e.bulkCompleted ==> e.curSector < e.total {
      var j :| 0 <= j < |devs'| && devs'[j] == e;
      assert devs[j] in devs;
    }
  }

  lemma BulkCompletes(devs: seq<Dev>, all: bool, keys: set<Key>, bulked: set<Key>, d: nat)
    requires Cursors(devs, all, keys, bulked) && d < |devs| && devs[d].curSector == devs[d].total
    ensures Cursors(devs[d := devs[d].(bulkCompleted := true)], all, keys, bulked)
  {
    var devs' := devs[d := devs[d].(bulkCompleted := true)];
    SameShape(devs, devs');
    assert devs[d] in devs;
    assert forall e <- devs' :: e in devs || e == devs'[d];
  }

  lemma CompletesAll(devs: seq<Dev>, keys: set<Key>, bulked: set<Key>)
    requires Cursors(devs, false, keys, bulked) && forall d <- devs :: d.bulkCompleted
    ensures Cursors(devs, true, keys, bulked)
  {
  }

  lemma AllDone(devs: seq<Dev>, keys: set<Key>, bulked: set<Key>)
    requires Cursors(devs, true, keys, bulked)
    ensures Busy(devs)
  {
  }

  lemma BulkStep(g: Guard, s: Mig, k: Key)
    requires k in s.disk && k !in s.bulked && !s.last
    ensures Enabled(g, s, BulkRead(k))
    ensures var s' := Step(s, BulkRead(k));
            s'.submitted + s'.readDone == s.submitted + s.readDone + 1 && s'.disk == s.disk &&
            s'.transferred == s.transferred &&
            Unread(s) == Unread(s') + 1 && s'.last == s.last
  {
    var s' := Step(s, BulkRead(k));
    assert s.disk.Keys - s.bulked == (s'.disk.Keys - s'.bulked) + {k};
  }

  /** The take of chunk k in the asynchronous phase and in the last stage. */
  function TakeOf(k: Key, isAsync: bool): Event {
    if isAsync then DirtyRead(k) else SyncSend(k)
  }

  /** From m0 on there was only waiting, up to `seen`; there k was dirty, and was
      taken by the last event. */
  ghost predicate Took(g: Guard, m0: Mig, events: seq<Event>, seen: Mig, k: Key, isAsync: bool, m1: Mig) {
    && Waited(m0, seen) && k in seen.disk && k in seen.dirty
    && events != [] && events[|events| - 1] == TakeOf(k, isAsync)
    && Runs(g, m0, events[..|events| - 1], seen)
    && m1 == Step(seen, TakeOf(k, isAsync))
  }

  lemma TookLater(g: Guard, a: Mig, e1: seq<Event>, b: Mig, e2: seq<Event>, seen: Mig, k: Key, isAsync: bool, m1: Mig)
    requires Runs(g, a, e1, b) && Waited(a, b) && Took(g, b, e2, seen, k, isAsync, m1)
    ensures Took(g, a, e1 + e2, seen, k, isAsync, m1)
  {
    hide Runs, Waited, Step;
    var n := |e2| - 1;
    RunsTrans(g, a, e1, b, e2[..n], seen);
    WaitedTrans(a, b, seen);
    assert (e1 + e2)[..|e1| + n] == e1 + e2[..n];
  }

  lemma TookMeans(g: Guard, m0: Mig, events: seq<Event>, seen: Mig, k: Key, isAsync: bool, m1: Mig)
    requires Took(g, m0, events, seen, k, isAsync, m1)
    ensures m1.disk.Keys == m0.disk.Keys && m1.bulked == m0.bulked && m1.transferred == m0.transferred
    ensures isAsync ==> m1.last == m0.last && m1.submitted + m1.readDone == m0.submitted + m0.readDone + 1
    ensures isAsync && NoBulkReads(m0) ==> NoBulkReads(m1)
  {
    hide Runs;
  }

  lemma SyncTaken(g: Guard, s: Mig, events: seq<Event>, k: Key, devs: seq<Dev>, s': Mig)
    requires Took(g, s, events, s, k, false, s') && Quiescent(g, s) && CleanBelow(s, devs)
    ensures |s'.dirty| < |s.dirty| && s'.disk == s.disk && Quiescent(g, s') && CleanBelow(s', devs)
  {
    hide Runs;
    SyncShrinks(g, s, k, devs);
  }

  /** No dirty chunk lies in front of its device's dirty cursor. */
  ghost predicate CleanBelow(s: Mig, devs: seq<Dev>) {
    forall k <- s.dirty :: k.dev < |devs| ==> devs[k.dev].curDirty <= k.chunk * CHUNK
  }

  lemma ResetOne(devs: seq<Dev>, all: bool, keys: set<Key>, bulked: set<Key>, d: nat)
    requires Cursors(devs, all, keys, bulked) && d < |devs|
    ensures Cursors(devs[d := devs[d].(curDirty := 0)], all, keys, bulked)
  {
    var devs' := devs[d := devs[d].(curDirty := 0)];
    SameShape(devs, devs');
    assert devs[d] in devs;
    assert forall e <- devs' :: e in devs || e == devs'[d];
  }

  lemma ResetOthers(totals: seq<nat>, devs: seq<Dev>, d: nat)
    requires SameTotals(totals, devs) && d < |devs|
    ensures var devs' := devs[d := devs[d].(curDirty := 0)];
            SameTotals(totals, devs') && (Busy(devs) ==> Busy(devs'))
  {
    assert devs[d] in devs;
  }

  lemma BelowFurther(s: Mig, devs: seq<Dev>, devs': seq<Dev>, d: nat)
    requires CleanBelow(s, devs) && |devs| == |devs'| && d < |devs|
    requires devs' == devs[d := devs[d].(curDirty := devs'[d].curDirty)]
    requires CleanBetween(s, d, devs[d].curDirty, devs'[d].curDirty)
    ensures CleanBelow(s, devs')
  {
  }

  lemma SyncShrinks(g: Guard, s: Mig, k: Key, devs: seq<Dev>)
    requires k in s.disk && k in s.dirty && Quiescent(g, s) && CleanBelow(s, devs)
    ensures var s' := Step(s, SyncSend(k));
            |s'.dirty| < |s.dirty| && s'.disk == s.disk && Quiescent(g, s') && CleanBelow(s', devs)
  {
    var s' := Step(s, SyncSend(k));
    assert s'.dirty + {k} == s.dirty;
  }

  lemma NothingLeft(devs: seq<Dev>, all: bool, s: Mig)
    requires Cursors(devs, all, s.disk.Keys, s.bulked) && s.dirty <= s.disk.Keys && CleanBelow(s, devs)
    requires forall j :: 0 <= j < |devs| ==> devs[j].curDirty >= devs[j].total
    ensures s.dirty == {}
  {
    forall k | k in s.dirty ensures false {
    }
  }

  /** No chunk of device d that starts in sectors [a, b) is dirty. */
  ghost predicate CleanBetween(s: Mig, d: nat, a: nat, b: nat) {
    forall k <- s.dirty :: k.dev == d ==> !(a <= k.chunk * CHUNK < b)
  }

  lemma CleanNowhere(s: Mig, d: nat, a: nat)
    ensures CleanBetween(s, d, a, a)
  {
  }

  lemma CleanFurther(s: Mig, d: nat, a: nat, b: nat)
    requires b % CHUNK == 0 && Key(d, b / CHUNK) !in s.dirty
    ensures CleanBetween(s, d, a, b) ==> CleanBetween(s, d, a, b + CHUNK)
  {
  }

  /** What is clean after waiting was clean before. */
  lemma CleanBefore(a: Mig, b: Mig, d: nat, from: nat, to: nat)
    requires Waited(a, b) && CleanBetween(b, d, from, to)
    ensures CleanBetween(a, d, from, to)
  {
  }

  lemma DirtyCursorAt(devs: seq<Dev>, all: bool, keys: set<Key>, bulked: set<Key>, d: nat)
    requires Cursors(devs, all, keys, bulked) && d < |devs| && devs[d].curDirty < devs[d].total
    ensures devs[d].curDirty % CHUNK == 0 && Key(d, devs[d].curDirty / CHUNK) in keys
  {
    assert devs[d] in devs;
    assert InDevs(devs, Key(d, devs[d].curDirty / CHUNK));
  }

  lemma DirtyCursorMoves(devs: seq<Dev>, all: bool, keys: set<Key>, bulked: set<Key>, d: nat)
    requires Cursors(devs, all, keys, bulked) && d < |devs|
    ensures Cursors(devs[d := devs[d].(curDirty := devs[d].curDirty + CHUNK)], all, keys, bulked)
  {
    var devs' := devs[d := devs[d].(curDirty := devs[d].curDirty + CHUNK)];
    SameShape(devs, devs');
    assert devs[d] in devs;
    assert forall e <- devs' :: e in devs || e == devs'[d];
  }

  /** Once the bulk phase is complete every chunk has been bulk-read. */
  lemma AllBulked(devs: seq<Dev>, keys: set<Key>, bulked: set<Key>)
    requires Cursors(devs, true, keys, bulked)
    ensures keys <= bulked
  {
    forall k | k in keys ensures k in bulked {
      assert InDevs(devs, k);
      assert devs[k.dev] in devs;
    }
  }

  lemma NoneBulk(g: Guard, s: Mig, k: Key)
    requires g.bulkDrained ==> NoBulkReads(s)
    ensures g.bulkDrained ==> !BulkReading(s, k)
  {
  }

  lemma IssueNoBulk(s: Mig, k: Key, inflight: set<Key>)
    requires NoBulkReads(s)
    ensures NoBulkReads(Issue(s, k, false).(inflight := inflight))
  {
  }

  lemma {:induction false} RunsTrans(g: Guard, a: Mig, e1: seq<Event>, b: Mig, e2: seq<Event>, c: Mig)
    requires Runs(g, a, e1, b) && Runs(g, b, e2, c)
    ensures Runs(g, a, e1 + e2, c)
    decreases |e1|
  {
    if e1 == [] {
      assert e1 + e2 == e2;
    } else {
      assert (e1 + e2)[1..] == e1[1..] + e2;
      RunsTrans(g, Step(a, e1[0]), e1[1..], b, e2, c);
    }
  }

  predicate NoBulkReads(s: Mig) {
    forall i <- s.aio :: !s.aio[i].bulk
  }

  lemma RunsNothing(g: Guard, s: Mig)
    ensures Runs(g, s, [], s)
  {
  }

  lemma CountedSubmitted(s: Mig)
    requires Counted(s)
    ensures s.submitted >= 0 && s.readDone >= 0 && s.bulked <= s.disk.Keys
    ensures forall i <- s.aio :: s.aio[i].key in s.disk
    ensures s.aio == map[] ==> s.inflight == {}
    ensures s.readDone == |s.queue|
  {
  }

  lemma NothingSubmitted(s: Mig)
    requires Counted(s) && s.aio == map[]
    ensures s.submitted == 0
  {
  }

  /** Where the bulk cursor goes from cur. */
  function NextCursor(cur: nat, total: nat): nat
    requires cur < total
  {
    if total - cur < CHUNK then total else cur + CHUNK
  }

  lemma NextChunk(cur: nat, total: nat)
    requires AlignedTo(cur, total) && cur < total
    ensures cur % CHUNK == 0 && cur / CHUNK * CHUNK == cur
    ensures AlignedTo(NextCursor(cur, total), total)
  {
  }

  lemma CursorPasses(cur: nat, total: nat, chunk: nat)
    requires AlignedTo(cur, total) && cur < total && chunk * CHUNK < total
    ensures chunk * CHUNK < NextCursor(cur, total) <==> chunk * CHUNK < cur || chunk == cur / CHUNK
  {
  }

  lemma CursorAt(devs: seq<Dev>, all: bool, keys: set<Key>, bulked: set<Key>, d: nat)
    requires Cursors(devs, all, keys, bulked) && d < |devs|
    ensures devs[d].curSector <= devs[d].total
    ensures var cur, k := devs[d].curSector, Key(d, devs[d].curSector / CHUNK);
            cur < devs[d].total ==>
              cur % CHUNK == 0 && AlignedTo(cur, devs[d].total) && k in keys && k !in bulked
  {
    var cur := devs[d].curSector;
    assert devs[d] in devs;
    if cur < devs[d].total {
      NextChunk(cur, devs[d].total);
      assert InDevs(devs, Key(d, cur / CHUNK));
    }
  }

  lemma CursorStays(devs: seq<Dev>, devs': seq<Dev>, all: bool, keys: set<Key>, bulked: set<Key>, d: nat)
    requires Cursors(devs, all, keys, bulked) && d < |devs| && devs[d].curSector == devs[d].total
    requires devs' == devs[d := devs[d].(completed := devs[d].total)]
    ensures Cursors(devs', all, keys, bulked)
  {
    SameShape(devs, devs');
    assert forall e <- devs' :: e in devs || e == devs'[d];
    assert devs[d] in devs;
  }

  lemma SameShape(devs: seq<Dev>, devs': seq<Dev>)
    requires |devs| == |devs'| && forall i :: 0 <= i < |devs| ==> devs[i].total == devs'[i].total
    ensures forall k :: InDevs(devs, k) <==> InDevs(devs', k)
  {
  }

  lemma CursorMoves(devs: seq<Dev>, devs': seq<Dev>, all: bool, keys: set<Key>, bulked: set<Key>, d: nat)
    requires Cursors(devs, all, keys, bulked) && d < |devs|
    requires !devs[d].bulkCompleted && devs[d].curSector < devs[d].total
    requires devs' == devs[d := devs[d].(completed := devs[d].curSector,
                                         curSector := NextCursor(devs[d].curSector, devs[d].total))]
    ensures Cursors(devs', all, keys, bulked + {Key(d, devs[d].curSector / CHUNK)})
  {
    var cur, total := devs[d].curSector, devs[d].total;
    SameShape(devs, devs');
    assert devs[d] in devs;
    NextChunk(cur, total);
    assert forall e <- devs' :: e in devs || e == devs'[d];
    forall q | q in keys
      ensures q in bulked + {Key(d, cur / CHUNK)} <==> q.chunk * CHUNK < devs'[q.dev].curSector
    {
      if q.dev == d { CursorPasses(cur, total, q.chunk); }
    }
  }
}
