/**
 Live block migration as a transition system: bulk reads, asynchronous reads of
 dirty chunks, their completions, the list of completed reads, guest writes, and
 the synchronous last stage.
 */
module BlockMigration {
  import opened Wire

  /** One dirty chunk of one device. */
  datatype Key = Key(dev: nat, chunk: nat)

  /** The contents of a chunk (its sectors, one after the other). */
  type Chunk = seq<seq<byte>>

  type Disk = map<Key, Chunk>

  /** An outstanding read. It is torn once a write has touched its chunk since
      it was issued: what it will return is then unknown. */
  datatype Read = Read(key: Key, torn: bool, bulk: bool)

  /** A block on its way to the receiver; id is the number of its read. */
  datatype Copy = Copy(key: Key, data: Chunk, id: nat)

  /** dirty and inflight are the two bitmaps; bulked holds the chunks the bulk
      phase has read; writes are guest writes that have been submitted and not
      completed; untracked are chunks that writes submitted before tracking was
      turned on may still change, without ever marking them dirty; last is set
      once the last stage has sent a chunk, after which no read is issued and
      the list is not sent from again. */
  datatype Mig = Mig(
    disk: Disk, dirty: set<Key>, inflight: set<Key>, bulked: set<Key>,
    aio: map<nat, Read>, queue: seq<Copy>, wire: seq<Copy>,
    writes: multiset<set<Key>>, untracked: set<Key>,
    submitted: int, readDone: int, transferred: int,
    issued: nat, clock: nat, last: bool)

  datatype Event =
    | BulkRead(k: Key)
    | DirtyRead(k: Key)
    | ReadDone(i: nat, data: Chunk)
    | SendOne
    | SyncSend(k: Key)
    | WriteSubmit(ks: set<Key>)
    | WriteEffect(ks: set<Key>, k: Key, data: Chunk)
    | WriteDone(ks: set<Key>)
    | UntrackedEffect(k: Key, data: Chunk)
    | UntrackedDone(k: Key)

  /** What the surroundings of the code may or may not provide:
      quiet - no write is in flight when dirty tracking is turned on;
      bulkDrained - a chunk's bulk read has completed before the chunk is read
        again in the dirty phase;
      listDrained - the list of completed reads is empty when the last stage
        starts to read (flush_blks was not stopped by the rate limit). */
  datatype Guard = Guard(quiet: bool, bulkDrained: bool, listDrained: bool)

  predicate Reading(s: Mig, k: Key) {
    exists i <- s.aio :: s.aio[i].key == k
  }

  predicate BulkReading(s: Mig, k: Key) {
    exists i <- s.aio :: s.aio[i].key == k && s.aio[i].bulk
  }

  predicate Pending(s: Mig, k: Key) {
    exists ks <- s.writes :: k in ks
  }

  /** Nothing outstanding: what stopping the guest and flushing I/O gives. */
  predicate Quiescent(g: Guard, s: Mig) {
    && s.aio == map[] && s.writes == multiset{} && s.untracked == {}
    && s.bulked == s.disk.Keys
    && (g.listDrained ==> s.queue == [])
  }

  ghost predicate Enabled(g: Guard, s: Mig, e: Event) {
    match e
    case BulkRead(k) => k in s.disk && k !in s.bulked && !s.last
    case DirtyRead(k) =>
      && !s.last && s.bulked == s.disk.Keys && k in s.disk && k in s.dirty && k !in s.inflight
      && (g.bulkDrained ==> !BulkReading(s, k))
    case ReadDone(i, data) =>
      i in s.aio && s.aio[i].key in s.disk && (!s.aio[i].torn ==> data == s.disk[s.aio[i].key])
    case SendOne => s.queue != [] && !s.last
    case SyncSend(k) => Quiescent(g, s) && k in s.disk && k in s.dirty
    case WriteSubmit(ks) => ks <= s.disk.Keys
    case WriteEffect(ks, k, _) => ks in s.writes && k in ks && k in s.disk
    case WriteDone(ks) => ks in s.writes
    case UntrackedEffect(k, _) => k in s.untracked && k in s.disk
    case UntrackedDone(k) => k in s.untracked
  }

  function Tear(aio: map<nat, Read>, k: Key): map<nat, Read> {
    map i | i in aio :: if aio[i].key == k then aio[i].(torn := true) else aio[i]
  }

  function Issue(s: Mig, k: Key, bulk: bool): Mig {
    s.(aio := s.aio[s.clock := Read(k, false, bulk)], dirty := s.dirty - {k},
       submitted := s.submitted + 1, issued := s.issued + 1, clock := s.clock + 1)
  }

  function Overwrite(s: Mig, k: Key, data: Chunk): Mig {
    s.(disk := s.disk[k := data], aio := Tear(s.aio, k))
  }

  ghost function Step(s: Mig, e: Event): Mig
    requires e.ReadDone? ==> e.i in s.aio
    requires e.SendOne? ==> s.queue != []
    requires e.SyncSend? ==> e.k in s.disk
  {
    match e
    case BulkRead(k) => Issue(s, k, true).(bulked := s.bulked + {k})
    case DirtyRead(k) => Issue(s, k, false).(inflight := s.inflight + {k})
    case ReadDone(i, data) =>
      var k := s.aio[i].key;
      s.(aio := s.aio - {i}, queue := s.queue + [Copy(k, data, i)], inflight := s.inflight - {k},
         submitted := s.submitted - 1, readDone := s.readDone + 1)
    case SendOne =>
      s.(wire := s.wire + [s.queue[0]], queue := s.queue[1..],
         readDone := s.readDone - 1, transferred := s.transferred + 1)
    case SyncSend(k) =>
      s.(wire := s.wire + [Copy(k, s.disk[k], s.clock)], dirty := s.dirty - {k}, clock := s.clock + 1,
         last := true)
    case WriteSubmit(ks) => s.(writes := s.writes + multiset{ks})
    case WriteEffect(_, k, data) => Overwrite(s, k, data)
    case WriteDone(ks) => s.(writes := s.writes - multiset{ks}, dirty := s.dirty + ks)
    case UntrackedEffect(k, data) => Overwrite(s, k, data)
    case UntrackedDone(k) => s.(untracked := s.untracked - {k})
  }

  ghost predicate Runs(g: Guard, s: Mig, events: seq<Event>, s': Mig)
    decreases |events|
  {
    if events == [] then s == s'
    else Enabled(g, s, events[0]) && Runs(g, Step(s, events[0]), events[1..], s')
  }

  /** Stage 1: counters cleared, dirty tracking on with a clean bitmap. */
  ghost predicate Init(g: Guard, s: Mig) {
    && s.dirty == {} && s.inflight == {} && s.bulked == {} && s.aio == map[]
    && s.queue == [] && s.wire == [] && s.writes == multiset{}
    && s.submitted == s.readDone == s.transferred == 0 && s.issued == s.clock == 0 && !s.last
    && s.untracked <= s.disk.Keys && (g.quiet ==> s.untracked == {})
  }

  /** The end of stage 3: nothing outstanding and nothing dirty. */
  ghost predicate Finished(g: Guard, s: Mig) {
    Quiescent(g, s) && s.dirty == {}
  }

  // ---- the receiver ---------------------------------------------------------

  /** block_load writes every block it reads to the device and place it names. */
  function Loaded(dest: Disk, wire: seq<Copy>): Disk {
    if wire == [] then dest
    else
      var c := wire[|wire| - 1];
      Loaded(dest, wire[..|wire| - 1])[c.key := c.data]
  }

  function LastCopy(copies: seq<Copy>, k: Key): Option<Chunk> {
    if copies == [] then None
    else if copies[|copies| - 1].key == k then Some(copies[|copies| - 1].data)
    else LastCopy(copies[..|copies| - 1], k)
  }

  lemma {:induction false} LoadedIsLast(dest: Disk, wire: seq<Copy>)
    requires forall c <- wire :: c.key in dest
    ensures Loaded(dest, wire).Keys == dest.Keys
    ensures forall k <- dest :: Loaded(dest, wire)[k] ==
              match LastCopy(wire, k) case None => dest[k] case Some(data) => data
    decreases |wire|
  {
    if wire != [] {
      LoadedIsLast(dest, wire[..|wire| - 1]);
    }
  }

  lemma LastCopySnoc(copies: seq<Copy>, c: Copy, k: Key)
    ensures LastCopy(copies + [c], k) == if c.key == k then Some(c.data) else LastCopy(copies, k)
  {
    assert (copies + [c])[..|copies|] == copies;
  }

  // ---- counters, and order of the copies of a chunk ---------------------------

  /** Accounting that holds in every run, whatever the surroundings do. */
  ghost predicate Counted(s: Mig) {
    && s.submitted == |s.aio|
    && s.readDone == |s.queue|
    && s.submitted + s.readDone + s.transferred == s.issued
    && s.bulked <= s.disk.Keys
    && (forall i <- s.aio :: i < s.clock && s.aio[i].key in s.bulked)
    && (forall k <- s.inflight :: Reading(s, k))
    && (forall ks <- s.writes :: ks <= s.disk.Keys)
    && (forall c <- s.wire + s.queue :: c.key in s.disk && c.id < s.clock)
    && (s.last ==> s.aio == map[])
  }

  function Copies(s: Mig): seq<Copy> {
    s.wire + s.queue
  }

  /** No chunk has two outstanding reads, and the in-flight bit of a chunk is
      set exactly while a dirty-phase read of it is outstanding. */
  ghost predicate Alone(s: Mig) {
    && (forall i, j :: i in s.aio && j in s.aio && i != j ==> s.aio[i].key != s.aio[j].key)
    && (forall k :: k in s.inflight <==> exists i <- s.aio :: s.aio[i].key == k && !s.aio[i].bulk)
  }

  /** The copies that have been sent or may still be. */
  function Bound(s: Mig): seq<Copy> {
    if s.last then s.wire else s.wire + s.queue
  }

  /** Beyond that, the copies of a chunk stand in the order their reads were
      issued: sent ones first, completed ones next, outstanding ones last. */
  ghost predicate Ordered(s: Mig) {
    Alone(s) && Sequenced(Bound(s), s.aio)
  }

  ghost predicate Sequenced(copies: seq<Copy>, aio: map<nat, Read>) {
    && (forall a, b :: 0 <= a < b < |copies| && copies[a].key == copies[b].key ==> copies[a].id < copies[b].id)
    && (forall i, a :: i in aio && 0 <= a < |copies| && copies[a].key == aio[i].key ==> copies[a].id < i)
  }

  lemma InitCounted(g: Guard, s: Mig)
    requires Init(g, s)
    ensures Counted(s) && Ordered(s)
  {
  }

  lemma IssueCounted(s: Mig, k: Key, bulk: bool, bulked: set<Key>, inflight: set<Key>)
    requires Counted(s) && !s.last && k in bulked && s.bulked <= bulked <= s.disk.Keys
    requires inflight <= s.inflight + {k}
    ensures Counted(Issue(s, k, bulk).(bulked := bulked, inflight := inflight))
  {
    var s' := Issue(s, k, bulk);
    forall q | q in inflight ensures Reading(s'.(inflight := inflight, bulked := bulked), q) {
      if q == k {
        assert s'.aio[s.clock].key == q;
      } else {
        var i :| i in s.aio && s.aio[i].key == q;
        assert s'.aio[i] == s.aio[i];
      }
    }
    assert s.clock !in s.aio;
    assert s'.aio.Keys == s.aio.Keys + {s.clock};
    assert |s'.aio| == |s.aio| + 1;
  }

  lemma DoneCounted(s: Mig, i: nat, data: Chunk)
    requires Counted(s) && i in s.aio
    ensures Counted(Step(s, ReadDone(i, data)))
    ensures Copies(Step(s, ReadDone(i, data))) == Copies(s) + [Copy(s.aio[i].key, data, i)]
  {
    var s', c := Step(s, ReadDone(i, data)), Copy(s.aio[i].key, data, i);
    assert s'.aio.Keys == s.aio.Keys - {i};
    assert |s'.aio| == |s.aio| - 1;
    assert Copies(s') == Copies(s) + [c];
    forall q | q in s'.inflight ensures Reading(s', q) {
      var j :| j in s.aio && s.aio[j].key == q;
      assert j in s'.aio && s'.aio[j] == s.aio[j];
    }
  }

  lemma SendCounted(s: Mig)
    requires Counted(s) && s.queue != []
    ensures Counted(Step(s, SendOne)) && Copies(Step(s, SendOne)) == Copies(s)
  {
    var s' := Step(s, SendOne);
    assert Copies(s') == Copies(s);
  }

  lemma SyncCounted(s: Mig, k: Key)
    requires Counted(s) && k in s.disk && s.queue == [] && s.aio == map[]
    ensures Counted(Step(s, SyncSend(k)))
    ensures Copies(Step(s, SyncSend(k))) == Copies(s) + [Copy(k, s.disk[k], s.clock)]
  {
    var s' := Step(s, SyncSend(k));
    assert Copies(s') == Copies(s) + [Copy(k, s.disk[k], s.clock)];
  }

  lemma OverwriteCounted(s: Mig, k: Key, data: Chunk)
    requires Counted(s) && k in s.disk
    ensures Counted(Overwrite(s, k, data)) && Overwrite(s, k, data).disk.Keys == s.disk.Keys
    ensures Overwrite(s, k, data).aio.Keys == s.aio.Keys
  {
    var s' := Overwrite(s, k, data);
    assert s'.disk.Keys == s.disk.Keys;
    assert s'.aio.Keys == s.aio.Keys;
    assert |s'.aio| == |s.aio|;
    assert s.aio == map[] ==> s'.aio == map[];
    forall q | q in s'.inflight ensures Reading(s', q) {
      var j :| j in s.aio && s.aio[j].key == q;
      assert s'.aio[j].key == q;
    }
  }

  lemma SyncSendCounted(s: Mig, k: Key)
    requires Counted(s) && k in s.disk && s.aio == map[]
    ensures Counted(Step(s, SyncSend(k)))
  {
    var s' := Step(s, SyncSend(k));
    assert forall c <- s'.wire + s'.queue :: c in s.wire + s.queue || c == Copy(k, s.disk[k], s.clock);
    assert forall q :: Reading(s, q) ==> Reading(s', q);
  }

  lemma WriteListCounted(s: Mig, writes: multiset<set<Key>>, dirty: set<Key>, untracked: set<Key>)
    requires Counted(s) && forall ks <- writes :: ks <= s.disk.Keys
    ensures Counted(s.(writes := writes, dirty := dirty, untracked := untracked))
  {
    assert forall q :: Reading(s, q) ==>
                         Reading(s.(writes := writes, dirty := dirty, untracked := untracked), q);
  }

  lemma WritesInDisk(s: Mig)
    requires Counted(s)
    ensures forall ks <- s.writes :: ks <= s.disk.Keys
    ensures forall c <- s.wire :: c.key in s.disk
  {
    assert forall c <- s.wire :: c in s.wire + s.queue;
  }

  lemma StepCounted(g: Guard, s: Mig, e: Event)
    requires Counted(s) && Enabled(g, s, e)
    ensures Counted(Step(s, e)) && Step(s, e).disk.Keys == s.disk.Keys
  {
    hide Counted, Pending, Reading, BulkReading;
    WritesInDisk(s);
    BulkedInDisk(s);
    match e
    case BulkRead(k) => IssueCounted(s, k, true, s.bulked + {k}, s.inflight);
    case DirtyRead(k) => IssueCounted(s, k, false, s.bulked, s.inflight + {k});
    case ReadDone(i, data) => DoneCounted(s, i, data);
    case SendOne => SendCounted(s);
    case SyncSend(k) => SyncSendCounted(s, k);
    case WriteSubmit(ks) => WriteListCounted(s, s.writes + multiset{ks}, s.dirty, s.untracked);
    case WriteEffect(_, k, data) => OverwriteCounted(s, k, data);
    case WriteDone(ks) => WriteListCounted(s, s.writes - multiset{ks}, s.dirty + ks, s.untracked);
    case UntrackedEffect(k, data) => OverwriteCounted(s, k, data);
    case UntrackedDone(k) => WriteListCounted(s, s.writes, s.dirty, s.untracked - {k});
  }

  lemma BulkedInDisk(s: Mig)
    requires Counted(s)
    ensures s.bulked <= s.disk.Keys
  {
  }

  // ---- every chunk is accounted for -------------------------------------------

  /** The newest copy of k is current, or will be once its read completes. */
  ghost predicate Fresh(s: Mig, k: Key)
    requires k in s.disk
  {
    if Reading(s, k) then forall i <- s.aio :: s.aio[i].key == k ==> !s.aio[i].torn
    else LastCopy(Copies(s), k) == Some(s.disk[k])
  }

  ghost predicate Covered(s: Mig, k: Key)
    requires k in s.disk
  {
    k in s.dirty || Pending(s, k) || k !in s.bulked || Fresh(s, k)
  }

  ghost predicate Inv(s: Mig) {
    && Counted(s) && Alone(s) && s.untracked == {} && (s.last ==> s.queue == [])
    && forall k <- s.disk :: Covered(s, k)
  }

  const ALL := Guard(true, true, true)

  lemma IssueInv(s: Mig, k: Key, bulk: bool, bulked: set<Key>, inflight: set<Key>)
    requires Inv(s) && k in s.disk && !Reading(s, k) && !s.last
    requires bulked == s.bulked + {k}
    requires inflight == if bulk then s.inflight else s.inflight + {k}
    ensures Inv(Issue(s, k, bulk).(bulked := bulked, inflight := inflight))
  {
    var s' := Issue(s, k, bulk).(bulked := bulked, inflight := inflight);
    IssueCounted(s, k, bulk, bulked, inflight);
    assert s.clock !in s.aio;
    assert s'.aio == s.aio[s.clock := Read(k, false, bulk)];
    assert Copies(s') == Copies(s);
    IssueAlone(s, s', k, bulk);
    forall q | q in s.disk ensures Covered(s', q) {
      assert Covered(s, q);
      IssueCovered(s, s', k, q);
    }
  }

  lemma IssueCovered(s: Mig, s': Mig, k: Key, q: Key)
    requires q in s.disk && Covered(s, q) && s.clock !in s.aio && !Reading(s, k)
    requires s'.disk == s.disk && s'.writes == s.writes && Copies(s') == Copies(s)
    requires s'.bulked == s.bulked + {k} && s'.dirty == s.dirty - {k}
    requires exists bulk :: s'.aio == s.aio[s.clock := Read(k, false, bulk)]
    ensures Covered(s', q)
  {
    assert forall i :: i in s'.aio <==> i == s.clock || i in s.aio;
    if q == k {
      assert s'.aio[s.clock].key == k;
    } else if Reading(s, q) {
      var i :| i in s.aio && s.aio[i].key == q;
      assert s'.aio[i] == s.aio[i];
    }
  }

  lemma IssueAlone(s: Mig, s': Mig, k: Key, bulk: bool)
    requires s.clock !in s.aio && Alone(s) && !Reading(s, k)
    requires s'.aio == s.aio[s.clock := Read(k, false, bulk)]
    requires s'.inflight == if bulk then s.inflight else s.inflight + {k}
    ensures Alone(s')
  {
    var n := s.clock;
    assert s'.aio[n].key == k && s'.aio[n].bulk == bulk;
    assert forall i :: i in s'.aio <==> i == n || i in s.aio;
    forall q ensures q in s'.inflight <==> exists i <- s'.aio :: s'.aio[i].key == q && !s'.aio[i].bulk {
      if q in s.inflight {
        var i :| i in s.aio && s.aio[i].key == q && !s.aio[i].bulk;
        assert s'.aio[i] == s.aio[i];
      }
    }
  }

  lemma IssueOrdered(s: Mig, s': Mig, k: Key, bulk: bool)
    requires Counted(s) && Ordered(s) && !Reading(s, k) && Bound(s') == Bound(s)
    requires s'.aio == s.aio[s.clock := Read(k, false, bulk)]
    requires s'.inflight == if bulk then s.inflight else s.inflight + {k}
    ensures Ordered(s')
  {
    hide Alone;
    ClockFresh(s);
    IssueAlone(s, s', k, bulk);
    var copies := Bound(s);
    assert forall a :: 0 <= a < |copies| ==> copies[a] in s.wire + s.queue && copies[a].id < s.clock;
  }

  lemma StillReading(s: Mig, i: nat)
    requires Counted(s) && i in s.aio
    ensures !s.last
  {
  }

  lemma DoneInv(s: Mig, i: nat, data: Chunk)
    requires Inv(s) && i in s.aio && s.aio[i].key in s.disk
    requires !s.aio[i].torn ==> data == s.disk[s.aio[i].key]
    ensures Inv(Step(s, ReadDone(i, data)))
  {
    var s', k := Step(s, ReadDone(i, data)), s.aio[i].key;
    var c := Copy(k, data, i);
    DoneCounted(s, i, data);
    DoneAlone(s, s', i);
    forall q | q in s.disk ensures Covered(s', q) {
      assert Covered(s, q);
      DoneCovered(s, s', i, c, q);
    }
  }

  lemma DoneCovered(s: Mig, s': Mig, i: nat, c: Copy, q: Key)
    requires Alone(s) && q in s.disk && Covered(s, q) && i in s.aio && c.key == s.aio[i].key
    requires c.key in s.disk && (!s.aio[i].torn ==> c.data == s.disk[c.key])
    requires s'.disk == s.disk && s'.dirty == s.dirty && s'.writes == s.writes && s'.bulked == s.bulked
    requires s'.aio == s.aio - {i} && Copies(s') == Copies(s) + [c]
    ensures Covered(s', q)
  {
    LastCopySnoc(Copies(s), c, q);
    if q == c.key {
      assert !Reading(s', q);
      assert Reading(s, q);
    } else if Reading(s, q) {
      var j :| j in s.aio && s.aio[j].key == q;
      assert j in s'.aio;
    }
  }

  lemma DoneAlone(s: Mig, s': Mig, i: nat)
    requires Alone(s) && i in s.aio && s'.aio == s.aio - {i}
    requires s'.inflight == s.inflight - {s.aio[i].key}
    ensures Alone(s')
  {
    forall q ensures q in s'.inflight <==> exists j <- s'.aio :: s'.aio[j].key == q && !s'.aio[j].bulk {
      if q == s.aio[i].key {
        assert forall j <- s'.aio :: s'.aio[j].key != q;
      } else if q in s.inflight {
        var j :| j in s.aio && s.aio[j].key == q && !s.aio[j].bulk;
        assert j in s'.aio && s'.aio[j] == s.aio[j];
      }
    }
  }

  lemma DoneOrdered(s: Mig, s': Mig, i: nat, c: Copy)
    requires Ordered(s) && i in s.aio && c.key == s.aio[i].key && c.id == i
    requires s'.aio == s.aio - {i} && Bound(s') == Bound(s) + [c]
    requires s'.inflight == s.inflight - {c.key}
    ensures Ordered(s')
  {
    DoneAlone(s, s', i);
  }

  lemma SendInv(s: Mig)
    requires Inv(s) && s.queue != [] && !s.last
    ensures Inv(Step(s, SendOne))
  {
    SendCounted(s);
    var s' := Step(s, SendOne);
    forall q | q in s.disk ensures Covered(s', q) {
      assert Covered(s, q);
    }
  }

  lemma SyncInv(s: Mig, k: Key)
    requires Inv(s) && k in s.disk && s.queue == [] && s.aio == map[]
    ensures Inv(Step(s, SyncSend(k)))
  {
    SyncCounted(s, k);
    var s', c := Step(s, SyncSend(k)), Copy(k, s.disk[k], s.clock);
    assert forall d <- Copies(s) :: d.id < s.clock;
    forall q | q in s.disk ensures Covered(s', q) {
      assert Covered(s, q);
      LastCopySnoc(Copies(s), c, q);
    }
  }

  lemma WriteInv(s: Mig, ks: set<Key>, k: Key, data: Chunk)
    requires Inv(s) && ks in s.writes && k in ks && k in s.disk
    ensures Inv(Overwrite(s, k, data))
  {
    var s' := Overwrite(s, k, data);
    OverwriteCounted(s, k, data);
    OverwriteAlone(s, k, data);
    assert forall i <- s.aio :: s'.aio[i].key == s.aio[i].key;
    assert Copies(s') == Copies(s);
    forall q | q in s.disk ensures Covered(s', q) {
      assert Covered(s, q);
      if q == k {
        assert Pending(s', k);
      } else {
        assert Reading(s', q) <==> Reading(s, q);
      }
    }
  }

  lemma WriteDoneInv(s: Mig, ks: set<Key>)
    requires Inv(s) && ks in s.writes
    ensures Inv(Step(s, WriteDone(ks)))
  {
    var s' := Step(s, WriteDone(ks));
    assert Copies(s') == Copies(s);
    forall q | q in s.disk ensures Covered(s', q) {
      assert Covered(s, q);
      if Pending(s, q) && q !in ks {
        var w :| w in s.writes && q in w;
        assert w in s'.writes;
      }
    }
  }

  lemma SubmitInv(s: Mig, ks: set<Key>)
    requires Inv(s) && ks <= s.disk.Keys
    ensures Inv(Step(s, WriteSubmit(ks)))
  {
    var s' := Step(s, WriteSubmit(ks));
    assert Copies(s') == Copies(s);
    forall q | q in s.disk ensures Covered(s', q) {
      assert Covered(s, q);
      if Pending(s, q) {
        var w :| w in s.writes && q in w;
        assert w in s'.writes;
      }
    }
  }

  /** No two reads of a chunk overlap when a dirty-phase read is issued. */
  lemma DirtyReadAlone(s: Mig, k: Key)
    requires Alone(s) && k !in s.inflight && !BulkReading(s, k)
    ensures !Reading(s, k)
  {
  }

  lemma StepInv(s: Mig, e: Event)
    requires Inv(s) && Enabled(ALL, s, e)
    ensures Inv(Step(s, e)) && Step(s, e).disk.Keys == s.disk.Keys
  {
    hide Inv, Counted, Alone, Pending, Reading, BulkReading;
    InvParts(s);
    match e
    case BulkRead(k) =>
      NotYetRead(s, k);
      IssueInv(s, k, true, s.bulked + {k}, s.inflight);
    case DirtyRead(k) =>
      DirtyReadAlone(s, k);
      assert s.bulked + {k} == s.bulked;
      IssueInv(s, k, false, s.bulked, s.inflight + {k});
    case ReadDone(i, data) => DoneInv(s, i, data);
    case SendOne => SendInv(s);
    case SyncSend(k) => SyncInv(s, k);
    case WriteSubmit(ks) => SubmitInv(s, ks);
    case WriteEffect(ks, k, data) =>
      WriteInv(s, ks, k, data);
      OverwriteCounted(s, k, data);
    case WriteDone(ks) => WriteDoneInv(s, ks);
    case UntrackedEffect(k, data) => assert false;
    case UntrackedDone(k) => assert false;
  }

  lemma InvParts(s: Mig)
    requires Inv(s)
    ensures Counted(s) && Alone(s) && s.untracked == {}
  {
  }

  lemma ClockFresh(s: Mig)
    requires Counted(s)
    ensures s.clock !in s.aio
  {
  }

  lemma NotYetRead(s: Mig, k: Key)
    requires Counted(s) && k !in s.bulked
    ensures !Reading(s, k)
  {
  }

  lemma {:induction false} RunInv(s: Mig, events: seq<Event>, s': Mig)
    requires Inv(s) && Runs(ALL, s, events, s')
    ensures Inv(s') && s'.disk.Keys == s.disk.Keys
    decreases |events|
  {
    hide Inv;
    if events != [] {
      StepInv(s, events[0]);
      RunInv(Step(s, events[0]), events[1..], s');
    }
  }

  lemma InitInv(s: Mig)
    requires Init(ALL, s)
    ensures Inv(s)
  {
    InitCounted(ALL, s);
  }

  /** Convergence, when the surroundings provide all three guarantees. */
  lemma Converges(s0: Mig, events: seq<Event>, s: Mig, dest: Disk)
    requires Init(ALL, s0) && Runs(ALL, s0, events, s) && Finished(ALL, s)
    requires dest.Keys == s0.disk.Keys
    ensures Loaded(dest, s.wire) == s.disk
  {
    InitInv(s0);
    RunInv(s0, events, s);
    FinishedEqual(s, dest);
  }

  lemma FinishedEqual(s: Mig, dest: Disk)
    requires Inv(s) && Finished(ALL, s) && dest.Keys == s.disk.Keys
    ensures Loaded(dest, s.wire) == s.disk
  {
    hide Alone, Counted, Loaded, LastCopy;
    assert Copies(s) == s.wire;
    WritesInDisk(s);
    LoadedIsLast(dest, s.wire);
    forall k | k in s.disk ensures Loaded(dest, s.wire)[k] == s.disk[k] {
      assert Covered(s, k);
    }
  }

  lemma {:induction false} RunCounted(g: Guard, s: Mig, events: seq<Event>, s': Mig)
    requires Counted(s) && Runs(g, s, events, s')
    ensures Counted(s')
    decreases |events|
  {
    hide Counted;
    if events != [] {
      StepCounted(g, s, events[0]);
      RunCounted(g, Step(s, events[0]), events[1..], s');
    }
  }

  // ---- exactly when it converges ------------------------------------------------

  ghost predicate AlwaysConverges(g: Guard) {
    forall s0, events, s ::
      Init(g, s0) && Runs(g, s0, events, s) && Finished(g, s) ==> Delivered(s0, s)
  }

  /** Whatever the receiver's devices held, the stream makes them the sender's. */
  ghost predicate Delivered(s0: Mig, s: Mig) {
    forall dest: Disk :: dest.Keys == s0.disk.Keys ==> Loaded(dest, s.wire) == s.disk
  }

  ghost predicate NeverTwoReads(g: Guard) {
    forall s0, events, s :: Init(g, s0) && Runs(g, s0, events, s) ==> Alone(s)
  }

  lemma {:induction false} RunsAppend(g: Guard, s: Mig, events: seq<Event>, mid: Mig, e: Event)
    requires Runs(g, s, events, mid) && Enabled(g, mid, e)
    ensures Runs(g, s, events + [e], Step(mid, e))
    decreases |events|
  {
    if events == [] {
      assert (events + [e])[0] == e && (events + [e])[1..] == [];
      assert Runs(g, Step(mid, e), [], Step(mid, e));
    } else {
      assert (events + [e])[1..] == events[1..] + [e];
      RunsAppend(g, Step(s, events[0]), events[1..], mid, e);
    }
  }

  const K := Key(0, 0)
  const OLD: Chunk := [[0]]
  const NEW: Chunk := [[1]]

  /** One device of one chunk at the start of stage 1. */
  function OneChunk(untracked: set<Key>): Mig {
    Mig(map[K := OLD], {}, {}, {}, map[], [], [], multiset{}, untracked, 0, 0, 0, 0, 0, false)
  }

  function Bulked(untracked: set<Key>): Mig {
    OneChunk(untracked).(bulked := {K}, aio := map[0 := Read(K, false, true)],
                         submitted := 1, issued := 1, clock := 1)
  }

  /** The bulk read of the one chunk, completed. */
  function BulkCompleted(untracked: set<Key>): Mig {
    Bulked(untracked).(aio := map[], queue := [Copy(K, OLD, 0)], submitted := 0, readDone := 1)
  }

  lemma RunToBulked(g: Guard, untracked: set<Key>) returns (events: seq<Event>)
    requires untracked <= {K} && (g.quiet ==> untracked == {})
    ensures Init(g, OneChunk(untracked)) && Runs(g, OneChunk(untracked), events, Bulked(untracked))
  {
    var s0 := OneChunk(untracked);
    events := [BulkRead(K)];
    assert Step(s0, BulkRead(K)) == Bulked(untracked);
    assert Runs(g, s0, [], s0);
    RunsAppend(g, s0, [], s0, BulkRead(K));
    assert [] + [BulkRead(K)] == events;
  }

  lemma RunToBulkCompleted(g: Guard, untracked: set<Key>) returns (events: seq<Event>)
    requires untracked <= {K} && (g.quiet ==> untracked == {})
    ensures Init(g, OneChunk(untracked)) && Runs(g, OneChunk(untracked), events, BulkCompleted(untracked))
  {
    hide Runs;
    events := RunToBulked(g, untracked);
    RunsAppend(g, OneChunk(untracked), events, Bulked(untracked), ReadDone(0, OLD));
    assert Step(Bulked(untracked), ReadDone(0, OLD)) == BulkCompleted(untracked);
    events := events + [ReadDone(0, OLD)];
  }

  /** flush_blks stopped by the rate limit: the completed read is never sent. */
  lemma LostWithoutDrainedList(g: Guard)
    requires !g.listDrained
    ensures !AlwaysConverges(g)
  {
    hide Runs;
    var events := RunToBulkCompleted(g, {});
    var s := BulkCompleted({});
    assert Finished(g, s);
    assert Loaded(map[K := NEW], s.wire)[K] == NEW && s.disk[K] == OLD;
    assert !Delivered(OneChunk({}), s);
  }

  /** A write submitted before tracking was turned on reaches the disk after
      the bulk read: the chunk is never dirty, the receiver keeps the old data. */
  lemma StaleWithoutQuietStart(g: Guard)
    requires !g.quiet
    ensures !AlwaysConverges(g)
  {
    hide Runs;
    var s0, s1 := OneChunk({K}), BulkSent({K});
    var events := RunToBulkSent(g, {K});
    RunsAppend(g, s0, events, s1, UntrackedEffect(K, NEW));
    var s2 := Step(s1, UntrackedEffect(K, NEW));
    assert s2 == s1.(disk := map[K := NEW]);
    events := events + [UntrackedEffect(K, NEW)];
    RunsAppend(g, s0, events, s2, UntrackedDone(K));
    var s3 := Step(s2, UntrackedDone(K));
    assert Finished(g, s3);
    assert Loaded(map[K := OLD], s3.wire)[K] == OLD && s3.disk[K] == NEW;
    assert !Delivered(s0, s3);
  }

  /** The bulk read of the one chunk, sent. */
  function BulkSent(untracked: set<Key>): Mig {
    BulkCompleted(untracked).(queue := [], wire := [Copy(K, OLD, 0)], readDone := 0, transferred := 1)
  }

  lemma RunToBulkSent(g: Guard, untracked: set<Key>) returns (events: seq<Event>)
    requires untracked <= {K} && (g.quiet ==> untracked == {})
    ensures Init(g, OneChunk(untracked)) && Runs(g, OneChunk(untracked), events, BulkSent(untracked))
  {
    hide Runs;
    events := RunToBulkCompleted(g, untracked);
    RunsAppend(g, OneChunk(untracked), events, BulkCompleted(untracked), SendOne);
    assert Step(BulkCompleted(untracked), SendOne) == BulkSent(untracked);
    events := events + [SendOne];
  }

  /** With the bulk read of K outstanding, the guest rewrites K and the dirty
      phase reads it again. */
  function TwoReads(): Mig {
    Bulked({}).(disk := map[K := NEW], inflight := {K},
                aio := map[0 := Read(K, true, true), 1 := Read(K, false, false)],
                submitted := 2, issued := 2, clock := 2)
  }

  /** The chunk was bulk-read and then written to, its read still outstanding. */
  function Rewritten(): Mig {
    Bulked({}).(disk := map[K := NEW], dirty := {K}, aio := map[0 := Read(K, true, true)])
  }

  lemma RunToRewritten(g: Guard) returns (events: seq<Event>)
    ensures Runs(g, OneChunk({}), events, Rewritten())
  {
    hide Runs;
    var s0, s1 := OneChunk({}), Bulked({});
    events := RunToBulked(g, {});
    RunsAppend(g, s0, events, s1, WriteSubmit({K}));
    var s2 := Step(s1, WriteSubmit({K}));
    events := events + [WriteSubmit({K})];
    RunsAppend(g, s0, events, s2, WriteEffect({K}, K, NEW));
    var s3 := Step(s2, WriteEffect({K}, K, NEW));
    events := events + [WriteEffect({K}, K, NEW)];
    RunsAppend(g, s0, events, s3, WriteDone({K}));
    var s4 := Step(s3, WriteDone({K}));
    events := events + [WriteDone({K})];
    assert s4 == Rewritten();
  }

  lemma RunToTwoReads(g: Guard) returns (events: seq<Event>)
    requires !g.bulkDrained
    ensures Runs(g, OneChunk({}), events, TwoReads())
  {
    hide Runs;
    events := RunToRewritten(g);
    RunsAppend(g, OneChunk({}), events, Rewritten(), DirtyRead(K));
    assert Step(Rewritten(), DirtyRead(K)) == TwoReads();
    events := events + [DirtyRead(K)];
  }

  /** The second read completes first: the older data is sent last. */
  function Crossed(): Mig {
    TwoReads().(inflight := {}, aio := map[], queue := [Copy(K, NEW, 1), Copy(K, OLD, 0)],
                submitted := 0, readDone := 2)
  }

  lemma RunToCrossed(g: Guard) returns (events: seq<Event>)
    requires !g.bulkDrained
    ensures Runs(g, OneChunk({}), events, Crossed())
  {
    hide Runs;
    var s0, s1 := OneChunk({}), TwoReads();
    events := RunToTwoReads(g);
    RunsAppend(g, s0, events, s1, ReadDone(1, NEW));
    var s2 := Step(s1, ReadDone(1, NEW));
    events := events + [ReadDone(1, NEW)];
    assert s2.aio == map[0 := Read(K, true, true)];
    RunsAppend(g, s0, events, s2, ReadDone(0, OLD));
    assert Step(s2, ReadDone(0, OLD)) == Crossed();
    events := events + [ReadDone(0, OLD)];
  }

  lemma StaleWithoutDrainedBulk(g: Guard)
    requires !g.bulkDrained
    ensures !AlwaysConverges(g)
  {
    hide Runs;
    var s0, s3 := OneChunk({}), Crossed();
    var events := RunToCrossed(g);
    RunsAppend(g, s0, events, s3, SendOne);
    var s4 := Step(s3, SendOne);
    events := events + [SendOne];
    RunsAppend(g, s0, events, s4, SendOne);
    var s5 := Step(s4, SendOne);
    assert s5.wire == [Copy(K, NEW, 1), Copy(K, OLD, 0)];
    assert Finished(g, s5);
    var dest := map[K := OLD];
    assert Loaded(dest, s5.wire)[K] == OLD && s5.disk[K] == NEW;
    assert !Delivered(s0, s5);
  }

  lemma TwoWithoutDrainedBulk(g: Guard)
    requires !g.bulkDrained
    ensures !NeverTwoReads(g)
  {
    hide Runs;
    var events := RunToTwoReads(g);
    var s := TwoReads();
    assert s.aio[0].key == s.aio[1].key;
    assert Init(g, OneChunk({}));
  }

  lemma StepAlone(g: Guard, s: Mig, e: Event)
    requires g.bulkDrained && Counted(s) && Alone(s) && Enabled(g, s, e)
    ensures Alone(Step(s, e))
  {
    hide Counted;
    var s' := Step(s, e);
    ClockFresh(s);
    match e
    case BulkRead(k) =>
      NotYetRead(s, k);
      IssueAlone(s, s', k, true);
    case DirtyRead(k) =>
      DirtyReadAlone(s, k);
      IssueAlone(s, s', k, false);
    case ReadDone(i, data) => DoneAlone(s, s', i);
    case SendOne =>
    case SyncSend(k) =>
    case WriteSubmit(ks) =>
    case WriteEffect(_, k, data) => OverwriteAlone(s, k, data);
    case WriteDone(ks) =>
    case UntrackedEffect(k, data) => OverwriteAlone(s, k, data);
    case UntrackedDone(k) =>
  }

  lemma OverwriteAlone(s: Mig, k: Key, data: Chunk)
    requires Alone(s)
    ensures Alone(Overwrite(s, k, data))
  {
    var s' := Overwrite(s, k, data);
    assert forall i <- s.aio :: s'.aio[i].key == s.aio[i].key && s'.aio[i].bulk == s.aio[i].bulk;
    assert forall i :: i in s'.aio <==> i in s.aio;
  }

  lemma {:induction false} RunAlone(g: Guard, s: Mig, events: seq<Event>, s': Mig)
    requires g.bulkDrained && Counted(s) && Alone(s) && Runs(g, s, events, s')
    ensures Alone(s')
    decreases |events|
  {
    hide Counted, Alone;
    if events != [] {
      StepCounted(g, s, events[0]);
      StepAlone(g, s, events[0]);
      RunAlone(g, Step(s, events[0]), events[1..], s');
    }
  }

  lemma StepOrdered(g: Guard, s: Mig, e: Event)
    requires g.bulkDrained && Counted(s) && Ordered(s) && Enabled(g, s, e)
    ensures Ordered(Step(s, e))
  {
    hide Counted, Ordered, Alone;
    var s' := Step(s, e);
    OrderedAlone(s);
    match e
    case BulkRead(k) =>
      NotYetRead(s, k);
      IssueOrdered(s, s', k, true);
    case DirtyRead(k) =>
      DirtyReadAlone(s, k);
      IssueOrdered(s, s', k, false);
    case ReadDone(i, data) =>
      StillReading(s, i);
      DoneCounted(s, i, data);
      DoneOrdered(s, s', i, Copy(s.aio[i].key, data, i));
    case SendOne =>
      SendCounted(s);
      SameOrder(s, s');
    case SyncSend(k) => SyncOrdered(s, k);
    case WriteSubmit(ks) => SameOrder(s, s');
    case WriteEffect(_, k, data) => OverwriteOrdered(s, k, data);
    case WriteDone(ks) => SameOrder(s, s');
    case UntrackedEffect(k, data) => OverwriteOrdered(s, k, data);
    case UntrackedDone(k) => SameOrder(s, s');
  }

  lemma OrderedAlone(s: Mig)
    requires Ordered(s)
    ensures Alone(s)
  {
  }

  lemma SameOrder(s: Mig, s': Mig)
    requires Ordered(s) && s'.aio == s.aio && s'.inflight == s.inflight && Bound(s') == Bound(s)
    ensures Ordered(s')
  {
  }

  lemma SyncOrdered(s: Mig, k: Key)
    requires Counted(s) && Ordered(s) && k in s.disk && s.aio == map[]
    ensures Ordered(Step(s, SyncSend(k)))
  {
    var s', copies := Step(s, SyncSend(k)), Bound(s);
    assert forall a :: 0 <= a < |s.wire| ==> copies[a] == s.wire[a] && s.wire[a] in s.wire + s.queue;
    assert Bound(s') == s.wire + [Copy(k, s.disk[k], s.clock)];
  }

  lemma OverwriteOrdered(s: Mig, k: Key, data: Chunk)
    requires Ordered(s)
    ensures Ordered(Overwrite(s, k, data))
  {
    var s' := Overwrite(s, k, data);
    OverwriteAlone(s, k, data);
    assert forall i <- s.aio :: s'.aio[i].key == s.aio[i].key;
    assert Bound(s') == Bound(s);
  }

  lemma {:induction false} RunOrdered(g: Guard, s: Mig, events: seq<Event>, s': Mig)
    requires g.bulkDrained && Counted(s) && Ordered(s) && Runs(g, s, events, s')
    ensures Ordered(s')
    decreases |events|
  {
    hide Counted, Ordered;
    if events != [] {
      StepCounted(g, s, events[0]);
      StepOrdered(g, s, events[0]);
      RunOrdered(g, Step(s, events[0]), events[1..], s');
    }
  }

  /** With drained bulk reads, in every run: per chunk the send order is the order
      in which the reads were issued, sent copies before completed ones, those
      before outstanding reads; an undrained list loses copies but never
      reorders them. */
  lemma SendOrder(g: Guard, s0: Mig, events: seq<Event>, s: Mig)
    requires g.bulkDrained && Init(g, s0) && Runs(g, s0, events, s)
    ensures Ordered(s)
  {
    InitCounted(g, s0);
    RunOrdered(g, s0, events, s);
  }

  /** No chunk ever has two outstanding reads, in any run, exactly when bulk
      reads are drained first: the code itself does not see to it, since bulk
      reads set no in-flight bit. */
  lemma TwoReadsExactly(g: Guard)
    ensures NeverTwoReads(g) <==> g.bulkDrained
  {
    if g.bulkDrained {
      forall s0, events, s | Init(g, s0) && Runs(g, s0, events, s) ensures Alone(s) {
        InitCounted(g, s0);
        RunAlone(g, s0, events, s);
      }
    } else {
      TwoWithoutDrainedBulk(g);
    }
  }

  /** Every run converges exactly when all three guarantees are given. */
  lemma ConvergesExactly(g: Guard)
    ensures AlwaysConverges(g) <==> g.quiet && g.bulkDrained && g.listDrained
  {
    if !g.quiet {
      StaleWithoutQuietStart(g);
    } else if !g.bulkDrained {
      StaleWithoutDrainedBulk(g);
    } else if !g.listDrained {
      LostWithoutDrainedList(g);
    } else {
      forall s0, events, s | Init(g, s0) && Runs(g, s0, events, s) && Finished(g, s)
        ensures Delivered(s0, s)
      {
        forall dest: Disk | dest.Keys == s0.disk.Keys ensures Loaded(dest, s.wire) == s.disk {
          Converges(s0, events, s, dest);
        }
      }
    }
  }
}
