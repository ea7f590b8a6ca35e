/**
 Block migration from its events alone: the disks, the bitmaps, the reads in flight,
 the list and the stream are what reads, completions, sends and guest writes before
 them make them.
 */
module BlockHistory {
  import opened Wire
  import opened BlockMigration

  // ---- what the events say -----------------------------------------------------------

  /** One chunk taken: by a bulk read, by a read of the dirty phase, or sent at once. */
  datatype Issue = Issue(key: Key, bulk: bool, atOnce: bool)

  /** All chunks taken, in order; the number of a read is its place. */
  function Issues(events: seq<Event>): seq<Issue> {
    if events == [] then []
    else
      var before := Issues(events[..|events| - 1]);
      match events[|events| - 1]
      case BulkRead(k) => before + [Issue(k, true, false)]
      case DirtyRead(k) => before + [Issue(k, false, false)]
      case SyncSend(k) => before + [Issue(k, false, true)]
      case _ => before
  }

  /** Chunk k holds what was written to it last. */
  function Contents(first: Chunk, events: seq<Event>, k: Key): Chunk {
    if events == [] then first
    else
      match events[|events| - 1]
      case WriteEffect(_, k', data) => if k == k' then data else Contents(first, events[..|events| - 1], k)
      case UntrackedEffect(k', data) => if k == k' then data else Contents(first, events[..|events| - 1], k)
      case _ => Contents(first, events[..|events| - 1], k)
  }

  /** A write that touches chunk k has completed since the chunk was taken last. */
  predicate Written(events: seq<Event>, k: Key) {
    events != [] &&
    match events[|events| - 1]
    case WriteDone(ks) => k in ks || Written(events[..|events| - 1], k)
    case BulkRead(k') => k != k' && Written(events[..|events| - 1], k)
    case DirtyRead(k') => k != k' && Written(events[..|events| - 1], k)
    case SyncSend(k') => k != k' && Written(events[..|events| - 1], k)
    case _ => Written(events[..|events| - 1], k)
  }

  predicate Answered(events: seq<Event>, i: nat) {
    exists e <- events :: e.ReadDone? && e.i == i
  }

  /** The in-flight bit: set by a read of the dirty phase, cleared by the completion of any read of k. */
  predicate Flying(events: seq<Event>, k: Key) {
    events != [] &&
    match events[|events| - 1]
    case DirtyRead(k') => k == k' || Flying(events[..|events| - 1], k)
    case ReadDone(i, _) =>
      !(i < |Issues(events[..|events| - 1])| && Issues(events[..|events| - 1])[i].key == k) && Flying(events[..|events| - 1], k)
    case _ => Flying(events[..|events| - 1], k)
  }

  /** Read i was issued before a write reached its chunk. */
  predicate Torn(events: seq<Event>, i: nat) {
    events != [] &&
    var past := events[..|events| - 1];
    match events[|events| - 1]
    case WriteEffect(_, k, _) => (i < |Issues(past)| && Issues(past)[i].key == k) || Torn(past, i)
    case UntrackedEffect(k, _) => (i < |Issues(past)| && Issues(past)[i].key == k) || Torn(past, i)
    case _ => Torn(past, i)
  }

  /** The completed reads with their data, in the order of completion. */
  function Completed(events: seq<Event>): seq<Copy> {
    if events == [] then []
    else
      var past, e := events[..|events| - 1], events[|events| - 1];
      if e.ReadDone? && e.i < |Issues(past)| then Completed(past) + [Copy(Issues(past)[e.i].key, e.data, e.i)]
      else Completed(past)
  }

  function Sends(events: seq<Event>): nat {
    if events == [] then 0
    else Sends(events[..|events| - 1]) + (if events[|events| - 1].SendOne? then 1 else 0)
  }

  /** The stream: completed reads in their order, and chunks sent at once as they were then. */
  function Stream(disk: Disk, events: seq<Event>): seq<Copy> {
    if events == [] then []
    else
      var past, e := events[..|events| - 1], events[|events| - 1];
      if e.SendOne? && Sends(past) < |Completed(past)| then Stream(disk, past) + [Completed(past)[Sends(past)]]
      else if e.SyncSend? && e.k in disk then Stream(disk, past) + [Copy(e.k, Contents(disk[e.k], past, e.k), |Issues(past)|)]
      else Stream(disk, past)
  }

  /** The guest's writes that have not completed. */
  function Open(events: seq<Event>): multiset<set<Key>> {
    if events == [] then multiset{}
    else
      match events[|events| - 1]
      case WriteSubmit(ks) => Open(events[..|events| - 1]) + multiset{ks}
      case WriteDone(ks) => Open(events[..|events| - 1]) - multiset{ks}
      case _ => Open(events[..|events| - 1])
  }

  function Untracked(first: set<Key>, events: seq<Event>): set<Key> {
    if events == [] then first
    else if events[|events| - 1].UntrackedDone? then Untracked(first, events[..|events| - 1]) - {events[|events| - 1].k}
    else Untracked(first, events[..|events| - 1])
  }

  // ---- the state follows -----------------------------------------------------------------

  ghost predicate DiskFollows(first: Disk, events: seq<Event>, disk: Disk) {
    disk.Keys == first.Keys && forall k <- disk :: disk[k] == Contents(first[k], events, k)
  }

  ghost predicate BitsFollow(events: seq<Event>, s: Mig) {
    && (forall k :: k in s.dirty <==> Written(events, k))
    && (forall k :: k in s.bulked <==> BulkRead(k) in events)
    && (forall k :: k in s.inflight <==> Flying(events, k))
  }

  ghost predicate ReadsFollow(events: seq<Event>, s: Mig) {
    && s.clock == |Issues(events)|
    && (forall i: nat :: i in s.aio <==> i < |Issues(events)| && !Issues(events)[i].atOnce && !Answered(events, i))
    && (forall i <- s.aio :: i < |Issues(events)| &&
          s.aio[i] == Read(Issues(events)[i].key, Torn(events, i), Issues(events)[i].bulk))
    && (forall i: nat :: Answered(events, i) ==> i < |Issues(events)|)
    && (forall i: nat :: Torn(events, i) ==> i < |Issues(events)|)
  }

  ghost predicate StreamFollows(first: Disk, events: seq<Event>, s: Mig) {
    && Sends(events) <= |Completed(events)| && s.queue == Completed(events)[Sends(events)..]
    && s.wire == Stream(first, events)
  }

  ghost predicate WritesFollow(first: set<Key>, events: seq<Event>, s: Mig) {
    s.writes == Open(events) && s.untracked == Untracked(first, events)
  }

  /** The state is what the events since s0 make it. */
  ghost predicate Follows(s0: Mig, events: seq<Event>, s: Mig) {
    && DiskFollows(s0.disk, events, s.disk)
    && BitsFollow(events, s)
    && ReadsFollow(events, s)
    && StreamFollows(s0.disk, events, s)
    && WritesFollow(s0.untracked, events, s)
    && (s.last <==> exists e <- events :: e.SyncSend?)
  }

  lemma Snoc(events: seq<Event>, e: Event)
    ensures (events + [e])[..|events|] == events && (events + [e])[|events|] == e
    ensures forall x :: x in events + [e] <==> x in events || x == e
  {
  }

  lemma DiskStep(g: Guard, first: Disk, events: seq<Event>, s: Mig, e: Event)
    requires DiskFollows(first, events, s.disk) && Enabled(g, s, e)
    ensures DiskFollows(first, events + [e], Step(s, e).disk)
  {
    hide Tear;
    Snoc(events, e);
  }

  lemma DirtyStep(g: Guard, events: seq<Event>, s: Mig, e: Event)
    requires Enabled(g, s, e) && forall k :: k in s.dirty <==> Written(events, k)
    ensures forall k :: k in Step(s, e).dirty <==> Written(events + [e], k)
  {
    Snoc(events, e);
  }

  lemma BulkedStep(g: Guard, events: seq<Event>, s: Mig, e: Event)
    requires Enabled(g, s, e) && forall k :: k in s.bulked <==> BulkRead(k) in events
    ensures forall k :: k in Step(s, e).bulked <==> BulkRead(k) in events + [e]
  {
    Snoc(events, e);
  }

  lemma FlyingStep(g: Guard, events: seq<Event>, s: Mig, e: Event)
    requires Enabled(g, s, e) && ReadsFollow(events, s) && forall k :: k in s.inflight <==> Flying(events, k)
    ensures forall k :: k in Step(s, e).inflight <==> Flying(events + [e], k)
  {
    Snoc(events, e);
  }

  lemma WritesStep(g: Guard, first: set<Key>, events: seq<Event>, s: Mig, e: Event)
    requires Enabled(g, s, e) && WritesFollow(first, events, s)
    ensures WritesFollow(first, events + [e], Step(s, e))
  {
    hide Step, Open, Untracked;
    WritesSnoc(first, events, e);
    WritesAt(s, e);
    UntrackedAt(s, e);
  }

  lemma WritesAt(s: Mig, e: Event)
    requires (e.ReadDone? ==> e.i in s.aio) && (e.SendOne? ==> s.queue != []) && (e.SyncSend? ==> e.k in s.disk)
    ensures e.WriteSubmit? ==> Step(s, e).writes == s.writes + multiset{e.ks}
    ensures e.WriteDone? ==> Step(s, e).writes == s.writes - multiset{e.ks}
    ensures !e.WriteSubmit? && !e.WriteDone? ==> Step(s, e).writes == s.writes
  {
    hide Tear;
    match e
    case ReadDone(i, data) =>
    case _ =>
  }

  lemma UntrackedAt(s: Mig, e: Event)
    requires (e.ReadDone? ==> e.i in s.aio) && (e.SendOne? ==> s.queue != []) && (e.SyncSend? ==> e.k in s.disk)
    ensures e.UntrackedDone? ==> Step(s, e).untracked == s.untracked - {e.k}
    ensures !e.UntrackedDone? ==> Step(s, e).untracked == s.untracked
  {
    hide Tear;
    match e
    case ReadDone(i, data) =>
    case _ =>
  }

  lemma WritesSnoc(first: set<Key>, events: seq<Event>, e: Event)
    ensures Open(events + [e]) == if e.WriteSubmit? then Open(events) + multiset{e.ks}
                                  else if e.WriteDone? then Open(events) - multiset{e.ks} else Open(events)
    ensures Untracked(first, events + [e]) ==
              if e.UntrackedDone? then Untracked(first, events) - {e.k} else Untracked(first, events)
  {
    Snoc(events, e);
  }

  lemma StreamStep(g: Guard, first: Disk, events: seq<Event>, s: Mig, e: Event)
    requires Enabled(g, s, e) && ReadsFollow(events, s) && DiskFollows(first, events, s.disk)
    requires StreamFollows(first, events, s)
    ensures StreamFollows(first, events + [e], Step(s, e))
  {
    Snoc(events, e);
  }

  lemma LastStep(g: Guard, events: seq<Event>, s: Mig, e: Event)
    requires Enabled(g, s, e) && (s.last <==> exists x <- events :: x.SyncSend?)
    ensures Step(s, e).last <==> exists x <- events + [e] :: x.SyncSend?
  {
    Snoc(events, e);
  }

  lemma AnsweredSnoc(events: seq<Event>, e: Event, i: nat)
    ensures Answered(events + [e], i) <==> Answered(events, i) || (e.ReadDone? && e.i == i)
  {
    Snoc(events, e);
  }

  /** A chunk is taken: one number more, and nothing torn or answered by it. */
  lemma IssueStep(g: Guard, events: seq<Event>, s: Mig, e: Event)
    requires Enabled(g, s, e) && ReadsFollow(events, s) && (e.BulkRead? || e.DirtyRead? || e.SyncSend?)
    ensures ReadsFollow(events + [e], Step(s, e))
  {
    hide Answered;
    var all := events + [e];
    Snoc(events, e);
    forall i: nat ensures Answered(all, i) <==> Answered(events, i) {
      AnsweredSnoc(events, e, i);
    }
    assert forall i: nat :: Torn(all, i) <==> Torn(events, i);
    var n := |Issues(events)|;
    assert !Answered(events, n) && !Torn(events, n);
    assert |Issues(all)| == n + 1 && forall i :: 0 <= i < n ==> Issues(all)[i] == Issues(events)[i];
  }

  lemma DoneStep(g: Guard, events: seq<Event>, s: Mig, e: Event)
    requires Enabled(g, s, e) && ReadsFollow(events, s) && e.ReadDone?
    ensures ReadsFollow(events + [e], Step(s, e))
  {
    hide Answered;
    var all := events + [e];
    Snoc(events, e);
    forall i: nat ensures Answered(all, i) <==> Answered(events, i) || e.i == i {
      AnsweredSnoc(events, e, i);
    }
    assert forall i: nat :: Torn(all, i) <==> Torn(events, i);
  }

  /** A write reaches its chunk: the reads of it that are out are torn. */
  lemma EffectStep(g: Guard, events: seq<Event>, s: Mig, e: Event)
    requires Enabled(g, s, e) && ReadsFollow(events, s) && (e.WriteEffect? || e.UntrackedEffect?)
    ensures ReadsFollow(events + [e], Step(s, e))
  {
    hide Answered;
    var all := events + [e];
    Snoc(events, e);
    forall i: nat ensures Answered(all, i) <==> Answered(events, i) {
      AnsweredSnoc(events, e, i);
    }
    assert Issues(all) == Issues(events);
    assert forall i: nat :: Torn(all, i) <==> Torn(events, i) || (i < |Issues(events)| && Issues(events)[i].key == e.k);
    assert Step(s, e).aio == Tear(s.aio, e.k);
  }

  lemma QuietStep(g: Guard, events: seq<Event>, s: Mig, e: Event)
    requires Enabled(g, s, e) && ReadsFollow(events, s)
    requires e.SendOne? || e.WriteSubmit? || e.WriteDone? || e.UntrackedDone?
    ensures ReadsFollow(events + [e], Step(s, e))
  {
    hide Answered;
    var all := events + [e];
    Snoc(events, e);
    forall i: nat ensures Answered(all, i) <==> Answered(events, i) {
      AnsweredSnoc(events, e, i);
    }
    assert Issues(all) == Issues(events);
    assert forall i: nat :: Torn(all, i) <==> Torn(events, i);
  }

  lemma ReadsStep(g: Guard, events: seq<Event>, s: Mig, e: Event)
    requires Enabled(g, s, e) && ReadsFollow(events, s)
    ensures ReadsFollow(events + [e], Step(s, e))
  {
    hide Enabled, ReadsFollow, Step;
    if e.BulkRead? || e.DirtyRead? || e.SyncSend? {
      IssueStep(g, events, s, e);
    } else if e.ReadDone? {
      DoneStep(g, events, s, e);
    } else if e.WriteEffect? || e.UntrackedEffect? {
      EffectStep(g, events, s, e);
    } else {
      QuietStep(g, events, s, e);
    }
  }

  lemma BitsStep(g: Guard, events: seq<Event>, s: Mig, e: Event)
    requires Enabled(g, s, e) && ReadsFollow(events, s) && BitsFollow(events, s)
    ensures BitsFollow(events + [e], Step(s, e))
  {
    hide Enabled, ReadsFollow, Written, Flying, Step;
    DirtyStep(g, events, s, e);
    BulkedStep(g, events, s, e);
    FlyingStep(g, events, s, e);
  }

  lemma StepFollows(g: Guard, s0: Mig, events: seq<Event>, s: Mig, e: Event)
    requires Enabled(g, s, e) && Follows(s0, events, s)
    ensures Follows(s0, events + [e], Step(s, e))
  {
    hide Enabled, Step, DiskFollows, BitsFollow, ReadsFollow, StreamFollows, WritesFollow;
    DiskStep(g, s0.disk, events, s, e);
    BitsStep(g, events, s, e);
    ReadsStep(g, events, s, e);
    StreamStep(g, s0.disk, events, s, e);
    WritesStep(g, s0.untracked, events, s, e);
    LastStep(g, events, s, e);
  }

  lemma {:induction false} RunFollows(g: Guard, s0: Mig, past: seq<Event>, s: Mig, events: seq<Event>, s': Mig)
    requires Follows(s0, past, s) && Runs(g, s, events, s')
    ensures Follows(s0, past + events, s')
    decreases |events|
  {
    hide Follows, Step;
    if events == [] {
      assert past + events == past;
    } else {
      StepFollows(g, s0, past, s, events[0]);
      RunFollows(g, s0, past + [events[0]], Step(s, events[0]), events[1..], s');
      assert past + [events[0]] + events[1..] == past + events;
    }
  }

  /** In every run of a migration, under every guard, the whole state is what the
      events make it: every chunk holds what was written last, is dirty exactly if
      it was written since it was taken, and the stream is the completed reads in
      order and the chunks sent at once. */
  lemma EventsDecide(g: Guard, s0: Mig, events: seq<Event>, s: Mig)
    requires Init(g, s0) && Runs(g, s0, events, s)
    ensures Follows(s0, events, s)
  {
    hide Runs;
    RunFollows(g, s0, [], s0, events, s);
    assert [] + events == events;
  }
}
