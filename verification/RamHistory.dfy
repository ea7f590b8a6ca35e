/**
 RAM migration from its events alone: the contents and the marks of every page, the
 place of the scan and the whole stream are what the guest writes, log syncs, sends
 and section ends before them make them.
 */
module RamHistory {
  import opened Wire
  import opened RamStream
  import opened RamSender
  import opened RamMigration

  /** The page the guest wrote last at pos, or the one that was there. */
  function Contents(mem: seq<Page>, events: seq<Event>, pos: Pos): Page
    requires pos.p < |mem|
  {
    if events == [] then mem[pos.p]
    else
      var e := events[|events| - 1];
      if e.GuestWrite? && e.pos == pos then e.page else Contents(mem, events[..|events| - 1], pos)
  }

  /** The kernel's log has a write of the page that no sync has fetched. */
  predicate InLog(events: seq<Event>, pos: Pos) {
    events != [] &&
    match events[|events| - 1]
    case GuestWrite(q, _, logged) => (logged && q == pos) || InLog(events[..|events| - 1], pos)
    case Sync => false
    case _ => InLog(events[..|events| - 1], pos)
  }

  /** Since the page was sent last it was written and seen, or fetched from the log;
      before that, every page counts as written. */
  predicate ToSend(events: seq<Event>, pos: Pos) {
    if events == [] then true
    else
      match events[|events| - 1]
      case GuestWrite(q, _, logged) => (!logged && q == pos) || ToSend(events[..|events| - 1], pos)
      case Sync => InLog(events[..|events| - 1], pos) || ToSend(events[..|events| - 1], pos)
      case Save(q) => q != pos && ToSend(events[..|events| - 1], pos)
      case EndSection => ToSend(events[..|events| - 1], pos)
  }

  /** The page sent last. */
  function LastSent(events: seq<Event>): Option<Pos> {
    if events == [] then None
    else
      var e := events[|events| - 1];
      if e.Save? then Some(e.pos) else LastSent(events[..|events| - 1])
  }

  function EndMarks(events: seq<Event>): nat {
    if events == [] then 0
    else EndMarks(events[..|events| - 1]) + (if events[|events| - 1].EndSection? then 1 else 0)
  }

  /** The record of page pos after these events: its contents then, squeezed, and
      its name left out if the page sent before it was of the same block. */
  function Record(blocks: seq<RamBlock>, mem: Memory, events: seq<Event>, pos: Pos): Item
    requires Shape(blocks, mem) && Valid(blocks, pos)
  {
    var id, before := blocks[pos.b].id, LastSent(events);
    PageOf(id, pos.p, before.Some? && before.value.b == pos.b, Squeeze(Contents(mem[id], events, pos)))
  }

  /** The block list, and a record for every page sent, in order. */
  function Stream(blocks: seq<RamBlock>, mem: Memory, events: seq<Event>): seq<Item>
    requires Shape(blocks, mem)
  {
    if events == [] then [BlockList(blocks)]
    else
      var past, e := events[..|events| - 1], events[|events| - 1];
      Stream(blocks, mem, past) + (if e.Save? && Valid(blocks, e.pos) then [Record(blocks, mem, past, e.pos)] else [])
  }

  ghost predicate PageFollows(mem: Memory, events: seq<Event>, s: Sender, pos: Pos)
    requires Shape(s.blocks, mem) && Shape(s.blocks, s.mem) && Valid(s.blocks, pos)
  {
    && PageAt(s, pos) == Contents(mem[s.blocks[pos.b].id], events, pos)
    && (Dirty(s, pos) <==> ToSend(events, pos))
    && (Addr(s.blocks, pos) in s.log <==> InLog(events, pos))
  }

  predicate ScanFollows(events: seq<Event>, last: Option<nat>, lastPage: nat) {
    match LastSent(events)
    case None => last == None && lastPage == 0
    case Some(pos) => last == Some(pos.b) && lastPage == pos.p
  }

  /** The state is what the events since stage 1 make it. */
  ghost predicate Follows(blocks: seq<RamBlock>, mem: Memory, events: seq<Event>, st: Run) {
    && st.s.blocks == blocks && Layout(blocks) && Shape(blocks, mem) && Shape(blocks, st.s.mem)
    && (forall pos :: Valid(blocks, pos) ==> PageFollows(mem, events, st.s, pos))
    && ScanFollows(events, st.s.last, st.s.lastPage)
    && Flatten(st.done) + st.cur == Stream(blocks, mem, events)
    && |st.done| == EndMarks(events)
  }

  lemma Snoc(events: seq<Event>, e: Event)
    ensures (events + [e])[..|events|] == events && (events + [e])[|events|] == e
  {
  }

  lemma PageStep(mem: Memory, events: seq<Event>, st: Run, e: Event, pos: Pos)
    requires Layout(st.s.blocks) && Shape(st.s.blocks, mem) && Shape(st.s.blocks, st.s.mem) && Valid(st.s.blocks, pos)
    requires (e.GuestWrite? || e.Save? ==> Valid(st.s.blocks, e.pos)) && PageFollows(mem, events, st.s, pos)
    requires Shape(st.s.blocks, Step(st, e).s.mem) && Step(st, e).s.blocks == st.s.blocks
    ensures PageFollows(mem, events + [e], Step(st, e).s, pos)
  {
    hide Layout, PageItem;
    Snoc(events, e);
    if e.GuestWrite? || e.Save? {
      if Addr(st.s.blocks, pos) == Addr(st.s.blocks, e.pos) {
        AddrInjective(st.s.blocks, pos, e.pos);
      }
      if e.GuestWrite? && e.pos.b != pos.b {
        OtherBlock(st.s.blocks, pos, e.pos);
      }
    }
  }

  lemma OtherBlock(blocks: seq<RamBlock>, x: Pos, y: Pos)
    requires Layout(blocks) && Valid(blocks, x) && Valid(blocks, y) && x.b != y.b
    ensures blocks[x.b].id != blocks[y.b].id
  {
    if x.b < y.b {
      IdsDiffer(blocks, x.b, y.b);
    } else {
      IdsDiffer(blocks, y.b, x.b);
    }
  }

  lemma StreamStep(mem: Memory, events: seq<Event>, st: Run, e: Event)
    requires Follows(st.s.blocks, mem, events, st) && (e.GuestWrite? || e.Save? ==> Valid(st.s.blocks, e.pos))
    ensures Flatten(Step(st, e).done) + Step(st, e).cur == Stream(st.s.blocks, mem, events + [e])
    ensures |Step(st, e).done| == EndMarks(events + [e])
    ensures ScanFollows(events + [e], Step(st, e).s.last, Step(st, e).s.lastPage)
  {
    hide Layout, Squeeze;
    Snoc(events, e);
    match e
    case Save(pos) =>
      assert PageFollows(mem, events, st.s, pos);
      assert Record(st.s.blocks, mem, events, pos) == PageItem(st.s, pos);
      assert Flatten(st.done) + (st.cur + [PageItem(st.s, pos)]) == Flatten(st.done) + st.cur + [PageItem(st.s, pos)];
    case EndSection =>
      FlattenAppend(st.done, st.cur);
    case _ =>
  }

  lemma StepFollows(blocks: seq<RamBlock>, mem: Memory, events: seq<Event>, st: Run, e: Event)
    requires Follows(blocks, mem, events, st) && (e.GuestWrite? || e.Save? ==> Valid(blocks, e.pos))
    ensures Follows(blocks, mem, events + [e], Step(st, e))
  {
    hide Layout, PageFollows, ScanFollows, Stream, Squeeze, PageItem;
    StreamStep(mem, events, st, e);
    SameBlocks(st, e);
    forall pos | Valid(blocks, pos) ensures PageFollows(mem, events + [e], Step(st, e).s, pos) {
      PageStep(mem, events, st, e, pos);
    }
  }

  lemma SameBlocks(st: Run, e: Event)
    requires Shape(st.s.blocks, st.s.mem) && (e.GuestWrite? || e.Save? ==> Valid(st.s.blocks, e.pos))
    ensures Step(st, e).s.blocks == st.s.blocks && Shape(st.s.blocks, Step(st, e).s.mem)
  {
    if e.GuestWrite? {
      WrittenShape(st.s, e.pos, e.page, e.logged);
    }
  }

  lemma {:induction false} RunFollows(blocks: seq<RamBlock>, mem: Memory, past: seq<Event>, st: Run, events: seq<Event>, st': Run)
    requires Follows(blocks, mem, past, st) && Runs(st, events, st')
    ensures Follows(blocks, mem, past + events, st')
    decreases |events|
  {
    hide Follows, Enabled;
    if events == [] {
      assert past + events == past;
    } else {
      assert st.s.blocks == blocks by { FollowsBlocks(blocks, mem, past, st); }
      StepFollows(blocks, mem, past, st, events[0]);
      RunFollows(blocks, mem, past + [events[0]], Step(st, events[0]), events[1..], st');
      assert past + [events[0]] + events[1..] == past + events;
    }
  }

  lemma FollowsBlocks(blocks: seq<RamBlock>, mem: Memory, events: seq<Event>, st: Run)
    requires Follows(blocks, mem, events, st)
    ensures st.s.blocks == blocks
  {
  }

  /** In every run from stage 1 on, every page holds what was written last, its
      marks are those of the writes, syncs and sends so far, and the stream is the block list
      followed by one record for every page sent. */
  lemma EventsDecide(blocks: seq<RamBlock>, mem: Memory, dirty: set<nat>, events: seq<Event>, st: Run)
    requires Layout(blocks) && Shape(blocks, mem) && Runs(Start(blocks, mem, dirty), events, st)
    ensures Follows(blocks, mem, events, st)
  {
    hide Runs, Layout, Shape;
    var st0 := Start(blocks, mem, dirty);
    forall pos | Valid(blocks, pos) ensures PageFollows(mem, [], st0.s, pos) {
      InAllPages(blocks, pos);
    }
    RunFollows(blocks, mem, [], st0, events, st);
    assert [] + events == events;
  }
}
