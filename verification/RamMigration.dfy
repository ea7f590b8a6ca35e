/**
 Live RAM migration as a whole: guest writes interleaved with the sections of
 ram_save_live, and ram_load replaying the stream on the other side.
 */
module RamMigration {
  import opened Wire
  import opened RamStream
  import opened RamSender

  /** What can happen between the start of stage 1 and the end of stage 3. A
      guest write is seen at once (logged == false) or only by the kernel's
      dirty log, which the next call of ram_save_live merges (Sync). */
  datatype Event =
    | GuestWrite(pos: Pos, page: Page, logged: bool)
    | Sync
    | Save(pos: Pos)
    | EndSection

  /** The sender, the sections already ended and the one being written. */
  datatype Run = Run(s: Sender, done: seq<seq<Item>>, cur: seq<Item>)

  /** Stage 1 up to its first page: every page dirty, the block list put. */
  function Start(blocks: seq<RamBlock>, mem: Memory, dirty: set<nat>): Run {
    Run(Sender(blocks, mem, dirty + AllPages(blocks), {}, None, 0), [], [BlockList(blocks)])
  }

  ghost predicate Enabled(st: Run, e: Event) {
    match e
    case GuestWrite(pos, _, _) => Valid(st.s.blocks, pos)
    case Sync => true
    case Save(pos) => ValidSender(st.s) && FirstDirty(st.s, pos)
    case EndSection => true
  }

  function Written(s: Sender, pos: Pos, page: Page, logged: bool): Sender
    requires Valid(s.blocks, pos) && Shape(s.blocks, s.mem)
  {
    var id, addr := s.blocks[pos.b].id, Addr(s.blocks, pos);
    var pages: seq<Page> := s.mem[id][pos.p := page];
    var s' := s.(mem := s.mem[id := pages]);
    if logged then s'.(log := s.log + {addr}) else s'.(dirty := s.dirty + {addr})
  }

  function Step(st: Run, e: Event): Run
    requires Shape(st.s.blocks, st.s.mem)
    requires e.GuestWrite? || e.Save? ==> Valid(st.s.blocks, e.pos)
  {
    match e
    case GuestWrite(pos, page, logged) => st.(s := Written(st.s, pos, page, logged))
    case Sync => st.(s := st.s.(dirty := st.s.dirty + st.s.log, log := {}))
    case Save(pos) => st.(s := Sent(st.s, pos), cur := st.cur + [PageItem(st.s, pos)])
    case EndSection => st.(done := st.done + [st.cur], cur := [])
  }

  /** A run: every event is enabled where it happens. */
  ghost predicate Runs(st: Run, events: seq<Event>, st': Run)
    decreases |events|
  {
    if events == [] then st == st'
    else
      && Shape(st.s.blocks, st.s.mem) && Enabled(st, events[0])
      && Valid(st.s.blocks, if events[0].GuestWrite? || events[0].Save? then events[0].pos else StartPos(st.s))
      && Runs(Step(st, events[0]), events[1..], st')
  }

  // ---- the receiver -------------------------------------------------------

  function Flatten(sections: seq<seq<Item>>): seq<Item> {
    if sections == [] then [] else sections[0] + Flatten(sections[1..])
  }

  function EncodeAll(sections: seq<seq<Item>>): seq<seq<byte>> {
    seq(|sections|, i requires 0 <= i < |sections| => EncodeSection(sections[i]))
  }

  /** ram_load is called once for each section. */
  function LoadSections(files: seq<seq<byte>>, r: Receiver): Option<Receiver>
    decreases |files|
  {
    if files == [] then Some(r)
    else
      match Load(files[0], r)
      case Failed(_) => None
      case Ok(r', rest) => if rest == [] then LoadSections(files[1..], r') else None
  }

  lemma {:induction false} FlattenAppend(sections: seq<seq<Item>>, cur: seq<Item>)
    ensures Flatten(sections + [cur]) == Flatten(sections) + cur
  {
    if sections == [] {
      assert Flatten([cur]) == cur;
    } else {
      assert (sections + [cur])[1..] == sections[1..] + [cur];
      FlattenAppend(sections[1..], cur);
    }
  }

  /** Reading the sections one by one is replaying all their items in order. */
  lemma {:induction false} SectionsReplay(sections: seq<seq<Item>>, r: Receiver)
    requires forall it <- Flatten(sections) :: WellFormed(it)
    requires ReplayAll(r, Flatten(sections)).Some?
    ensures LoadSections(EncodeAll(sections), r) == ReplayAll(r, Flatten(sections))
    decreases |sections|
  {
    hide Load, EncodeSection, WellFormed, ReplayAll;
    if sections == [] {
      assert ReplayAll(r, []) == Some(r) by { ReplayNothing(r); }
    } else {
      var a, b := sections[0], Flatten(sections[1..]);
      ReplayPrefix(r, a, b);
      ReplayAppend(r, a, b);
      assert EncodeSection(a) + [] == EncodeSection(a);
      LoadReadsSection(a, [], r);
      assert EncodeAll(sections)[1..] == EncodeAll(sections[1..]);
      SectionsReplay(sections[1..], ReplayAll(r, a).value);
    }
  }

  // ---- the invariant ------------------------------------------------------

  predicate Current(s: Sender, r: Receiver, pos: Pos)
    requires Shape(s.blocks, s.mem) && Shape(s.blocks, r.mem) && Valid(s.blocks, pos)
  {
    var id := s.blocks[pos.b].id;
    r.mem[id][pos.p] == s.mem[id][pos.p]
  }

  /** Every page is dirty, logged, or has its current contents at the receiver;
      and a page marked CONTINUE will reach the block the sender means. */
  ghost predicate Tied(s: Sender, r: Receiver) {
    && ValidSender(s)
    && Shape(s.blocks, r.mem)
    && (s.last.Some? ==> r.block == Some(s.blocks[s.last.value].id))
    && (s.last.None? ==> forall pos :: Valid(s.blocks, pos) ==> Dirty(s, pos))
    && forall pos :: Valid(s.blocks, pos) ==>
         Dirty(s, pos) || Addr(s.blocks, pos) in s.log || Current(s, r, pos)
  }

  /** Blocks of the receiver that the sender does not have stay as they were. */
  ghost predicate OthersKept(blocks: seq<RamBlock>, r0: Receiver, r: Receiver) {
    && r.mem.Keys == r0.mem.Keys
    && forall id <- r0.mem :: (forall b <- blocks :: b.id != id) ==> r.mem[id] == r0.mem[id]
  }

  ghost predicate Inv(st: Run, r0: Receiver) {
    var items := Flatten(st.done) + st.cur;
    && (forall it <- items :: WellFormed(it))
    && ReplayAll(r0, items).Some?
    && Tied(st.s, ReplayAll(r0, items).value)
    && OthersKept(st.s.blocks, r0, ReplayAll(r0, items).value)
  }

  lemma SaveTied(s: Sender, r: Receiver, pos: Pos)
    requires Tied(s, r) && FirstDirty(s, pos)
    ensures Valid(s.blocks, pos) && WellFormed(PageItem(s, pos))
    ensures Replay(r, PageItem(s, pos)).Some?
    ensures Tied(Sent(s, pos), Replay(r, PageItem(s, pos)).value)
    ensures OthersKept(s.blocks, r, Replay(r, PageItem(s, pos)).value)
  {
    hide Replay, PageItem, Tied, WellFormed, FirstDirty, Layout;
    TiedValid(s, r);
    SaveReplays(s, r, pos);
    var r' := Replay(r, PageItem(s, pos)).value;
    StoredTied(s, r, pos, r');
  }

  /** r' is r with the sender's page pos stored. */
  ghost predicate Stored(s: Sender, r: Receiver, pos: Pos, r': Receiver)
    requires Shape(s.blocks, s.mem) && Valid(s.blocks, pos)
  {
    var id := s.blocks[pos.b].id;
    && r'.block == Some(id) && r'.mem.Keys == r.mem.Keys && id in r.mem && pos.p < |r.mem[id]|
    && r'.mem[id] == r.mem[id][pos.p := PageAt(s, pos)]
    && forall j <- r.mem :: j != id ==> r'.mem[j] == r.mem[j]
  }

  lemma SaveReplays(s: Sender, r: Receiver, pos: Pos)
    requires Tied(s, r) && FirstDirty(s, pos)
    ensures Valid(s.blocks, pos) && Dirty(s, pos) && WellFormed(PageItem(s, pos))
    ensures Replay(r, PageItem(s, pos)).Some? && Stored(s, r, pos, Replay(r, PageItem(s, pos)).value)
  {
    hide Walk, BodyPage, Squeeze;
    assert s.blocks[pos.b] in s.blocks;
    TotalPagesPrefix(s.blocks, pos.b);
  }

  lemma StoredTied(s: Sender, r: Receiver, pos: Pos, r': Receiver)
    requires Tied(s, r) && Valid(s.blocks, pos) && Stored(s, r, pos, r')
    ensures Tied(Sent(s, pos), r') && OthersKept(s.blocks, r, r')
  {
    hide Layout;
    var s' := Sent(s, pos);
    forall q | Valid(s.blocks, q)
      ensures Dirty(s', q) || Addr(s.blocks, q) in s.log || Current(s', r', q)
    {
      StoredCurrent(s, r, pos, r', q);
    }
    assert s.blocks[pos.b] in s.blocks;
  }

  lemma StoredCurrent(s: Sender, r: Receiver, pos: Pos, r': Receiver, q: Pos)
    requires ValidSender(s) && Shape(s.blocks, r.mem) && Shape(s.blocks, r'.mem)
    requires Valid(s.blocks, pos) && Valid(s.blocks, q) && Stored(s, r, pos, r')
    requires Dirty(s, q) || Addr(s.blocks, q) in s.log || Current(s, r, q)
    ensures Dirty(Sent(s, pos), q) || Addr(s.blocks, q) in s.log || Current(Sent(s, pos), r', q)
  {
    hide Layout;
    if Addr(s.blocks, q) == Addr(s.blocks, pos) {
      AddrInjective(s.blocks, q, pos);
    } else if q.b != pos.b {
      IdsDiffer(s.blocks, q.b, pos.b);
    }
    assert s.blocks[q.b] in s.blocks;
  }

  lemma IdsDiffer(blocks: seq<RamBlock>, i: nat, j: nat)
    requires Layout(blocks) && i < |blocks| && j < |blocks| && i != j
    ensures blocks[i].id != blocks[j].id
  {
  }

  lemma WriteTied(s: Sender, r: Receiver, pos: Pos, page: Page, logged: bool)
    requires Tied(s, r) && Valid(s.blocks, pos)
    ensures Tied(Written(s, pos, page, logged), r)
  {
    hide Layout;
    var s' := Written(s, pos, page, logged);
    WrittenShape(s, pos, page, logged);
    forall q | Valid(s.blocks, q)
      ensures Dirty(s', q) || Addr(s.blocks, q) in s'.log || Current(s', r, q)
    {
      if q.b != pos.b {
        IdsDiffer(s.blocks, q.b, pos.b);
      }
    }
  }

  lemma WrittenShape(s: Sender, pos: Pos, page: Page, logged: bool)
    requires Shape(s.blocks, s.mem) && Valid(s.blocks, pos)
    ensures Shape(s.blocks, Written(s, pos, page, logged).mem)
  {
  }

  lemma SyncTied(s: Sender, r: Receiver)
    requires Tied(s, r)
    ensures Tied(s.(dirty := s.dirty + s.log, log := {}), r)
  {
  }

  lemma StartInv(blocks: seq<RamBlock>, mem: Memory, dirty: set<nat>, r0: Receiver)
    requires Layout(blocks) && Shape(blocks, mem) && Shape(blocks, r0.mem)
    ensures Inv(Start(blocks, mem, dirty), r0)
  {
    var st := Start(blocks, mem, dirty);
    assert Flatten(st.done) + st.cur == [BlockList(blocks)];
    assert ReplayAll(r0, [BlockList(blocks)]) == Some(r0);
    forall pos | Valid(blocks, pos) ensures Dirty(st.s, pos) {
      assert Addr(blocks, pos) in AllPages(blocks) by { InAllPages(blocks, pos); }
    }
    assert Valid(blocks, Pos(0, 0)) && Dirty(st.s, Pos(0, 0));
  }

  /** Every event keeps the invariant. */
  lemma StepInv(st: Run, e: Event, r0: Receiver)
    requires Inv(st, r0) && Enabled(st, e)
    ensures Valid(st.s.blocks, StartPos(st.s))
    ensures e.GuestWrite? || e.Save? ==> Valid(st.s.blocks, e.pos)
    ensures Inv(Step(st, e), r0) && Step(st, e).s.blocks == st.s.blocks
  {
    hide WellFormed, Replay, Tied, OthersKept;
    var items := Flatten(st.done) + st.cur;
    var r := ReplayAll(r0, items).value;
    assert ValidSender(st.s) by { TiedValid(st.s, r); }
    match e
    case GuestWrite(pos, page, logged) =>
      WriteTied(st.s, r, pos, page, logged);
    case Sync =>
      SyncTied(st.s, r);
    case Save(pos) =>
      var it := PageItem(st.s, pos);
      SaveTied(st.s, r, pos);
      assert Flatten(st.done) + (st.cur + [it]) == items + [it];
      ReplayAppend(r0, items, [it]);
      ReplayOne(r, it);
      KeptTrans(st.s.blocks, r0, r, Replay(r, it).value);
    case EndSection =>
      FlattenAppend(st.done, st.cur);
      assert Flatten(st.done + [st.cur]) + [] == items;
  }

  lemma TiedValid(s: Sender, r: Receiver)
    requires Tied(s, r)
    ensures ValidSender(s)
  {
  }

  lemma KeptTrans(blocks: seq<RamBlock>, a: Receiver, b: Receiver, c: Receiver)
    requires OthersKept(blocks, a, b) && OthersKept(blocks, b, c)
    ensures OthersKept(blocks, a, c)
  {
  }

  lemma {:induction false} RunInv(st: Run, events: seq<Event>, st': Run, r0: Receiver)
    requires Inv(st, r0) && Runs(st, events, st')
    ensures Inv(st', r0) && st'.s.blocks == st.s.blocks
    decreases |events|
  {
    if events != [] {
      hide Inv, Enabled;
      StepInv(st, events[0], r0);
      RunInv(Step(st, events[0]), events[1..], st', r0);
    }
  }

  /** Convergence. Whatever the guest wrote while stages 1 and 2 were sending,
      once a run has reached the end of stage 3 (no page dirty, nothing left in
      the log, the section ended) reading the sections gives the receiver the
      sender's memory, and changes no other block. */
  lemma RamConverges(blocks: seq<RamBlock>, mem: Memory, dirty: set<nat>,
                     events: seq<Event>, st: Run, r0: Receiver)
    requires Layout(blocks) && Shape(blocks, mem) && Shape(blocks, r0.mem)
    requires Runs(Start(blocks, mem, dirty), events, st)
    requires NoneDirty(st.s) && st.s.log == {} && st.cur == []
    ensures var loaded := LoadSections(EncodeAll(st.done), r0);
            && loaded.Some?
            && (forall b <- blocks :: b.id in loaded.value.mem && b.id in st.s.mem &&
                                      loaded.value.mem[b.id] == st.s.mem[b.id])
            && OthersKept(blocks, r0, loaded.value)
  {
    StartInv(blocks, mem, dirty, r0);
    RunInv(Start(blocks, mem, dirty), events, st, r0);
    assert Flatten(st.done) + st.cur == Flatten(st.done);
    SectionsReplay(st.done, r0);
    var r := ReplayAll(r0, Flatten(st.done)).value;
    AllCurrent(st.s, r);
  }

  lemma AllCurrent(s: Sender, r: Receiver)
    requires Tied(s, r) && NoneDirty(s) && s.log == {}
    ensures forall b <- s.blocks :: r.mem[b.id] == s.mem[b.id]
  {
    forall b | b in s.blocks ensures r.mem[b.id] == s.mem[b.id] {
      var i :| 0 <= i < |s.blocks| && s.blocks[i] == b;
      forall p | 0 <= p < b.pages ensures r.mem[b.id][p] == s.mem[b.id][p] {
        assert Valid(s.blocks, Pos(i, p));
        assert Current(s, r, Pos(i, p));
      }
    }
  }

  // ---- ram_save_live makes such runs ----------------------------------------

  lemma {:induction false} RunsAppend(st: Run, events: seq<Event>, mid: Run, e: Event)
    requires Runs(st, events, mid)
    requires Shape(mid.s.blocks, mid.s.mem) && Enabled(mid, e) && Valid(mid.s.blocks, StartPos(mid.s))
    requires e.GuestWrite? || e.Save? ==> Valid(mid.s.blocks, e.pos)
    ensures Runs(st, events + [e], Step(mid, e))
    decreases |events|
  {
    hide Enabled, Step, Shape;
    if events == [] {
      assert (events + [e])[0] == e && (events + [e])[1..] == [];
    } else {
      assert (events + [e])[1..] == events[1..] + [e];
      RunsAppend(Step(st, events[0]), events[1..], mid, e);
    }
  }

  /** Where a call of ram_save_live begins: stage 1 starts afresh, the others
      go on from st after merging the dirty log. */
  function Entered(stage: nat, st: Run): Run
    requires Shape(st.s.blocks, st.s.mem)
  {
    if stage == 1 then Start(st.s.blocks, st.s.mem, st.s.dirty + st.s.log) else Step(st, Sync)
  }

  /** Calls ram_save_block until nothing is dirty or `turns` calls are used up. */
  method SaveBlocks(v: RamSaver, ghost st0: Run, turns: Option<nat>)
    returns (ghost events: seq<Event>, ghost st: Run, ghost items: seq<Item>)
    requires ValidSender(v.State()) && st0.s == v.State()
    modifies v
    ensures Runs(st0, events, st) && st == Run(v.State(), st0.done, st0.cur + items)
    ensures v.file == old(v.file) + EncodeItems(items)
    ensures ValidSender(v.State()) && v.mem == old(v.mem) && v.log == old(v.log)
    ensures turns == None ==> NoneDirty(v.State())
    ensures turns.Some? ==> |items| == turns.value || (|items| < turns.value && NoneDirty(v.State()))
  {
    hide Runs, EncodeItems, Encode, Step, Sent, PageItem, ValidSender, FirstDirty, NoneDirty, Valid;
    events, st, items := [], st0, [];
    RunsNothing(st0);
    EncodeNothing();
    assert st.cur == st0.cur + items;
    var used := 0;
    while turns == None || used < turns.value
      invariant Runs(st0, events, st) && st == Run(v.State(), st0.done, st0.cur + items)
      invariant v.file == old(v.file) + EncodeItems(items)
      invariant ValidSender(v.State()) && v.mem == old(v.mem) && v.log == old(v.log)
      invariant used == |items| && (turns.Some? ==> used <= turns.value)
      decreases |v.dirty|
    {
      var bytesSent, pos := v.SaveBlock();
      if bytesSent == 0 {
        break;
      }
      SaveExtends(st0, events, st, pos);
      ghost var it := PageItem(st.s, pos);
      EncodeSnoc(items, it);
      Assoc(old(v.file), EncodeItems(items), Encode(it));
      assert (st0.cur + items) + [it] == st0.cur + (items + [it]);
      events, items, st := events + [Save(pos)], items + [it], Step(st, Save(pos));
      used := used + 1;
    }
  }

  /** One more page makes a longer run with fewer dirty pages. */
  lemma SaveExtends(st0: Run, events: seq<Event>, st: Run, pos: Pos)
    requires Runs(st0, events, st) && ValidSender(st.s) && FirstDirty(st.s, pos)
    ensures Valid(st.s.blocks, pos)
    ensures Runs(st0, events + [Save(pos)], Step(st, Save(pos)))
    ensures Step(st, Save(pos)) == Run(Sent(st.s, pos), st.done, st.cur + [PageItem(st.s, pos)])
    ensures ValidSender(Sent(st.s, pos)) && |Sent(st.s, pos).dirty| < |st.s.dirty|
    ensures Sent(st.s, pos).mem == st.s.mem && Sent(st.s, pos).log == st.s.log
  {
    FirstDirtyValid(st.s, pos);
    EnabledSave(st, pos);
    RunsAppend(st0, events, st, Save(pos));
  }

  /** "Make sure all dirty bits are set": the loops of stage 1. */
  method MarkAllDirty(v: RamSaver)
    modifies v`dirty
    ensures v.dirty == old(v.dirty) + AllPages(v.blocks)
  {
    var i := 0;
    while i < |v.blocks|
      invariant 0 <= i <= |v.blocks|
      invariant v.dirty == old(v.dirty) + AllPages(v.blocks[..i])
    {
      var b, p := v.blocks[i], 0;
      while p < b.pages
        invariant 0 <= p <= b.pages
        invariant v.dirty == old(v.dirty) + AllPages(v.blocks[..i]) + PagesOf(b, p)
      {
        if b.page + p !in v.dirty {
          v.dirty := v.dirty + {b.page + p};
        }
        p := p + 1;
      }
      assert v.blocks[..i + 1][..i] == v.blocks[..i];
      i := i + 1;
    }
    assert v.blocks[..i] == v.blocks;
  }

  /** ram_save_live. `turns` is how many pages the rate limit lets through;
      stage 3 then flushes every remaining page regardless. Each call makes a
      run and puts one section; before stage 3 the pages sent are as many as the
      limit lets through unless nothing is dirty, after it nothing is dirty. */
  method SaveLive(v: RamSaver, stage: nat, turns: nat, ghost st0: Run)
    returns (ghost events: seq<Event>, ghost st: Run, ghost items: seq<Item>)
    requires 1 <= stage <= 3 && st0.s == v.State() && st0.cur == []
    requires Layout(v.blocks) && Shape(v.blocks, v.mem)
    requires stage != 1 ==> ValidSender(v.State())
    modifies v
    ensures Runs(Entered(stage, st0), events, st)
    ensures st == Run(v.State(), Entered(stage, st0).done + [items], [])
    ensures v.file == old(v.file) + EncodeSection(items)
    ensures ValidSender(v.State()) && v.mem == old(v.mem)
    ensures stage == 3 ==> NoneDirty(st.s) && st.s.log == {}
    ensures |Entered(stage, st0).cur| <= |items| && items[..|Entered(stage, st0).cur|] == Entered(stage, st0).cur
    ensures stage != 3 ==>
              var sent := |items| - |Entered(stage, st0).cur|;
              sent == turns || (sent < turns && NoneDirty(st.s))
  {
    hide Runs, EncodeItems, Encode, ValidSender, NoneDirty, AllPages, Layout, Shape, Valid;
    ghost var f0, st1 := v.file, Entered(stage, st0);
    EnteredValid(stage, st0);
    v.dirty, v.log := v.dirty + v.log, {};
    if stage == 1 {
      v.last, v.lastPage := None, 0;
      MarkAllDirty(v);
      PutBlockList(v);
    }
    assert st1.s == v.State();
    assert v.file == f0 + EncodeItems(st1.cur) by {
      EncodeNothing();
      EncodeSnoc([], BlockList(v.blocks));
      assert [] + [BlockList(v.blocks)] == [BlockList(v.blocks)];
    }
    var e1, st2, i1 := SaveBlocks(v, st1, Some(turns));
    EncodeTrans(f0, st1.cur, i1);
    events, st, items := e1, st2, st1.cur + i1;
    if stage == 3 {
      var e2, st3, i2 := SaveBlocks(v, st2, None);
      RunsTrans(st1, e1, st2, e2, st3);
      EncodeTrans(f0, st2.cur, i2);
      events, st, items := e1 + e2, st3, st2.cur + i2;
    }
    v.file := v.file + Put64(FLAG_EOS);
    Assoc(f0, EncodeItems(items), Put64(FLAG_EOS));
    EndExtends(st1, events, st);
    events, st := events + [EndSection], Step(st, EndSection);
  }

  /** The header of stage 1: total size and block list. */
  method PutBlockList(v: RamSaver)
    modifies v`file
    ensures v.file == old(v.file) + Encode(BlockList(v.blocks))
  {
    hide Put64, Or;
    v.file := v.file + Put64(Or(TotalPages(v.blocks) * PAGE, FLAG_MEM_SIZE));
    ghost var f1 := v.file;
    var i := 0;
    assert v.blocks[0..] == v.blocks;
    ghost var list := EncodeBlocks(v.blocks);
    while i < |v.blocks|
      invariant 0 <= i <= |v.blocks|
      invariant v.file + EncodeBlocks(v.blocks[i..]) == f1 + list
    {
      var b := v.blocks[i];
      ghost var f, rest := v.file, EncodeBlocks(v.blocks[i + 1..]);
      assert v.blocks[i..][1..] == v.blocks[i + 1..];
      v.file := v.file + ([|b.id|] + b.id) + Put64(b.pages * PAGE);
      Puts(f, EncodeId(b.id), Put64(b.pages * PAGE), rest);
      i := i + 1;
    }
    assert v.file + [] == v.file;
  }

  lemma EnteredValid(stage: nat, st: Run)
    requires Layout(st.s.blocks) && Shape(st.s.blocks, st.s.mem)
    requires stage != 1 ==> ValidSender(st.s)
    ensures ValidSender(Entered(stage, st).s)
  {
    if stage == 1 {
      InAllPages(st.s.blocks, Pos(0, 0));
    }
  }

  lemma EndExtends(st0: Run, events: seq<Event>, st: Run)
    requires Runs(st0, events, st) && ValidSender(st.s)
    ensures Shape(st.s.blocks, st.s.mem)
    ensures Runs(st0, events + [EndSection], Step(st, EndSection))
  {
    RunsAppend(st0, events, st, EndSection);
  }

  lemma {:induction false} RunsTrans(a: Run, e1: seq<Event>, b: Run, e2: seq<Event>, c: Run)
    requires Runs(a, e1, b) && Runs(b, e2, c)
    ensures Runs(a, e1 + e2, c)
    decreases |e1|
  {
    hide Enabled, Step, Shape;
    if e1 == [] {
      assert e1 + e2 == e2;
    } else {
      assert (e1 + e2)[1..] == e1[1..] + e2;
      RunsTrans(Step(a, e1[0]), e1[1..], b, e2, c);
    }
  }

  lemma {:induction false} EncodeItemsAppend(a: seq<Item>, b: seq<Item>)
    ensures EncodeItems(a + b) == EncodeItems(a) + EncodeItems(b)
    decreases |b|
  {
    hide Encode;
    if b == [] {
      assert a + b == a;
    } else {
      var n := |b| - 1;
      assert (a + b)[..|a| + n] == a + b[..n];
      EncodeItemsAppend(a, b[..n]);
      Assoc(EncodeItems(a), EncodeItems(b[..n]), Encode(b[n]));
    }
  }

  lemma EncodeTrans(f: seq<byte>, a: seq<Item>, b: seq<Item>)
    ensures f + EncodeItems(a) + EncodeItems(b) == f + EncodeItems(a + b)
  {
    EncodeItemsAppend(a, b);
    Assoc(f, EncodeItems(a), EncodeItems(b));
  }

  lemma RunsNothing(st: Run)
    ensures Runs(st, [], st)
  {
  }

  lemma EncodeNothing()
    ensures EncodeItems([]) == []
  {
  }

  lemma EncodeSnoc(items: seq<Item>, it: Item)
    ensures EncodeItems(items + [it]) == EncodeItems(items) + Encode(it)
  {
    hide Encode;
    assert (items + [it])[..|items|] == items;
  }

  lemma EnabledSave(st: Run, pos: Pos)
    requires ValidSender(st.s) && FirstDirty(st.s, pos)
    ensures Enabled(st, Save(pos))
  {
  }

  lemma FirstDirtyValid(s: Sender, pos: Pos)
    requires ValidSender(s) && FirstDirty(s, pos)
    ensures Valid(s.blocks, pos) && Dirty(s, pos) && ValidSender(Sent(s, pos))
  {
  }

  // ---- a whole migration -----------------------------------------------------

  /** ram_load called n times on one file. */
  function LoadMany(file: seq<byte>, n: nat, r: Receiver): Option<(Receiver, seq<byte>)>
    decreases n
  {
    if n == 0 then Some((r, file))
    else
      match Load(file, r)
      case Failed(_) => None
      case Ok(r', rest) => LoadMany(rest, n - 1, r')
  }

  /** The bytes of the sections, one after the other. */
  function EncodeDone(sections: seq<seq<Item>>): seq<byte> {
    if sections == [] then [] else EncodeDone(sections[..|sections| - 1]) + EncodeSection(sections[|sections| - 1])
  }

  lemma {:induction false} EncodeDoneFront(sections: seq<seq<Item>>)
    requires sections != []
    ensures EncodeDone(sections) == EncodeSection(sections[0]) + EncodeDone(sections[1..])
    decreases |sections|
  {
    hide EncodeSection;
    var n := |sections| - 1;
    if n == 0 {
      assert sections[..0] == [] && sections[1..] == [];
      assert [] + EncodeSection(sections[0]) == EncodeSection(sections[0]) + [];
    } else {
      EncodeDoneFront(sections[..n]);
      assert sections[..n][1..] == sections[1..][..n - 1];
      Assoc(EncodeSection(sections[0]), EncodeDone(sections[1..][..n - 1]), EncodeSection(sections[n]));
    }
  }

  /** The sections read off one file are the sections read one by one. */
  lemma {:induction false} FileReplays(sections: seq<seq<Item>>, r: Receiver)
    requires forall it <- Flatten(sections) :: WellFormed(it)
    requires ReplayAll(r, Flatten(sections)).Some?
    ensures LoadMany(EncodeDone(sections), |sections|, r) == Some((ReplayAll(r, Flatten(sections)).value, []))
    decreases |sections|
  {
    hide Load, EncodeSection, WellFormed, ReplayAll, EncodeDone;
    if sections == [] {
      ReplayNothing(r);
      assert EncodeDone([]) == [] by { EncodeDoneNothing(); }
    } else {
      var a, b := sections[0], Flatten(sections[1..]);
      ReplayPrefix(r, a, b);
      ReplayAppend(r, a, b);
      EncodeDoneFront(sections);
      LoadReadsSection(a, EncodeDone(sections[1..]), r);
      FileReplays(sections[1..], ReplayAll(r, a).value);
    }
  }

  lemma EncodeDoneNothing()
    ensures EncodeDone([]) == []
  {
  }

  lemma EncodeDoneSnoc(sections: seq<seq<Item>>, items: seq<Item>)
    ensures EncodeDone(sections + [items]) == EncodeDone(sections) + EncodeSection(items)
  {
    hide EncodeSection;
    assert (sections + [items])[..|sections|] == sections;
  }

  /** Whatever receiver reads n sections off the file ends with these blocks, all of
      the file read, and its other blocks as they were. */
  ghost predicate Arrives(blocks: seq<RamBlock>, mem: Memory, file: seq<byte>, n: nat) {
    forall r0: Receiver :: Shape(blocks, r0.mem) ==> Arrived(blocks, mem, r0, LoadMany(file, n, r0))
  }

  ghost predicate Arrived(blocks: seq<RamBlock>, mem: Memory, r0: Receiver, loaded: Option<(Receiver, seq<byte>)>) {
    && loaded.Some? && loaded.value.1 == []
    && (forall b <- blocks :: b.id in loaded.value.0.mem && b.id in mem && loaded.value.0.mem[b.id] == mem[b.id])
    && OthersKept(blocks, r0, loaded.value.0)
  }

  lemma FinishedArrives(blocks: seq<RamBlock>, mem: Memory, dirty: set<nat>, events: seq<Event>, st: Run)
    requires Layout(blocks) && Shape(blocks, mem)
    requires Runs(Start(blocks, mem, dirty), events, st)
    requires NoneDirty(st.s) && st.s.log == {} && st.cur == []
    ensures Arrives(blocks, st.s.mem, EncodeDone(st.done), |st.done|)
  {
    hide Runs, Layout, Shape, NoneDirty, LoadMany, EncodeDone;
    forall r0: Receiver | Shape(blocks, r0.mem)
      ensures Arrived(blocks, st.s.mem, r0, LoadMany(EncodeDone(st.done), |st.done|, r0))
    {
      RunReplays(blocks, mem, dirty, events, st, r0);
      FileReplays(st.done, r0);
      SectionsReplay(st.done, r0);
      RamConverges(blocks, mem, dirty, events, st, r0);
    }
  }

  lemma RunReplays(blocks: seq<RamBlock>, mem: Memory, dirty: set<nat>, events: seq<Event>, st: Run, r0: Receiver)
    requires Layout(blocks) && Shape(blocks, mem) && Shape(blocks, r0.mem)
    requires Runs(Start(blocks, mem, dirty), events, st) && st.cur == []
    ensures (forall it <- Flatten(st.done) :: WellFormed(it)) && ReplayAll(r0, Flatten(st.done)).Some?
  {
    hide Runs, Layout, Shape, WellFormed, Tied, ReplayAll, OthersKept;
    StartInv(blocks, mem, dirty, r0);
    RunInv(Start(blocks, mem, dirty), events, st, r0);
    assert Flatten(st.done) + st.cur == Flatten(st.done);
  }

  lemma {:induction false} RunsBlocks(st: Run, events: seq<Event>, st': Run)
    requires Runs(st, events, st')
    ensures st'.s.blocks == st.s.blocks
    decreases |events|
  {
    hide Enabled, Shape;
    if events != [] {
      RunsBlocks(Step(st, events[0]), events[1..], st');
    }
  }

  /** The guest writes any pages, seen at once or only by the kernel's log. */
  method GuestRuns(v: RamSaver, ghost st0: Run) returns (ghost events: seq<Event>, ghost st: Run)
    requires ValidSender(v.State()) && st0.s == v.State()
    modifies v`mem, v`dirty, v`log
    ensures Runs(st0, events, st) && st == st0.(s := v.State()) && ValidSender(v.State())
  {
    hide Runs, ValidSender, Valid, Shape;
    events, st := [], st0;
    RunsNothing(st0);
    var more: nat := *;
    while more > 0
      invariant Runs(st0, events, st) && st == st0.(s := v.State()) && ValidSender(v.State())
    {
      var pos: Pos, page: Page, logged: bool := *, *, *;
      if Valid(v.blocks, pos) {
        WriteExtends(st0, events, st, pos, page, logged);
        GuestWrites(v, pos, page, logged);
        events, st := events + [GuestWrite(pos, page, logged)], Step(st, GuestWrite(pos, page, logged));
      }
      more := more - 1;
    }
  }

  method GuestWrites(v: RamSaver, pos: Pos, page: Page, logged: bool)
    requires Valid(v.blocks, pos) && Shape(v.blocks, v.mem)
    modifies v`mem, v`dirty, v`log
    ensures v.State() == Written(old(v.State()), pos, page, logged)
  {
    var id := v.blocks[pos.b].id;
    var pages: seq<Page> := v.mem[id][pos.p := page];
    v.mem := v.mem[id := pages];
    if logged {
      v.log := v.log + {v.blocks[pos.b].page + pos.p};
    } else {
      v.dirty := v.dirty + {v.blocks[pos.b].page + pos.p};
    }
  }

  lemma WriteExtends(st0: Run, events: seq<Event>, st: Run, pos: Pos, page: Page, logged: bool)
    requires Runs(st0, events, st) && ValidSender(st.s) && Valid(st.s.blocks, pos)
    ensures Shape(st.s.blocks, st.s.mem)
    ensures Runs(st0, events + [GuestWrite(pos, page, logged)], Step(st, GuestWrite(pos, page, logged)))
    ensures ValidSender(Written(st.s, pos, page, logged))
    ensures Step(st, GuestWrite(pos, page, logged)) == st.(s := Written(st.s, pos, page, logged))
  {
    hide Runs;
    WrittenShape(st.s, pos, page, logged);
    RunsAppend(st0, events, st, GuestWrite(pos, page, logged));
  }

  /** A call behind stage 1 goes on from where the last one ended. */
  lemma Continues(st0: Run, events: seq<Event>, st: Run, e: seq<Event>, st': Run, stage: nat)
    requires Runs(st0, events, st) && ValidSender(st.s) && stage != 1 && Runs(Entered(stage, st), e, st')
    ensures Runs(st0, events + [Sync] + e, st')
  {
    hide Runs;
    RunsAppend(st0, events, st, Sync);
    RunsTrans(st0, events + [Sync], Step(st, Sync), e, st');
  }

  /** A migration from stage 1 to stage 3: `turns` pages in stage 1, a number of
      pages for each round of stage 2, with the guest writing in between, and the
      guest stopped for stage 3. Any receiver with these blocks that reads the
      sections off the file ends with the sender's memory. */
  method Migrate(v: RamSaver, turns: nat, rounds: seq<nat>, last: nat)
    requires Layout(v.blocks) && Shape(v.blocks, v.mem) && v.file == []
    modifies v
    ensures v.blocks == old(v.blocks) && NoneDirty(v.State()) && v.log == {}
    ensures Arrives(v.blocks, v.mem, v.file, |rounds| + 2)
  {
    hide Runs, ValidSender, Layout, Shape, NoneDirty, EncodeSection, EncodeDone, Arrives, Sent, PageItem;
    ghost var blocks, mem, dirty := v.blocks, v.mem, v.dirty + v.log;
    ghost var start, st := Start(blocks, mem, dirty), Run(v.State(), [], []);
    ghost var events, items;
    EncodeDoneNothing();
    events, st, items := SaveLive(v, 1, turns, st);
    EncodeDoneSnoc([], items);
    var i := 0;
    while i < |rounds|
      invariant 0 <= i <= |rounds| && Runs(start, events, st) && st == Run(v.State(), st.done, [])
      invariant |st.done| == i + 1 && v.file == EncodeDone(st.done) && ValidSender(v.State())
    {
      events, st := RoundOf(v, start, events, st, 2, rounds[i]);
      i := i + 1;
    }
    events, st := RoundOf(v, start, events, st, 3, last);
    RunsBlocks(start, events, st);
    FinishedArrives(blocks, mem, dirty, events, st);
  }

  /** The guest runs, and then ram_save_live is called once more. */
  method RoundOf(v: RamSaver, ghost start: Run, ghost events0: seq<Event>, ghost st0: Run, stage: nat, turns: nat)
    returns (ghost events: seq<Event>, ghost st: Run)
    requires Runs(start, events0, st0) && st0 == Run(v.State(), st0.done, []) && 2 <= stage <= 3
    requires v.file == EncodeDone(st0.done) && ValidSender(v.State())
    modifies v
    ensures Runs(start, events, st) && st == Run(v.State(), st.done, []) && |st.done| == |st0.done| + 1
    ensures v.file == EncodeDone(st.done) && ValidSender(v.State())
    ensures stage == 3 ==> NoneDirty(v.State()) && v.log == {}
  {
    hide Runs, Layout, Shape, NoneDirty, EncodeSection, EncodeDone, Sent, PageItem, Valid;
    var e1, st1 := GuestRuns(v, st0);
    RunsTrans(start, events0, st0, e1, st1);
    ghost var e2, items;
    e2, st, items := SaveLive(v, stage, turns, st1);
    Continues(start, events0 + e1, st1, e2, st, stage);
    EncodeDoneSnoc(st1.done, items);
    events := events0 + e1 + [Sync] + e2;
  }
}
