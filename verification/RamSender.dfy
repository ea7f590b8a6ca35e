/**
 The sender of RAM pages: the cyclic scan of ram_save_block over the blocks of
 ram_list, and the page record it puts.
 */
module RamSender {
  import opened Wire
  import opened RamStream

  /** A page: the block's place in ram_list and the page's place in the block. */
  datatype Pos = Pos(b: nat, p: nat)

  predicate Valid(blocks: seq<RamBlock>, pos: Pos) {
    pos.b < |blocks| && pos.p < blocks[pos.b].pages
  }

  /** The page number that indexes phys_dirty. */
  function Addr(blocks: seq<RamBlock>, pos: Pos): nat
    requires Valid(blocks, pos)
  {
    blocks[pos.b].page + pos.p
  }

  /** Non-empty, non-overlapping blocks with distinct names. */
  predicate Layout(blocks: seq<RamBlock>) {
    && blocks != []
    && (forall b <- blocks :: 0 < b.pages)
    && (forall i, j :: 0 <= i < j < |blocks| ==>
          && blocks[i].id != blocks[j].id
          && (blocks[i].page + blocks[i].pages <= blocks[j].page
              || blocks[j].page + blocks[j].pages <= blocks[i].page))
    && TotalPages(blocks) < MAX_PAGES
  }

  lemma AddrInjective(blocks: seq<RamBlock>, x: Pos, y: Pos)
    requires Layout(blocks) && Valid(blocks, x) && Valid(blocks, y)
    requires Addr(blocks, x) == Addr(blocks, y)
    ensures x == y
  {
  }

  /** The step of the scan: the next page, the next block, or round to the first. */
  function Next(blocks: seq<RamBlock>, pos: Pos): (n: Pos)
    requires Layout(blocks) && Valid(blocks, pos)
    ensures Valid(blocks, n)
  {
    if pos.p + 1 < blocks[pos.b].pages then Pos(pos.b, pos.p + 1)
    else if pos.b + 1 < |blocks| then Pos(pos.b + 1, 0)
    else Pos(0, 0)
  }

  /** The first n pages of a block. */
  function PagesOf(b: RamBlock, n: nat): set<nat> {
    if n == 0 then {} else PagesOf(b, n - 1) + {b.page + n - 1}
  }

  function AllPages(blocks: seq<RamBlock>): set<nat> {
    if blocks == [] then {}
    else AllPages(blocks[..|blocks| - 1]) + PagesOf(blocks[|blocks| - 1], blocks[|blocks| - 1].pages)
  }

  lemma {:induction false} InPagesOf(b: RamBlock, n: nat, p: nat)
    requires p < n
    ensures b.page + p in PagesOf(b, n)
  {
    if p + 1 < n {
      InPagesOf(b, n - 1, p);
    }
  }

  lemma {:induction false} InAllPages(blocks: seq<RamBlock>, pos: Pos)
    requires Valid(blocks, pos)
    ensures Addr(blocks, pos) in AllPages(blocks)
    decreases |blocks|
  {
    var n := |blocks| - 1;
    if pos.b < n {
      InAllPages(blocks[..n], pos);
    } else {
      InPagesOf(blocks[n], blocks[n].pages, pos.p);
    }
  }

  // ---- the scan goes through every page once ------------------------------

  /** The number of pages in front of pos. */
  ghost function Rank(blocks: seq<RamBlock>, pos: Pos): nat
    requires pos.b <= |blocks|
  {
    TotalPages(blocks[..pos.b]) + pos.p
  }

  lemma {:induction false} TotalPagesSplit(a: seq<RamBlock>, b: seq<RamBlock>)
    ensures TotalPages(a + b) == TotalPages(a) + TotalPages(b)
  {
    if a == [] {
      assert a + b == b;
    } else {
      assert (a + b)[1..] == a[1..] + b;
      TotalPagesSplit(a[1..], b);
    }
  }

  lemma TotalPagesPrefix(blocks: seq<RamBlock>, b: nat)
    requires b < |blocks|
    ensures TotalPages(blocks[..b + 1]) == TotalPages(blocks[..b]) + blocks[b].pages
    ensures TotalPages(blocks[..b + 1]) <= TotalPages(blocks)
  {
    assert blocks[..b + 1] == blocks[..b] + [blocks[b]];
    TotalPagesSplit(blocks[..b], [blocks[b]]);
    assert TotalPages([blocks[b]]) == blocks[b].pages;
    assert blocks == blocks[..b + 1] + blocks[b + 1..];
    TotalPagesSplit(blocks[..b + 1], blocks[b + 1..]);
  }

  lemma RankInRange(blocks: seq<RamBlock>, pos: Pos)
    requires Valid(blocks, pos)
    ensures Rank(blocks, pos) < TotalPages(blocks)
  {
    TotalPagesPrefix(blocks, pos.b);
  }

  lemma {:induction false} PrefixMonotone(blocks: seq<RamBlock>, a: nat, b: nat)
    requires a <= b <= |blocks|
    ensures TotalPages(blocks[..a]) <= TotalPages(blocks[..b])
    decreases b - a
  {
    if a < b {
      PrefixMonotone(blocks, a, b - 1);
      TotalPagesPrefix(blocks, b - 1);
    }
  }

  lemma RankInjective(blocks: seq<RamBlock>, x: Pos, y: Pos)
    requires Valid(blocks, x) && Valid(blocks, y) && Rank(blocks, x) == Rank(blocks, y)
    ensures x == y
  {
    TotalPagesPrefix(blocks, x.b);
    TotalPagesPrefix(blocks, y.b);
    if x.b < y.b {
      PrefixMonotone(blocks, x.b + 1, y.b);
    } else if y.b < x.b {
      PrefixMonotone(blocks, y.b + 1, x.b);
    }
  }

  /** One step of the scan adds one to the rank, modulo the number of pages. */
  lemma NextRank(blocks: seq<RamBlock>, pos: Pos)
    requires Layout(blocks) && Valid(blocks, pos)
    ensures var n, r := TotalPages(blocks), Rank(blocks, pos);
            Rank(blocks, Next(blocks, pos)) == (if r + 1 < n then r + 1 else 0)
  {
    TotalPagesPrefix(blocks, pos.b);
    assert blocks[..|blocks|] == blocks;
    if pos.p + 1 == blocks[pos.b].pages && pos.b + 1 < |blocks| {
      RankInRange(blocks, Pos(pos.b + 1, 0));
    }
  }

  /** The page reached from start in k steps. */
  ghost function Walk(blocks: seq<RamBlock>, start: Pos, k: nat): (pos: Pos)
    requires Layout(blocks) && Valid(blocks, start)
    ensures Valid(blocks, pos)
  {
    if k == 0 then start else Next(blocks, Walk(blocks, start, k - 1))
  }

  lemma {:induction false} WalkRank(blocks: seq<RamBlock>, start: Pos, k: nat)
    requires Layout(blocks) && Valid(blocks, start) && k <= TotalPages(blocks)
    ensures var n, r := TotalPages(blocks), Rank(blocks, start);
            Rank(blocks, Walk(blocks, start, k)) == (if r + k < n then r + k else r + k - n)
  {
    RankInRange(blocks, start);
    if k != 0 {
      WalkRank(blocks, start, k - 1);
      NextRank(blocks, Walk(blocks, start, k - 1));
    }
  }

  /** Back at the start exactly after all pages, and not before. */
  lemma WalkReturns(blocks: seq<RamBlock>, start: Pos, k: nat)
    requires Layout(blocks) && Valid(blocks, start) && 0 < k <= TotalPages(blocks)
    ensures Walk(blocks, start, k) == start <==> k == TotalPages(blocks)
  {
    WalkRank(blocks, start, k);
    RankInRange(blocks, start);
    if k == TotalPages(blocks) {
      RankInjective(blocks, Walk(blocks, start, k), start);
    }
  }

  /** Every page is met within one turn. */
  lemma WalkMeets(blocks: seq<RamBlock>, start: Pos, pos: Pos) returns (k: nat)
    requires Layout(blocks) && Valid(blocks, start) && Valid(blocks, pos)
    ensures k < TotalPages(blocks) && Walk(blocks, start, k) == pos
  {
    RankInRange(blocks, start);
    RankInRange(blocks, pos);
    var r, q := Rank(blocks, start), Rank(blocks, pos);
    k := if r <= q then q - r else q + TotalPages(blocks) - r;
    WalkRank(blocks, start, k);
    RankInjective(blocks, Walk(blocks, start, k), pos);
  }

  // ---- ram_save_block -----------------------------------------------------

  /** Sender state: last_block is a place in ram_list, or null before the first
      page; log holds writes the kernel has seen and not yet handed over. */
  datatype Sender = Sender(blocks: seq<RamBlock>, mem: Memory, dirty: set<nat>, log: set<nat>,
                           last: Option<nat>, lastPage: nat)

  predicate Shape(blocks: seq<RamBlock>, mem: Memory) {
    forall b <- blocks :: b.id in mem && |mem[b.id]| == b.pages
  }

  /** last_block may be null only while the first page is still dirty:
      ram_save_block reads last_block->offset once the first test has failed. */
  predicate ValidSender(s: Sender) {
    && Layout(s.blocks)
    && Shape(s.blocks, s.mem)
    && Valid(s.blocks, StartPos(s))
    && (s.last.None? ==> s.lastPage == 0 && Addr(s.blocks, Pos(0, 0)) in s.dirty)
  }

  function StartPos(s: Sender): Pos {
    match s.last
    case None => Pos(0, s.lastPage)
    case Some(b) => Pos(b, s.lastPage)
  }

  function PageAt(s: Sender, pos: Pos): Page
    requires Shape(s.blocks, s.mem) && Valid(s.blocks, pos)
  {
    s.mem[s.blocks[pos.b].id][pos.p]
  }

  predicate AllEqual(page: Page, ch: byte) {
    forall i :: 0 <= i < PAGE ==> page[i] == ch
  }

  /** A page of one repeated byte travels as that byte. */
  function Squeeze(page: Page): (body: Body)
    ensures BodyPage(body) == page
    ensures body.Dup? <==> exists ch: byte :: AllEqual(page, ch)
  {
    assert forall ch: byte :: AllEqual(page, ch) ==> page[0] == ch;
    if AllEqual(page, page[0]) then
      assert Filled(page[0]) == page;
      Dup(page[0])
    else Full(page)
  }

  predicate Dirty(s: Sender, pos: Pos)
    requires Valid(s.blocks, pos)
  {
    Addr(s.blocks, pos) in s.dirty
  }

  /** pos is the first dirty page in cyclic order from where the last scan stopped. */
  ghost predicate FirstDirty(s: Sender, pos: Pos)
    requires ValidSender(s)
  {
    exists k: nat :: FirstDirtyAt(s, k) && Walk(s.blocks, StartPos(s), k) == pos
  }

  ghost predicate FirstDirtyAt(s: Sender, k: nat)
    requires ValidSender(s)
  {
    && k < TotalPages(s.blocks)
    && Dirty(s, Walk(s.blocks, StartPos(s), k))
    && forall j: nat :: j < k ==> !Dirty(s, Walk(s.blocks, StartPos(s), j))
  }

  /** Sending page pos: its flag is cleared and the scan stays there. */
  function Sent(s: Sender, pos: Pos): Sender
    requires Valid(s.blocks, pos)
  {
    s.(dirty := s.dirty - {Addr(s.blocks, pos)}, last := Some(pos.b), lastPage := pos.p)
  }

  function PageItem(s: Sender, pos: Pos): Item
    requires Shape(s.blocks, s.mem) && Valid(s.blocks, pos)
  {
    PageOf(s.blocks[pos.b].id, pos.p, s.last == Some(pos.b), Squeeze(PageAt(s, pos)))
  }

  ghost predicate NoneDirty(s: Sender) {
    forall pos :: Valid(s.blocks, pos) ==> !Dirty(s, pos)
  }

  /** No page of a whole turn is dirty exactly when no page is dirty at all. */
  lemma TurnCoversAll(s: Sender)
    requires ValidSender(s)
    requires forall j: nat :: j < TotalPages(s.blocks) ==> !Dirty(s, Walk(s.blocks, StartPos(s), j))
    ensures NoneDirty(s)
  {
    forall pos | Valid(s.blocks, pos) ensures !Dirty(s, pos) {
      var k := WalkMeets(s.blocks, StartPos(s), pos);
    }
  }

  lemma FirstDirtyUnique(s: Sender, x: Pos, y: Pos)
    requires ValidSender(s) && FirstDirty(s, x) && FirstDirty(s, y)
    ensures x == y
  {
    var i: nat :| FirstDirtyAt(s, i) && Walk(s.blocks, StartPos(s), i) == x;
    var j: nat :| FirstDirtyAt(s, j) && Walk(s.blocks, StartPos(s), j) == y;
    assert i == j;
  }

  /** Four bytes of a page as is_dup_page compares them (one 32-bit word). */
  function Word32(b0: byte, b1: byte, b2: byte, b3: byte): nat {
    b0 + 0x100 * b1 + 0x1_0000 * b2 + 0x100_0000 * b3
  }

  lemma LowByte(b: byte, rest: nat, c: byte, rest': nat)
    requires b + 0x100 * rest == c + 0x100 * rest'
    ensures b == c && rest == rest'
  {
  }

  lemma WordOfOneByte(b0: byte, b1: byte, b2: byte, b3: byte, ch: byte)
    ensures Word32(b0, b1, b2, b3) == Word32(ch, ch, ch, ch) <==> b0 == b1 == b2 == b3 == ch
  {
    if Word32(b0, b1, b2, b3) == Word32(ch, ch, ch, ch) {
      LowByte(b0, b1 + 0x100 * b2 + 0x1_0000 * b3, ch, ch + 0x100 * ch + 0x1_0000 * ch);
      LowByte(b1, b2 + 0x100 * b3, ch, ch + 0x100 * ch);
      LowByte(b2, b3, ch, ch);
    }
  }

  /** is_dup_page: word by word. */
  method IsDupPage(page: Page, ch: byte) returns (dup: bool)
    ensures dup <==> AllEqual(page, ch)
  {
    var val := Word32(ch, ch, ch, ch);
    var i := 0;
    while i < PAGE / 4
      invariant 0 <= i <= PAGE / 4
      invariant forall k :: 0 <= k < 4 * i ==> page[k] == ch
    {
      var word := Word32(page[4 * i], page[4 * i + 1], page[4 * i + 2], page[4 * i + 3]);
      WordOfOneByte(page[4 * i], page[4 * i + 1], page[4 * i + 2], page[4 * i + 3], ch);
      if word != val {
        return false;
      }
      i := i + 1;
    }
    return true;
  }

  class RamSaver {
    var blocks: seq<RamBlock>
    var mem: Memory
    var dirty: set<nat>
    var log: set<nat>
    var last: Option<nat>
    var lastPage: nat
    var file: seq<byte>

    ghost function State(): Sender
      reads this
    {
      Sender(blocks, mem, dirty, log, last, lastPage)
    }

    /** The do-while scan of ram_save_block. */
    method Scan() returns (found: bool, block: nat, page: nat)
      requires ValidSender(State())
      ensures Valid(blocks, Pos(block, page))
      ensures found ==> FirstDirty(State(), Pos(block, page))
      ensures !found ==> NoneDirty(State()) && last == Some(block) && lastPage == page
    {
      hide TotalPages, Shape, Layout;
      ghost var start := StartPos(State());
      ghost var k: nat := 0;
      block := if last.Some? then last.value else 0;
      page := lastPage;
      RankInRange(blocks, start);
      while true
        invariant k < TotalPages(blocks) && Valid(blocks, Pos(block, page))
        invariant Pos(block, page) == Walk(blocks, start, k)
        invariant last.None? ==> k == 0
        invariant forall j: nat :: j < k ==> !Dirty(State(), Walk(blocks, start, j))
        decreases TotalPages(blocks) - k
      {
        if blocks[block].page + page in dirty {
          assert FirstDirtyAt(State(), k);
          return true, block, page;
        }
        page := page + 1;
        if page >= blocks[block].pages {
          page := 0;
          block := block + 1;
          if block == |blocks| {
            block := 0;
          }
        }
        k := k + 1;
        assert Pos(block, page) == Next(blocks, Walk(blocks, start, k - 1));
        WalkReturns(blocks, start, k);
        if blocks[block].page + page == blocks[last.value].page + lastPage {
          AddrInjective(blocks, Pos(block, page), start);
          TurnCoversAll(State());
          return false, block, page;
        }
      }
    }

    /** ram_save_block: bytesSent is 0 exactly when no page is dirty; otherwise
        the first dirty page in cyclic order has been put and its flag cleared. */
    method SaveBlock() returns (bytesSent: nat, ghost sent: Pos)
      requires ValidSender(State())
      modifies this`dirty, this`last, this`lastPage, this`file
      ensures bytesSent == 0 <==> NoneDirty(old(State()))
      ensures bytesSent == 0 ==> State() == old(State()) && file == old(file)
      ensures bytesSent != 0 ==> FirstDirty(old(State()), sent)
      ensures bytesSent != 0 ==> State() == Sent(old(State()), sent)
      ensures bytesSent != 0 ==> file == old(file) + Encode(PageItem(old(State()), sent))
    {
      hide Encode, Layout, Shape, Squeeze, Walk;
      var found, block, page := Scan();
      sent := Pos(block, page);
      bytesSent := 0;
      if found {
        assert Dirty(State(), sent);
        bytesSent := PutPage(block, page);
      }
      last := Some(block);
      lastPage := page;
    }

    /** The part of ram_save_block that handles the dirty page it has found. */
    method PutPage(block: nat, page: nat) returns (bytesSent: nat)
      requires ValidSender(State()) && Valid(blocks, Pos(block, page))
      modifies this`dirty, this`file
      ensures dirty == old(dirty) - {Addr(blocks, Pos(block, page))}
      ensures file == old(file) + Encode(PageItem(old(State()), Pos(block, page)))
      ensures bytesSent > 0
    {
      ghost var s, f := State(), file;
      hide Put64, Or, AllEqual;
      var cont := last == Some(block);
      dirty := dirty - {blocks[block].page + page};
      var id := blocks[block].id;
      var p: Page := mem[id][page];
      var dup := IsDupPage(p, p[0]);
      ghost var body := Squeeze(p);
      assert body == if dup then Dup(p[0]) else Full(p);
      if dup {
        file := file + Put64(Or(Or(page * PAGE, if cont then FLAG_CONTINUE else 0), FLAG_COMPRESS));
        PutName(cont, id);
        file := file + [p[0]];
        bytesSent := 1;
      } else {
        file := file + Put64(Or(Or(page * PAGE, if cont then FLAG_CONTINUE else 0), FLAG_PAGE));
        PutName(cont, id);
        file := file + p;
        bytesSent := PAGE;
      }
      ghost var name := if cont then [] else EncodeId(id);
      Puts(f, Put64(PageWord(page, cont, body)), name, EncodeBody(body));
    }

    /** A block's name goes in front of the page unless the page continues it. */
    method PutName(cont: bool, id: Id)
      modifies this`file
      ensures file == old(file) + (if cont then [] else EncodeId(id))
    {
      if !cont {
        file := file + [|id|];
        file := file + id;
        assert file == old(file) + EncodeId(id);
      }
    }
  }

  lemma Puts(f: seq<byte>, a: seq<byte>, b: seq<byte>, c: seq<byte>)
    ensures f + a + b + c == f + (a + (b + c))
  {
  }
}
