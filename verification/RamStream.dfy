/**
 The RAM migration stream: what ram_save_live and ram_save_block put into the
 file, and ram_load reading it back (stream version 4).
 */
module RamStream {
  import opened Wire

  const PAGE := 4096

  const FLAG_COMPRESS := 0x02
  const FLAG_MEM_SIZE := 0x04
  const FLAG_PAGE := 0x08
  const FLAG_EOS := 0x10
  const FLAG_CONTINUE := 0x20

  /** idstr without its terminating zero; its length travels in one byte. */
  type Id = s: seq<byte> | |s| < 256

  type Page = s: seq<byte> | |s| == PAGE witness seq(PAGE, i => 0)

  /** A RAM block: its first page in ram_addr_t space, and its number of pages.
      In bytes it starts at page * PAGE and is pages * PAGE long. */
  datatype RamBlock = RamBlock(id: Id, page: nat, pages: nat)

  /** Guest memory: the pages of every block, by block name. */
  type Memory = map<Id, seq<Page>>

  datatype Body = Dup(ch: byte) | Full(page: Page)

  /** One thing the sender puts: the block list, or one page of one block. */
  datatype Item =
    | BlockList(blocks: seq<RamBlock>)
    | PageOf(id: Id, page: nat, continued: bool, body: Body)

  function TotalPages(blocks: seq<RamBlock>): nat {
    if blocks == [] then 0 else blocks[0].pages + TotalPages(blocks[1..])
  }

  /** The number of pages a 64-bit byte count can express. */
  const MAX_PAGES := 0x10_0000_0000_0000

  /** What the sender guarantees about an item: its byte counts fit 64 bits. */
  predicate WellFormed(it: Item) {
    match it
    case BlockList(blocks) =>
      (forall b <- blocks :: 0 < b.pages) && TotalPages(blocks) < MAX_PAGES
    case PageOf(_, page, _, _) => page < MAX_PAGES
  }

  // ---- encoding ---------------------------------------------------------

  function EncodeId(id: Id): seq<byte> {
    [|id|] + id
  }

  function EncodeBlocks(blocks: seq<RamBlock>): seq<byte> {
    if blocks == [] then []
    else EncodeId(blocks[0].id) + (Put64(blocks[0].pages * PAGE) + EncodeBlocks(blocks[1..]))
  }

  function BodyFlag(body: Body): nat {
    if body.Dup? then FLAG_COMPRESS else FLAG_PAGE
  }

  function EncodeBody(body: Body): seq<byte> {
    match body
    case Dup(ch) => [ch]
    case Full(page) => page
  }

  /** offset | cont | flag, the word ram_save_block puts in front of a page. */
  function PageWord(page: nat, continued: bool, body: Body): nat {
    Or(Or(page * PAGE, if continued then FLAG_CONTINUE else 0), BodyFlag(body))
  }

  function Encode(it: Item): seq<byte> {
    match it
    case BlockList(blocks) =>
      Put64(Or(TotalPages(blocks) * PAGE, FLAG_MEM_SIZE)) + EncodeBlocks(blocks)
    case PageOf(id, page, continued, body) =>
      Put64(PageWord(page, continued, body)) +
      ((if continued then [] else EncodeId(id)) + EncodeBody(body))
  }

  /** One section: the items one call of ram_save_live puts, then the end mark. */
  function EncodeSection(items: seq<Item>): seq<byte> {
    EncodeItems(items) + Put64(FLAG_EOS)
  }

  function EncodeItems(items: seq<Item>): seq<byte> {
    if items == [] then [] else EncodeItems(items[..|items| - 1]) + Encode(items[|items| - 1])
  }

  // ---- ram_load ---------------------------------------------------------

  datatype Error = Einval | Eio | Fault

  /** The receiver: its memory and host_from_stream_offset's static block. */
  datatype Receiver = Receiver(mem: Memory, block: Option<Id>)

  datatype Outcome<+T> = Ok(value: T, rest: seq<byte>) | Failed(error: Error)

  function GetId(f: seq<byte>): (r: Reader<Id>)
    ensures r.Some? ==> |r.value.1| < |f|
  {
    match GetByte(f)
    case None => None
    case Some((len, f1)) => (
      match GetBuffer(f1, len)
      case None => None
      case Some((id, f2)) => Some((id, f2)))
  }

  /** Subtraction of unsigned 64-bit words, which wraps around. */
  function Sub64(a: nat, b: nat): (d: nat)
    ensures b <= a ==> d == a - b
  {
    if b <= a then a - b else (a - b) % TWO_64
  }

  /** The loop that checks the sender's block list against the receiver's:
      it runs until the announced total has been used up. */
  function SyncBlocks(f: seq<byte>, total: nat, mem: Memory): (r: Outcome<()>)
    ensures r.Ok? ==> |r.rest| <= |f|
    decreases |f|
  {
    if total == 0 then Ok((), f)
    else
      match GetId(f)
      case None => Failed(Eio)
      case Some((id, f1)) => (
        match Get64(f1)
        case None => Failed(Eio)
        case Some((length, f2)) =>
          if id !in mem || |mem[id]| * PAGE != length then Failed(Einval)
          else SyncBlocks(f2, Sub64(total, length), mem))
  }

  /** host_from_stream_offset: the block an offset refers to. */
  function HostBlock(f: seq<byte>, flags: nat, r: Receiver): (o: Outcome<Id>)
    ensures o.Ok? ==> |o.rest| <= |f| && o.value in r.mem
  {
    if Has(flags, FLAG_CONTINUE) then
      if r.block.Some? && r.block.value in r.mem then Ok(r.block.value, f) else Failed(Einval)
    else
      match GetId(f)
      case None => Failed(Eio)
      case Some((id, f1)) => if id in r.mem then Ok(id, f1) else Failed(Einval)
  }

  /** Storing through host + offset; ram_load does not check that the offset lies in the block. */
  function StorePage(r: Receiver, id: Id, at: nat, page: Page): (o: Option<Receiver>)
    requires id in r.mem
    ensures o.Some? <==> at < |r.mem[id]|
    ensures o.Some? ==> o.value.block == Some(id) && o.value.mem.Keys == r.mem.Keys
    ensures o.Some? ==> o.value.mem[id] == r.mem[id][at := page]
    ensures o.Some? ==> forall j <- r.mem :: j != id ==> o.value.mem[j] == r.mem[j]
  {
    if at < |r.mem[id]| then
      var pages: seq<Page> := r.mem[id][at := page];
      Some(Receiver(r.mem[id := pages], Some(id)))
    else None
  }

  function Filled(ch: byte): Page {
    seq(PAGE, i => ch)
  }

  function LoadBody(f: seq<byte>, at: nat, flags: nat, r: Receiver): (o: Outcome<Receiver>)
    ensures o.Ok? ==> |o.rest| <= |f|
  {
    if !Has(flags, FLAG_COMPRESS) && !Has(flags, FLAG_PAGE) then Ok(r, f)
    else
      match HostBlock(f, flags, r)
      case Failed(e) => Failed(if Has(flags, FLAG_COMPRESS) then e else Fault)
      case Ok(id, f1) =>
        if Has(flags, FLAG_COMPRESS) then
          match GetByte(f1)
          case None => Failed(Eio)
          case Some((ch, f2)) => (
            match StorePage(r, id, at, Filled(ch))
            case None => Failed(Fault)
            case Some(r') => Ok(r', f2))
        else
          match GetBuffer(f1, PAGE)
          case None => Failed(Eio)
          case Some((page, f2)) => (
            match StorePage(r, id, at, page)
            case None => Failed(Fault)
            case Some(r') => Ok(r', f2))
  }

  /** One turn of ram_load's loop: the word read, and what its flags ask for. */
  function LoadOne(f: seq<byte>, r: Receiver): (o: Outcome<(nat, Receiver)>)
    ensures o.Ok? ==> |o.rest| < |f|
  {
    match Get64(f)
    case None => Failed(Eio)
    case Some((word, f1)) =>
      var flags := word % PAGE;
      match (if Has(flags, FLAG_MEM_SIZE) then SyncBlocks(f1, word - flags, r.mem) else Ok((), f1))
      case Failed(e) => Failed(e)
      case Ok(_, f2) => (
        match LoadBody(f2, word / PAGE, flags, r)
        case Failed(e) => Failed(e)
        case Ok(r', f3) => Ok((flags, r'), f3))
  }

  /** ram_load: until a word with the end mark. */
  function Load(f: seq<byte>, r: Receiver): Outcome<Receiver>
    decreases |f|
  {
    match LoadOne(f, r)
    case Failed(e) => Failed(e)
    case Ok((flags, r'), rest) => if Has(flags, FLAG_EOS) then Ok(r', rest) else Load(rest, r')
  }

  // ---- the meaning of items, and the round trip --------------------------

  predicate Accepts(mem: Memory, blocks: seq<RamBlock>) {
    forall b <- blocks :: b.id in mem && |mem[b.id]| == b.pages
  }

  function BodyPage(body: Body): Page {
    match body
    case Dup(ch) => Filled(ch)
    case Full(page) => page
  }

  /** What an item does to a receiver, without bytes. A continued page goes to
      the block the receiver remembers, whatever block the sender meant. */
  function Replay(r: Receiver, it: Item): Option<Receiver> {
    match it
    case BlockList(blocks) => if Accepts(r.mem, blocks) then Some(r) else None
    case PageOf(id, page, continued, body) =>
      var target := if continued then r.block else Some(id);
      if target.Some? && target.value in r.mem
      then StorePage(r, target.value, page, BodyPage(body)) else None
  }

  function ReplayAll(r: Receiver, items: seq<Item>): Option<Receiver>
    decreases |items|
  {
    if items == [] then Some(r)
    else
      match Replay(r, items[0])
      case None => None
      case Some(r') => ReplayAll(r', items[1..])
  }

  lemma {:induction false} ReplayAppend(r: Receiver, a: seq<Item>, b: seq<Item>)
    requires ReplayAll(r, a).Some?
    ensures ReplayAll(r, a + b) == ReplayAll(ReplayAll(r, a).value, b)
    decreases |a|
  {
    hide Replay;
    if a == [] {
      assert a + b == b;
    } else {
      assert (a + b)[1..] == a[1..] + b;
      ReplayAppend(Replay(r, a[0]).value, a[1..], b);
    }
  }

  lemma {:induction false} ReplayPrefix(r: Receiver, a: seq<Item>, b: seq<Item>)
    requires ReplayAll(r, a + b).Some?
    ensures ReplayAll(r, a).Some?
    decreases |a|
  {
    hide Replay;
    if a != [] {
      assert (a + b)[1..] == a[1..] + b;
      ReplayPrefix(Replay(r, a[0]).value, a[1..], b);
    }
  }

  lemma ReplayNothing(r: Receiver)
    ensures ReplayAll(r, []) == Some(r)
  {
  }

  lemma ReplayOne(r: Receiver, it: Item)
    requires Replay(r, it).Some?
    ensures ReplayAll(r, [it]) == Replay(r, it)
  {
    hide Replay;
    ReplayNothing(Replay(r, it).value);
  }

  lemma GetIdPut(id: Id, rest: seq<byte>)
    ensures GetId(EncodeId(id) + rest) == Some((id, rest))
  {
    var f := EncodeId(id) + rest;
    assert f[0] == |id| && f[1..] == id + rest;
    GetBufferPut(id, rest);
  }

  lemma SyncBlocksStep(b: RamBlock, tail: seq<byte>, total: nat, mem: Memory)
    requires 0 < b.pages < MAX_PAGES && b.id in mem && |mem[b.id]| == b.pages && total != 0
    ensures SyncBlocks(EncodeId(b.id) + (Put64(b.pages * PAGE) + tail), total, mem)
         == SyncBlocks(tail, Sub64(total, b.pages * PAGE), mem)
  {
    GetIdPut(b.id, Put64(b.pages * PAGE) + tail);
    Get64Put64(b.pages * PAGE, tail);
  }

  lemma SyncNothing(f: seq<byte>, mem: Memory)
    ensures SyncBlocks(f, 0, mem) == Ok((), f)
  {
  }

  /** The rest of a list, and what is left of its total behind the first block. */
  lemma ListRest(blocks: seq<RamBlock>)
    requires blocks != [] && WellFormed(BlockList(blocks))
    ensures WellFormed(BlockList(blocks[1..])) && 0 < blocks[0].pages < MAX_PAGES && TotalPages(blocks) * PAGE != 0
    ensures Sub64(TotalPages(blocks) * PAGE, blocks[0].pages * PAGE) == TotalPages(blocks[1..]) * PAGE
  {
    assert blocks[0] in blocks;
    assert forall c <- blocks[1..] :: c in blocks;
  }

  /** The block-list loop ends exactly when the announced total reaches zero,
      having read exactly the list. */
  lemma {:induction false} SyncBlocksReadsList(blocks: seq<RamBlock>, rest: seq<byte>, mem: Memory)
    requires WellFormed(BlockList(blocks)) && Accepts(mem, blocks)
    ensures SyncBlocks(EncodeBlocks(blocks) + rest, TotalPages(blocks) * PAGE, mem) == Ok((), rest)
    decreases |blocks|
  {
    hide Put64, EncodeId, SyncBlocks, Sub64, WellFormed;
    if blocks == [] {
      assert EncodeBlocks(blocks) + rest == rest;
      SyncNothing(rest, mem);
    } else {
      var b, list := blocks[0], EncodeBlocks(blocks[1..]);
      ListRest(blocks);
      assert forall c <- blocks[1..] :: c in blocks;
      SyncBlocksReadsList(blocks[1..], rest, mem);
      Assoc(EncodeId(b.id), Put64(b.pages * PAGE) + list, rest);
      Assoc(Put64(b.pages * PAGE), list, rest);
      SyncBlocksStep(b, list + rest, TotalPages(blocks) * PAGE, mem);
    }
  }

  /** A page address with flags below the page size decodes uniquely. */
  lemma PackedWord(page: nat, flags: nat)
    requires flags < PAGE
    ensures Or(page * PAGE, flags) == page * PAGE + flags
    ensures (page * PAGE + flags) % PAGE == flags && (page * PAGE + flags) / PAGE == page
  {
    assert Pow2(12) == PAGE by {
      assert Pow2(6) == 64;
      assert Pow2(12) == 64 * Pow2(6);
    }
    OrDisjoint(page, flags, 12);
  }

  function PageFlags(continued: bool, body: Body): nat {
    (if continued then FLAG_CONTINUE else 0) + BodyFlag(body)
  }

  lemma PageWordValue(page: nat, continued: bool, body: Body)
    ensures PageWord(page, continued, body) == page * PAGE + PageFlags(continued, body)
  {
    var cont := if continued then FLAG_CONTINUE else 0;
    PackedWord(page, cont);
    // page * PAGE + cont is a multiple of 32, and the body flag is below 32
    var q := page * 128 + (if continued then 1 else 0);
    assert Pow2(5) == 32;
    OrDisjoint(q, BodyFlag(body), 5);
    assert page * PAGE + cont == q * 32;
  }

  /** LoadBody on a page item's bytes, once its word has been taken apart. */
  lemma LoadBodyPage(it: Item, rest: seq<byte>, r: Receiver)
    requires it.PageOf? && Replay(r, it).Some?
    ensures LoadBody((if it.continued then [] else EncodeId(it.id)) + (EncodeBody(it.body) + rest),
                     it.page, PageFlags(it.continued, it.body), r)
         == Ok(Replay(r, it).value, rest)
  {
    hide EncodeId, GetId;
    var body := EncodeBody(it.body);
    if it.continued {
      assert [] + (body + rest) == body + rest;
    } else {
      GetIdPut(it.id, body + rest);
    }
    GetBufferPut(body, rest);
  }

  lemma LoadOnePage(it: Item, rest: seq<byte>, r: Receiver)
    requires it.PageOf? && WellFormed(it) && Replay(r, it).Some?
    ensures LoadOne(Encode(it) + rest, r)
         == Ok((PageFlags(it.continued, it.body), Replay(r, it).value), rest)
  {
    hide Put64, Get64, EncodeId, LoadBody, PageWord, Replay;
    var name, body := if it.continued then [] else EncodeId(it.id), EncodeBody(it.body);
    var word, flags := PageWord(it.page, it.continued, it.body), PageFlags(it.continued, it.body);
    PageWordValue(it.page, it.continued, it.body);
    PackedWord(it.page, flags);
    Assoc(Put64(word), name + body, rest);
    Assoc(name, body, rest);
    Get64Put64(word, name + (body + rest));
    LoadBodyPage(it, rest, r);
  }

  lemma LoadOneBlockList(it: Item, rest: seq<byte>, r: Receiver)
    requires it.BlockList? && WellFormed(it) && Replay(r, it).Some?
    ensures LoadOne(Encode(it) + rest, r) == Ok((FLAG_MEM_SIZE, Replay(r, it).value), rest)
  {
    hide Put64, Get64, Or, SyncBlocks;
    var total := TotalPages(it.blocks);
    PackedWord(total, FLAG_MEM_SIZE);
    var word := Or(total * PAGE, FLAG_MEM_SIZE);
    Assoc(Put64(word), EncodeBlocks(it.blocks), rest);
    Get64Put64(word, EncodeBlocks(it.blocks) + rest);
    SyncBlocksReadsList(it.blocks, rest, r.mem);
  }

  lemma LoadEndMark(rest: seq<byte>, r: Receiver)
    ensures Load(Put64(FLAG_EOS) + rest, r) == Ok(r, rest)
  {
    hide Put64, Get64, SyncBlocks, LoadBody;
    Get64Put64(FLAG_EOS, rest);
    assert LoadBody(rest, 0, FLAG_EOS, r) == Ok(r, rest) by { NoBody(rest, r); }
  }

  lemma NoBody(rest: seq<byte>, r: Receiver)
    ensures LoadBody(rest, 0, FLAG_EOS, r) == Ok(r, rest)
  {
  }

  lemma LoadStep(it: Item, tail: seq<byte>, r: Receiver)
    requires WellFormed(it) && Replay(r, it).Some?
    ensures Load(Encode(it) + tail, r) == Load(tail, Replay(r, it).value)
  {
    hide Encode, Replay, LoadOne;
    if it.PageOf? { LoadOnePage(it, tail, r); } else { LoadOneBlockList(it, tail, r); }
  }

  lemma {:induction false} LoadReadsItems(items: seq<Item>, tail: seq<byte>, r: Receiver)
    requires forall it <- items :: WellFormed(it)
    requires ReplayAll(r, items).Some?
    ensures Load(EncodeItems(items) + tail, r) == Load(tail, ReplayAll(r, items).value)
    decreases |items|
  {
    hide Load, Encode, Replay, WellFormed;
    if items == [] {
      assert [] + tail == tail;
    } else {
      var n := |items| - 1;
      var init, it := items[..n], items[n];
      assert items == init + [it];
      ReplayPrefix(r, init, [it]);
      ReplayAppend(r, init, [it]);
      Assoc(EncodeItems(init), Encode(it), tail);
      LoadReadsItems(init, Encode(it) + tail, r);
      LoadStep(it, tail, ReplayAll(r, init).value);
      ReplayOne(ReplayAll(r, init).value, it);
    }
  }

  /** Round trip: reading a section the sender put does to the receiver exactly
      what the items mean, and stops right behind the end mark. */
  lemma LoadReadsSection(items: seq<Item>, rest: seq<byte>, r: Receiver)
    requires forall it <- items :: WellFormed(it)
    requires ReplayAll(r, items).Some?
    ensures Load(EncodeSection(items) + rest, r) == Ok(ReplayAll(r, items).value, rest)
  {
    hide Load, WellFormed, EncodeItems, ReplayAll;
    Assoc(EncodeItems(items), Put64(FLAG_EOS), rest);
    LoadReadsItems(items, Put64(FLAG_EOS) + rest, r);
    LoadEndMark(rest, ReplayAll(r, items).value);
  }

  // ---- what the receiver refuses ----------------------------------------------

  /** A list with a block the receiver does not have, or has in another size. */
  lemma {:induction false} SyncBlocksRefuses(blocks: seq<RamBlock>, rest: seq<byte>, mem: Memory)
    requires WellFormed(BlockList(blocks)) && !Accepts(mem, blocks)
    ensures SyncBlocks(EncodeBlocks(blocks) + rest, TotalPages(blocks) * PAGE, mem) == Failed(Einval)
    decreases |blocks|
  {
    hide Put64, EncodeId, SyncBlocks, Sub64, WellFormed;
    var b, list := blocks[0], EncodeBlocks(blocks[1..]);
    ListRest(blocks);
    Assoc(EncodeId(b.id), Put64(b.pages * PAGE) + list, rest);
    Assoc(Put64(b.pages * PAGE), list, rest);
    if b.id in mem && |mem[b.id]| == b.pages {
      SyncBlocksStep(b, list + rest, TotalPages(blocks) * PAGE, mem);
      SyncBlocksRefuses(blocks[1..], rest, mem);
    } else {
      SyncBlocksBad(b, list + rest, TotalPages(blocks) * PAGE, mem);
    }
  }

  lemma SyncBlocksBad(b: RamBlock, tail: seq<byte>, total: nat, mem: Memory)
    requires 0 < b.pages < MAX_PAGES && !(b.id in mem && |mem[b.id]| == b.pages) && total != 0
    ensures SyncBlocks(EncodeId(b.id) + (Put64(b.pages * PAGE) + tail), total, mem) == Failed(Einval)
  {
    GetIdPut(b.id, Put64(b.pages * PAGE) + tail);
    Get64Put64(b.pages * PAGE, tail);
  }

  /** What ram_load returns for an item that means nothing to the receiver. Only a
      compressed page is checked for its block; the rest is undefined in C. */
  function Refusal(r: Receiver, it: Item): Error {
    match it
    case BlockList(_) => Einval
    case PageOf(id, _, continued, body) =>
      var target := if continued then r.block else Some(id);
      if body.Dup? && !(target.Some? && target.value in r.mem) then Einval else Fault
  }

  lemma LoadBodyRefuses(it: Item, rest: seq<byte>, r: Receiver)
    requires it.PageOf? && Replay(r, it).None?
    ensures LoadBody((if it.continued then [] else EncodeId(it.id)) + (EncodeBody(it.body) + rest),
                     it.page, PageFlags(it.continued, it.body), r)
         == Failed(Refusal(r, it))
  {
    hide EncodeId, GetId;
    var body := EncodeBody(it.body);
    if it.continued {
      assert [] + (body + rest) == body + rest;
    } else {
      GetIdPut(it.id, body + rest);
    }
    GetBufferPut(body, rest);
  }

  lemma LoadOneRefusesPage(it: Item, rest: seq<byte>, r: Receiver)
    requires it.PageOf? && WellFormed(it) && Replay(r, it).None?
    ensures LoadOne(Encode(it) + rest, r) == Failed(Refusal(r, it))
  {
    hide Put64, Get64, EncodeId, LoadBody, PageWord, Replay, Refusal;
    var name, body := if it.continued then [] else EncodeId(it.id), EncodeBody(it.body);
    var word, flags := PageWord(it.page, it.continued, it.body), PageFlags(it.continued, it.body);
    PageWordValue(it.page, it.continued, it.body);
    PackedWord(it.page, flags);
    Assoc(Put64(word), name + body, rest);
    Assoc(name, body, rest);
    Get64Put64(word, name + (body + rest));
    LoadBodyRefuses(it, rest, r);
  }

  lemma LoadOneRefusesList(it: Item, rest: seq<byte>, r: Receiver)
    requires it.BlockList? && WellFormed(it) && Replay(r, it).None?
    ensures LoadOne(Encode(it) + rest, r) == Failed(Einval)
  {
    hide Put64, Get64, Or, SyncBlocks, LoadBody;
    var total := TotalPages(it.blocks);
    PackedWord(total, FLAG_MEM_SIZE);
    var word := Or(total * PAGE, FLAG_MEM_SIZE);
    Assoc(Put64(word), EncodeBlocks(it.blocks), rest);
    Get64Put64(word, EncodeBlocks(it.blocks) + rest);
    SyncBlocksRefuses(it.blocks, rest, r.mem);
  }

  /** Behind items it can replay, the first one it cannot ends the load with that
      item's error: an unknown block or a wrong length is -EINVAL. */
  lemma LoadRefuses(items: seq<Item>, it: Item, rest: seq<byte>, r: Receiver)
    requires (forall x <- items :: WellFormed(x)) && WellFormed(it)
    requires ReplayAll(r, items).Some? && Replay(ReplayAll(r, items).value, it).None?
    ensures Load(EncodeItems(items) + (Encode(it) + rest), r) == Failed(Refusal(ReplayAll(r, items).value, it))
  {
    hide LoadOne, Encode, EncodeItems, Replay, ReplayAll, WellFormed;
    var r' := ReplayAll(r, items).value;
    LoadReadsItems(items, Encode(it) + rest, r);
    if it.PageOf? {
      LoadOneRefusesPage(it, rest, r');
    } else {
      LoadOneRefusesList(it, rest, r');
    }
  }

  /** The records byte by byte: a big-endian word of address and flags, the name
      with its length in front unless it is the block of the record before, the data. */
  lemma RecordBytes(id: Id, page: nat, continued: bool, body: Body)
    ensures var flags := (if continued then 0x20 else 0) + (if body.Dup? then 0x02 else 0x08);
            var name := if continued then [] else [|id|] + id;
            var data := if body.Dup? then [body.ch] else body.page;
            Encode(PageOf(id, page, continued, body)) == Put64(4096 * page + flags) + (name + data)
  {
    hide Put64, PageWord;
    PageWordValue(page, continued, body);
  }

  /** A list of one block: its size with the flag of a list, its name and its size. */
  lemma ListBytes(id: Id, first: nat, pages: nat)
    ensures Encode(BlockList([RamBlock(id, first, pages)])) ==
            Put64(4096 * pages + 0x04) + ([|id|] + id + Put64(4096 * pages))
  {
    hide Put64, Or;
    PackedWord(pages, FLAG_MEM_SIZE);
    var blocks := [RamBlock(id, first, pages)];
    assert blocks[1..] == [] && TotalPages([]) == 0;
    assert TotalPages(blocks) == pages;
    assert EncodeBlocks(blocks) == [|id|] + id + Put64(4096 * pages);
  }

  /** The end mark. */
  lemma EndBytes()
    ensures EncodeSection([]) == Put64(0x10)
  {
    hide Put64;
    assert EncodeItems([]) + Put64(0x10) == Put64(0x10);
  }

  class RamLoader {
    var mem: Memory
    var block: Option<Id>

    ghost function State(): Receiver
      reads this
    {
      Receiver(mem, block)
    }

    /** ram_load: the do-while loop over the words of the stream. */
    method RamLoad(file: seq<byte>) returns (error: Option<Error>, rest: seq<byte>)
      modifies this
      ensures match Load(file, old(State()))
              case Ok(r, tail) => error == None && State() == r && rest == tail
              case Failed(e) => error == Some(e)
    {
      hide LoadOne;
      rest := file;
      while true
        invariant Load(rest, State()) == Load(file, old(State()))
        decreases |rest|
      {
        match LoadOne(rest, Receiver(mem, block)) {
          case Failed(e) =>
            return Some(e), rest;
          case Ok((flags, r), f) =>
            mem, block, rest := r.mem, r.block, f;
            if Has(flags, FLAG_EOS) {
              return None, rest;
            }
        }
      }
    }
  }

  /** The block-list loop of ram_load. */
  method SyncBlockList(file: seq<byte>, announced: nat, mem: Memory) returns (o: Outcome<()>)
    ensures o == SyncBlocks(file, announced, mem)
  {
    hide GetId, Get64;
    var f, total := file, announced;
    while total != 0
      invariant SyncBlocks(f, total, mem) == SyncBlocks(file, announced, mem)
      decreases |f|
    {
      match GetId(f) {
        case None => return Failed(Eio);
        case Some((id, f1)) =>
          match Get64(f1) {
            case None => return Failed(Eio);
            case Some((length, f2)) =>
              if id !in mem || |mem[id]| * PAGE != length {
                return Failed(Einval);
              }
              total, f := Sub64(total, length), f2;
          }
      }
    }
    return Ok((), f);
  }
}
