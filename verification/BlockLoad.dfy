/**
 The receiving side of block migration: block_load, sector by sector, and what
 the convergence of BlockMigration means for the device images themselves.
 */
module BlockLoad {
  import opened Wire
  import opened BlockMigration

  /** BDRV_SECTORS_PER_DIRTY_CHUNK */
  const CHUNK := 2048

  type Sector = seq<byte>
  type Name = seq<byte>

  /** The devices of one side, by name. */
  type Images = map<Name, seq<Sector>>

  /** One message of the stream; a block always carries CHUNK sectors. */
  datatype Msg = Block(name: Name, sector: nat, buf: seq<Sector>) | Progress(percent: nat) | Eos

  datatype LoadError = Einval | Eio

  datatype Turn = Next(images: Images) | Stop(error: LoadError)

  datatype LoadResult = Ok(images: Images, rest: seq<Msg>) | Failed(error: LoadError)

  function Splice(image: seq<Sector>, at: nat, data: seq<Sector>): (r: seq<Sector>)
    requires at + |data| <= |image|
    ensures |r| == |image|
    ensures forall i :: 0 <= i < |r| ==> r[i] == if at <= i < at + |data| then data[i - at] else image[i]
  {
    image[..at] + data + image[at + |data|..]
  }

  /** One turn of block_load's loop. */
  function LoadMsg(images: Images, msg: Msg): Turn {
    match msg
    case Eos => Next(images)
    case Progress(_) => Next(images)
    case Block(name, sector, buf) =>
      if name !in images || images[name] == [] then Stop(Einval)
      else
        var total := |images[name]|;
        var nr := if total - sector < CHUNK then total - sector else CHUNK;
        if nr < 0 || nr > |buf| then Stop(Eio)
        else Next(images[name := Splice(images[name], sector, buf[..nr])])
  }

  /** block_load: until the end mark; an unfinished stream is an error. */
  function Load(images: Images, msgs: seq<Msg>): LoadResult
    decreases |msgs|
  {
    if msgs == [] then Failed(Eio)
    else
      match LoadMsg(images, msgs[0])
      case Stop(e) => Failed(e)
      case Next(images') => if msgs[0].Eos? then Ok(images', msgs[1..]) else Load(images', msgs[1..])
  }

  method BlockLoad(images0: Images, msgs: seq<Msg>) returns (r: LoadResult)
    ensures r == Load(images0, msgs)
  {
    hide LoadMsg;
    var images, rest := images0, msgs;
    while rest != []
      invariant Load(images, rest) == Load(images0, msgs)
      decreases |rest|
    {
      match LoadMsg(images, rest[0]) {
        case Stop(e) => return Failed(e);
        case Next(images') =>
          if rest[0].Eos? {
            return Ok(images', rest[1..]);
          }
          images, rest := images', rest[1..];
      }
    }
    return Failed(Eio);
  }

  // ---- what is written, and what stops the load -------------------------------------

  predicate Known(images: Images, name: Name) {
    name in images && images[name] != []
  }

  /** The sectors of a block that exist: all of a chunk, or those up to the end of
      the device; none if the place lies behind the end. */
  function Existing(total: nat, sector: nat): nat {
    if sector >= total then 0 else if total - sector < CHUNK then total - sector else CHUNK
  }

  /** The place lies in the device or at its end, and the buffer holds the sectors that exist. */
  predicate Placed(image: seq<Sector>, sector: nat, buf: seq<Sector>) {
    sector <= |image| && Existing(|image|, sector) <= |buf|
  }

  /** A message without a block changes nothing; a block for an unknown or empty
      device stops the load with -EINVAL, one behind the end of its device with
      -EIO; any other replaces exactly the sectors that exist. */
  lemma MsgExactly(images: Images, msg: Msg)
    ensures !msg.Block? ==> LoadMsg(images, msg) == Next(images)
    ensures msg.Block? && !Known(images, msg.name) ==> LoadMsg(images, msg) == Stop(Einval)
    ensures msg.Block? && Known(images, msg.name) && !Placed(images[msg.name], msg.sector, msg.buf) ==>
              LoadMsg(images, msg) == Stop(Eio)
    ensures msg.Block? && Known(images, msg.name) && Placed(images[msg.name], msg.sector, msg.buf) ==>
              var r, image, at := LoadMsg(images, msg), images[msg.name], msg.sector;
              var n := Existing(|image|, at);
              && r.Next? && r.images.Keys == images.Keys
              && (forall name <- images :: name != msg.name ==> r.images[name] == images[name])
              && |r.images[msg.name]| == |image|
              && (forall i :: 0 <= i < |image| ==>
                    r.images[msg.name][i] == if at <= i < at + n then msg.buf[i - at] else image[i])
  {
  }

  /** The images after these messages, if none stops the load. */
  function After(images: Images, msgs: seq<Msg>): Option<Images>
    decreases |msgs|
  {
    if msgs == [] then Some(images)
    else
      match LoadMsg(images, msgs[0])
      case Stop(_) => None
      case Next(images') => After(images', msgs[1..])
  }

  lemma {:induction false} LoadGoesOn(images: Images, before: seq<Msg>, rest: seq<Msg>)
    requires (forall m <- before :: !m.Eos?) && After(images, before).Some?
    ensures Load(images, before + rest) == Load(After(images, before).value, rest)
    decreases |before|
  {
    hide LoadMsg;
    if before == [] {
      assert before + rest == rest;
    } else {
      assert (before + rest)[1..] == before[1..] + rest;
      LoadGoesOn(LoadMsg(images, before[0]).images, before[1..], rest);
    }
  }

  /** Behind messages that load, the first block for an unknown device ends the load
      with -EINVAL, and the first end mark ends it well. */
  lemma LoadStopsExactly(images: Images, before: seq<Msg>, msg: Msg, rest: seq<Msg>)
    requires (forall m <- before :: !m.Eos?) && After(images, before).Some?
    ensures var r, now := Load(images, before + ([msg] + rest)), After(images, before).value;
            && (msg.Block? && !Known(now, msg.name) ==> r == Failed(Einval))
            && (msg.Block? && Known(now, msg.name) && msg.sector > |now[msg.name]| ==> r == Failed(Eio))
            && (msg.Eos? ==> r == Ok(now, rest))
    ensures Load(images, before) == Failed(Eio)
  {
    hide LoadMsg;
    var now := After(images, before).value;
    LoadGoesOn(images, before, [msg] + rest);
    LoadGoesOn(images, before, []);
    assert before + [] == before;
    assert ([msg] + rest)[1..] == rest;
    MsgExactly(now, msg);
  }

  /** block_load is called once for each section. */
  function LoadSections(images: Images, sections: seq<seq<Msg>>): Option<Images>
    decreases |sections|
  {
    if sections == [] then Some(images)
    else
      match Load(images, sections[0])
      case Failed(_) => None
      case Ok(images', rest) => if rest == [] then LoadSections(images', sections[1..]) else None
  }

  // ---- chunks of an image -----------------------------------------------------

  function ChunkEnd(total: nat, c: nat): (e: nat)
    requires c * CHUNK < total
    ensures c * CHUNK < e <= total && e <= (c + 1) * CHUNK
  {
    if total - c * CHUNK < CHUNK then total else (c + 1) * CHUNK
  }

  function Slice(image: seq<Sector>, c: nat): Chunk
    requires c * CHUNK < |image|
  {
    image[c * CHUNK..ChunkEnd(|image|, c)]
  }

  /** disk is the chunk-by-chunk view of the devices names[0], names[1], ... */
  ghost predicate Shows(disk: Disk, names: seq<Name>, images: Images) {
    && (forall n <- names :: n in images && images[n] != [])
    && (forall k :: k in disk <==> k.dev < |names| && k.chunk * CHUNK < |images[names[k.dev]]|)
    && (forall k <- disk :: disk[k] == Slice(images[names[k.dev]], k.chunk))
  }

  ghost predicate Distinct(names: seq<Name>) {
    forall i, j :: 0 <= i < j < |names| ==> names[i] != names[j]
  }

  lemma SpliceSlice(image: seq<Sector>, c: nat, data: Chunk, c': nat)
    requires c * CHUNK < |image| && c' * CHUNK < |image|
    requires |data| == ChunkEnd(|image|, c) - c * CHUNK
    ensures Slice(Splice(image, c * CHUNK, data), c') == if c' == c then data else Slice(image, c')
  {
    var r := Splice(image, c * CHUNK, data);
    var got := Slice(r, c');
    if c' == c {
      assert got == data;
    } else {
      forall i | 0 <= i < |got| ensures got[i] == Slice(image, c')[i] {
        var x := c' * CHUNK + i;
        assert got[i] == r[x];
        if c' < c {
          assert (c' + 1) * CHUNK <= c * CHUNK;
        } else {
          assert (c + 1) * CHUNK <= c' * CHUNK;
        }
      }
    }
  }

  /** Sectors of chunk c of a device of `total` sectors. */
  function Length(total: nat, c: nat): (n: nat)
    requires c * CHUNK < total
    ensures 0 < n <= CHUNK
  {
    ChunkEnd(total, c) - c * CHUNK
  }

  /** What blk_send puts for a copy: the whole buffer, of which only the
      sectors that exist hold data. */
  ghost predicate Carries(msg: Msg, names: seq<Name>, totals: seq<nat>, c: Copy) {
    && msg.Block? && c.key.dev < |names| == |totals| && msg.name == names[c.key.dev]
    && msg.sector == c.key.chunk * CHUNK < totals[c.key.dev]
    && |c.data| == Length(totals[c.key.dev], c.key.chunk)
    && |msg.buf| == CHUNK && msg.buf[..|c.data|] == c.data
  }

  /** The images of the named devices have these sizes. */
  ghost predicate Sized(names: seq<Name>, totals: seq<nat>, images: Images) {
    |names| == |totals| && forall d :: 0 <= d < |names| ==> names[d] in images && |images[names[d]]| == totals[d]
  }

  /** Loading one block message replaces exactly the chunk it names. */
  lemma LoadReplacesChunk(disk: Disk, names: seq<Name>, totals: seq<nat>, images: Images, msg: Msg, c: Copy)
    requires Distinct(names) && Shows(disk, names, images)
    requires Sized(names, totals, images) && Carries(msg, names, totals, c)
    ensures var r := LoadMsg(images, msg);
            r.Next? && Shows(disk[c.key := c.data], names, r.images) && Sized(names, totals, r.images)
  {
    var image := images[msg.name];
    var r := LoadMsg(images, msg).images;
    assert r == images[msg.name := Splice(image, msg.sector, c.data)];
    var disk' := disk[c.key := c.data];
    forall k | k in disk' ensures disk'[k] == Slice(r[names[k.dev]], k.chunk) {
      if names[k.dev] == msg.name {
        assert k.dev == c.key.dev;
        SpliceSlice(image, c.key.chunk, c.data, k.chunk);
      }
    }
  }

  // ---- streams of messages ------------------------------------------------------

  /** The block messages carry exactly these copies, in order; progress messages
      and end marks may stand anywhere. */
  ghost predicate Tells(msgs: seq<Msg>, names: seq<Name>, totals: seq<nat>, wire: seq<Copy>)
    decreases |msgs|
  {
    if msgs == [] then wire == []
    else
      var n, w := |msgs| - 1, |wire| - 1;
      if msgs[n].Block? then wire != [] && Carries(msgs[n], names, totals, wire[w]) && Tells(msgs[..n], names, totals, wire[..w])
      else Tells(msgs[..n], names, totals, wire)
  }

  /** What one call of block_save_live puts: one end mark, at the end. */
  predicate Section(msgs: seq<Msg>) {
    msgs != [] && msgs[|msgs| - 1].Eos? && forall i :: 0 <= i < |msgs| - 1 ==> !msgs[i].Eos?
  }

  function Flatten(sections: seq<seq<Msg>>): seq<Msg> {
    if sections == [] then [] else Flatten(sections[..|sections| - 1]) + sections[|sections| - 1]
  }

  function Blocks(msgs: seq<Msg>): nat {
    if msgs == [] then 0 else Blocks(msgs[..|msgs| - 1]) + (if msgs[|msgs| - 1].Block? then 1 else 0)
  }

  lemma TellsSnoc(msgs: seq<Msg>, msg: Msg, names: seq<Name>, totals: seq<nat>, wire: seq<Copy>)
    requires Tells(msgs, names, totals, wire) && !msg.Block?
    ensures Tells(msgs + [msg], names, totals, wire)
  {
    assert (msgs + [msg])[..|msgs|] == msgs;
  }

  lemma TellsCopy(msgs: seq<Msg>, msg: Msg, names: seq<Name>, totals: seq<nat>, wire: seq<Copy>, c: Copy)
    requires Tells(msgs, names, totals, wire) && Carries(msg, names, totals, c)
    ensures Tells(msgs + [msg], names, totals, wire + [c])
  {
    hide Carries;
    assert msg.Block? by { CarriesBlock(msg, names, totals, c); }
    assert (msgs + [msg])[..|msgs|] == msgs && (wire + [c])[..|wire|] == wire;
  }

  lemma CarriesBlock(msg: Msg, names: seq<Name>, totals: seq<nat>, c: Copy)
    requires Carries(msg, names, totals, c)
    ensures msg.Block?
  {
  }

  /** A stream in two parts tells its copies in two parts. */
  lemma {:induction false} TellsSplit(a: seq<Msg>, b: seq<Msg>, names: seq<Name>, totals: seq<nat>, wire: seq<Copy>)
    requires Tells(a + b, names, totals, wire)
    ensures Blocks(a) <= |wire|
    ensures Tells(a, names, totals, wire[..Blocks(a)]) && Tells(b, names, totals, wire[Blocks(a)..])
    decreases |b|
  {
    hide Carries;
    if b == [] {
      assert a + b == a;
      TellsAll(a, names, totals, wire);
      assert wire[..|wire|] == wire;
    } else {
      var n, w, k := |b| - 1, |wire| - 1, Blocks(a);
      assert (a + b)[..|a| + n] == a + b[..n];
      if b[n].Block? {
        TellsSplit(a, b[..n], names, totals, wire[..w]);
        assert wire[..w][..k] == wire[..k] && wire[..w][k..] == wire[k..][..w - k];
      } else {
        TellsSplit(a, b[..n], names, totals, wire);
      }
    }
  }

  lemma {:induction false} TellsAll(a: seq<Msg>, names: seq<Name>, totals: seq<nat>, wire: seq<Copy>)
    requires Tells(a, names, totals, wire)
    ensures Blocks(a) == |wire|
    decreases |a|
  {
    hide Carries;
    if a != [] {
      var n := |a| - 1;
      TellsAll(a[..n], names, totals, if a[n].Block? then wire[..|wire| - 1] else wire);
    }
  }

  /** The first message, and what the others tell. */
  lemma TellsFront(msgs: seq<Msg>, names: seq<Name>, totals: seq<nat>, wire: seq<Copy>)
    requires msgs != [] && Tells(msgs, names, totals, wire)
    ensures if msgs[0].Block? then wire != [] && Carries(msgs[0], names, totals, wire[0]) && Tells(msgs[1..], names, totals, wire[1..])
            else Tells(msgs[1..], names, totals, wire)
  {
    hide Carries;
    assert msgs == msgs[..1] + msgs[1..] && msgs[..1][..0] == [];
    assert Blocks(msgs[..1]) == if msgs[0].Block? then 1 else 0;
    TellsSplit(msgs[..1], msgs[1..], names, totals, wire);
    assert wire[0..] == wire;
  }

  lemma {:induction false} LoadedAppend(dest: Disk, a: seq<Copy>, b: seq<Copy>)
    ensures Loaded(dest, a + b) == Loaded(Loaded(dest, a), b)
    decreases |b|
  {
    if b == [] {
      assert a + b == a;
    } else {
      assert (a + b)[..|a + b| - 1] == a + b[..|b| - 1];
      LoadedAppend(dest, a, b[..|b| - 1]);
    }
  }

  lemma LoadedFront(dest: Disk, wire: seq<Copy>)
    requires wire != []
    ensures Loaded(dest, wire) == Loaded(dest[wire[0].key := wire[0].data], wire[1..])
  {
    assert wire == [wire[0]] + wire[1..];
    LoadedAppend(dest, [wire[0]], wire[1..]);
    assert [wire[0]][..0] == [];
  }

  /** Reading one section shows the receiver's devices as its copies have them. */
  lemma {:induction false} LoadFollows(disk: Disk, names: seq<Name>, totals: seq<nat>, images: Images,
                                       msgs: seq<Msg>, wire: seq<Copy>)
    requires Distinct(names) && Shows(disk, names, images) && Sized(names, totals, images)
    requires Section(msgs) && Tells(msgs, names, totals, wire)
    ensures var r := Load(images, msgs);
            && r.Ok? && r.rest == [] && Shows(Loaded(disk, wire), names, r.images) && Sized(names, totals, r.images)
    decreases |msgs|
  {
    hide Shows, Carries, Sized, Tells;
    TellsFront(msgs, names, totals, wire);
    if msgs[0].Block? {
      var c := wire[0];
      LoadReplacesChunk(disk, names, totals, images, msgs[0], c);
      LoadedFront(disk, wire);
      LoadFollows(disk[c.key := c.data], names, totals, LoadMsg(images, msgs[0]).images, msgs[1..], wire[1..]);
    } else if msgs[0].Progress? {
      LoadFollows(disk, names, totals, images, msgs[1..], wire);
    } else {
      assert msgs[1..] == [];
      TellsNothing(names, totals, wire);
    }
  }

  lemma TellsNothing(names: seq<Name>, totals: seq<nat>, wire: seq<Copy>)
    requires Tells([], names, totals, wire)
    ensures wire == []
  {
  }

  lemma {:induction false} FlattenFront(sections: seq<seq<Msg>>)
    requires sections != []
    ensures Flatten(sections) == sections[0] + Flatten(sections[1..])
    decreases |sections|
  {
    var n := |sections| - 1;
    if n == 0 {
      assert sections[..0] == [] && sections[1..] == [];
      assert Flatten(sections) == [] + sections[0];
    } else {
      FlattenFront(sections[..n]);
      assert sections[..n][1..] == sections[1..][..n - 1];
      assert Flatten(sections) == sections[0] + Flatten(sections[1..][..n - 1]) + sections[n];
    }
  }

  /** Reading all sections, one call each, shows them as all copies have them. */
  lemma {:induction false} SectionsFollow(disk: Disk, names: seq<Name>, totals: seq<nat>, images: Images,
                                          sections: seq<seq<Msg>>, wire: seq<Copy>)
    requires Distinct(names) && Shows(disk, names, images) && Sized(names, totals, images)
    requires (forall m <- sections :: Section(m)) && Tells(Flatten(sections), names, totals, wire)
    ensures var r := LoadSections(images, sections);
            r.Some? && Shows(Loaded(disk, wire), names, r.value) && Sized(names, totals, r.value)
    decreases |sections|
  {
    hide Shows, Sized, Tells, Load, Section, Distinct;
    if sections == [] {
      TellsNothing(names, totals, wire);
    } else {
      var first, n := sections[0], Blocks(sections[0]);
      FlattenFront(sections);
      TellsSplit(first, Flatten(sections[1..]), names, totals, wire);
      LoadFollows(disk, names, totals, images, first, wire[..n]);
      SectionsFollow(Loaded(disk, wire[..n]), names, totals, Load(images, first).images, sections[1..], wire[n..]);
      LoadedAppend(disk, wire[..n], wire[n..]);
      assert wire[..n] + wire[n..] == wire;
    }
  }

  /** Images with the same chunks are the same. */
  lemma SameChunks(disk: Disk, names: seq<Name>, a: Images, b: Images, d: nat)
    requires Shows(disk, names, a) && Shows(disk, names, b) && d < |names|
    requires |a[names[d]]| == |b[names[d]]|
    ensures a[names[d]] == b[names[d]]
  {
    var x, y := a[names[d]], b[names[d]];
    forall i | 0 <= i < |x| ensures x[i] == y[i] {
      var c := i / CHUNK;
      var k := Key(d, c);
      assert k in disk;
      assert Slice(x, c)[i - c * CHUNK] == x[i];
      assert Slice(y, c)[i - c * CHUNK] == y[i];
    }
  }

  /** Convergence of the images: with the three guarantees, and devices of equal
      size on both sides, reading the sections of a finished migration makes every
      device of the receiver equal to the sender's, sector by sector. */
  lemma ImagesConverge(s0: Mig, events: seq<Event>, s: Mig, names: seq<Name>, totals: seq<nat>,
                       source: Images, target: Images, sections: seq<seq<Msg>>)
    requires Init(ALL, s0) && Runs(ALL, s0, events, s) && Finished(ALL, s)
    requires Distinct(names) && Shows(s.disk, names, source)
    requires Sized(names, totals, source) && Sized(names, totals, target)
    requires (forall m <- sections :: Section(m)) && Tells(Flatten(sections), names, totals, s.wire)
    ensures var r := LoadSections(target, sections);
            r.Some? && forall n <- names :: n in r.value && n in source && r.value[n] == source[n]
  {
    hide Runs, Init, Finished, Shows, LoadSections, Loaded, Tells, Inv, Sized, Section, Flatten;
    var dest := ViewOf(s.disk, names, totals, source, target);
    InitInv(s0);
    RunInv(s0, events, s);
    Converges(s0, events, s, dest);
    SectionsFollow(dest, names, totals, target, sections, s.wire);
    var r := LoadSections(target, sections).value;
    forall n | n in names ensures n in r && n in source && r[n] == source[n] {
      var d :| 0 <= d < |names| && names[d] == n;
      SizedAt(names, totals, r, d);
      SizedAt(names, totals, source, d);
      SameChunks(s.disk, names, r, source, d);
    }
  }

  lemma SizedAt(names: seq<Name>, totals: seq<nat>, images: Images, d: nat)
    requires Sized(names, totals, images) && d < |names|
    ensures d < |totals| && names[d] in images && |images[names[d]]| == totals[d]
  {
  }

  /** The chunks of a target of the same sizes. */
  lemma ViewOf(disk: Disk, names: seq<Name>, totals: seq<nat>, source: Images, target: Images) returns (dest: Disk)
    requires Shows(disk, names, source) && Sized(names, totals, source) && Sized(names, totals, target)
    ensures Shows(dest, names, target) && dest.Keys == disk.Keys
  {
    forall n | n in names ensures n in target && |target[n]| == |source[n]| {
      var d :| 0 <= d < |names| && names[d] == n;
    }
    dest := map k | k in disk :: Slice(target[names[k.dev]], k.chunk);
  }
}
