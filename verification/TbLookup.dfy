/**
 Translation-block lookup: the physical hash table of chained blocks, searched with
 move-to-front, and the virtual-pc cache in front of it.
 */
module TbLookup {
  const PAGE := 4096

  /** Guest code pages: the physical address of the code at a virtual address. */
  type Mmu = nat -> nat

  function PageOf(a: nat): nat {
    a - a % PAGE
  }

  class Tb {
    const pc: nat
    const csBase: nat
    const flags: nat
    const page0: nat
    const page1: int
    var next: Tb?

    constructor (pc: nat, csBase: nat, flags: nat, page0: nat, page1: int)
      ensures this.pc == pc && this.csBase == csBase && this.flags == flags
      ensures this.page0 == page0 && this.page1 == page1 && next == null
    {
      this.pc, this.csBase, this.flags, this.page0, this.page1, next := pc, csBase, flags, page0, page1, null;
    }
  }

  datatype Key = Key(pc: nat, csBase: nat, flags: nat)

  function KeyOf(tb: Tb): Key {
    Key(tb.pc, tb.csBase, tb.flags)
  }

  /** The block is one for this key and still lies in the pages the code is in. */
  predicate Matches(tb: Tb, k: Key, mmu: Mmu) {
    && tb.pc == k.pc && tb.page0 == PageOf(mmu(k.pc)) && tb.csBase == k.csBase && tb.flags == k.flags
    && (tb.page1 == -1 || tb.page1 == PageOf(mmu(PageOf(k.pc) + PAGE)))
  }

  /** Which blocks match: those made for the same pc, base and flags, whose first page
      is the 4096 bytes the code at pc lies in now, and whose second page, if they
      have one, is that of the code behind it. */
  lemma MatchesExactly(tb: Tb, k: Key, mmu: Mmu)
    ensures Matches(tb, k, mmu) <==>
              && tb.pc == k.pc && tb.csBase == k.csBase && tb.flags == k.flags
              && tb.page0 % 4096 == 0 && tb.page0 <= mmu(k.pc) < tb.page0 + 4096
              && (tb.page1 == -1 ||
                  var next := mmu(k.pc + 4096 - k.pc % 4096);
                  tb.page1 % 4096 == 0 && tb.page1 <= next < tb.page1 + 4096)
  {
    PageOfExactly(mmu(k.pc), tb.page0);
    PageOfExactly(mmu(k.pc + 4096 - k.pc % 4096), tb.page1);
  }

  lemma PageOfExactly(a: nat, p: int)
    ensures p == PageOf(a) <==> p % 4096 == 0 && p <= a < p + 4096
  {
  }

  // ---- a chain ---------------------------------------------------------------------------

  function FirstOf(c: seq<Tb>): Tb? {
    if c == [] then null else c[0]
  }

  function After(c: seq<Tb>, i: nat): Tb? {
    if i + 1 < |c| then c[i + 1] else null
  }

  ghost predicate Linked(c: seq<Tb>)
    reads c
  {
    && (forall i :: 0 <= i < |c| ==> c[i].next == After(c, i))
    && Distinct(c)
  }

  lemma LinkedAt(c: seq<Tb>, i: nat)
    requires Linked(c) && i < |c|
    ensures c[i].next == After(c, i)
  {
  }

  ghost predicate Distinct(c: seq<Tb>) {
    forall i, j :: 0 <= i < j < |c| ==> c[i] != c[j]
  }

  /** Index of the first match, or the length of the chain. */
  function FirstMatch(c: seq<Tb>, k: Key, mmu: Mmu): (i: nat)
    ensures i <= |c|
    ensures i < |c| ==> Matches(c[i], k, mmu)
    ensures forall j :: 0 <= j < i ==> !Matches(c[j], k, mmu)
  {
    if c == [] then 0 else if Matches(c[0], k, mmu) then 0 else 1 + FirstMatch(c[1..], k, mmu)
  }

  lemma {:induction false} FirstIs(c: seq<Tb>, k: Key, mmu: Mmu, i: nat)
    requires i <= |c| && (i < |c| ==> Matches(c[i], k, mmu)) && forall j :: 0 <= j < i ==> !Matches(c[j], k, mmu)
    ensures FirstMatch(c, k, mmu) == i
  {
  }

  /** Element i first, the others in their order. */
  function ToFront(c: seq<Tb>, i: nat): (r: seq<Tb>)
    requires i < |c|
    ensures |r| == |c|
    ensures forall j :: 0 <= j < |c| ==> r[j] == if j == 0 then c[i] else if j <= i then c[j - 1] else c[j]
  {
    [c[i]] + c[..i] + c[i + 1..]
  }

  lemma ToFrontKeeps(c: seq<Tb>, i: nat)
    requires i < |c|
    ensures multiset(ToFront(c, i)) == multiset(c)
    ensures forall tb :: tb in ToFront(c, i) <==> tb in c
  {
    assert c == c[..i] + [c[i]] + c[i + 1..];
    forall tb
      ensures tb in ToFront(c, i) <==> tb in c
    {
      assert tb in ToFront(c, i) <==> tb in multiset(ToFront(c, i));
      assert tb in c <==> tb in multiset(c);
    }
  }

  /** The successor of element j of c once element i has been moved to the front. */
  function Moved(c: seq<Tb>, i: nat, j: nat): Tb?
    requires i < |c| && j < |c|
  {
    if j == i then (if i == 0 then After(c, 0) else c[0]) else if j + 1 == i then After(c, i) else After(c, j)
  }

  lemma AfterToFront(c: seq<Tb>, i: nat, j: nat)
    requires i < |c| && j < |c|
    ensures After(ToFront(c, i), j) == Moved(c, i, if j == 0 then i else if j <= i then j - 1 else j)
  {
  }

  lemma DistinctToFront(c: seq<Tb>, i: nat)
    requires i < |c| && Distinct(c)
    ensures Distinct(ToFront(c, i))
  {
  }

  /** At most one block of the chain is a match for any key. */
  ghost predicate AtMostOne(c: seq<Tb>, mmu: Mmu) {
    forall i, j :: 0 <= i < j < |c| && KeyOf(c[i]) == KeyOf(c[j]) ==>
      !(Matches(c[i], KeyOf(c[i]), mmu) && Matches(c[j], KeyOf(c[j]), mmu))
  }

  lemma FirstIsOnly(c: seq<Tb>, k: Key, mmu: Mmu, tb: Tb)
    requires AtMostOne(c, mmu) && tb in c && Matches(tb, k, mmu)
    ensures var i := FirstMatch(c, k, mmu); i < |c| && c[i] == tb
  {
    hide Matches;
    var i := FirstMatch(c, k, mmu);
    var j :| 0 <= j < |c| && c[j] == tb;
    assert i <= j;
    SameKey(c[i], k, mmu);
    SameKey(c[j], k, mmu);
  }

  lemma SameKey(tb: Tb, k: Key, mmu: Mmu)
    requires Matches(tb, k, mmu)
    ensures KeyOf(tb) == k
  {
  }

  lemma AtMostOneToFront(c: seq<Tb>, i: nat, mmu: Mmu)
    requires i < |c| && AtMostOne(c, mmu)
    ensures AtMostOne(ToFront(c, i), mmu)
  {
    hide Matches;
  }

  lemma AtMostOneNew(c: seq<Tb>, tb: Tb, mmu: Mmu)
    requires AtMostOne(c, mmu) && FirstMatch(c, KeyOf(tb), mmu) == |c|
    ensures AtMostOne([tb] + c, mmu)
  {
    hide Matches;
  }

  // ---- the table and the cache ----------------------------------------------------------------

  /** A mapping moves whole pages. */
  ghost predicate MovesPages(mmu: Mmu) {
    forall a: nat :: mmu(a) % PAGE == a % PAGE
  }

  class TbTable {
    const table: array<Tb?>
    const jmpCache: array<Tb?>
    const physHash: nat -> nat
    const jmpHash: nat -> nat
    ghost var chains: seq<seq<Tb>>
    ghost var repr: set<Tb>

    /** The bucket of a block's physical address. */
    ghost function Bucket(tb: Tb): nat {
      physHash(tb.page0 + tb.pc % PAGE)
    }

    ghost predicate Chain(h: nat)
      requires h < table.Length && |chains| == table.Length
      reads this, table, repr
    {
      && (forall i :: 0 <= i < |chains[h]| ==> chains[h][i] in repr && Bucket(chains[h][i]) == h)
      && table[h] == FirstOf(chains[h]) && Linked(chains[h])
    }

    ghost predicate Valid()
      reads this, table, repr
    {
      && table != jmpCache && |chains| == table.Length
      && (forall a: nat :: physHash(a) < table.Length)
      && (forall a: nat :: jmpHash(a) < jmpCache.Length)
      && (forall h: nat :: h < table.Length ==> Chain(h))
    }

    constructor (table: array<Tb?>, jmpCache: array<Tb?>, physHash: nat -> nat, jmpHash: nat -> nat)
      requires table != jmpCache && forall h :: 0 <= h < table.Length ==> table[h] == null
      requires forall j :: 0 <= j < jmpCache.Length ==> jmpCache[j] == null
      requires forall a: nat :: physHash(a) < table.Length
      requires forall a: nat :: jmpHash(a) < jmpCache.Length
      ensures Valid() && this.table == table && this.jmpCache == jmpCache
      ensures forall h :: 0 <= h < |chains| ==> chains[h] == []
      ensures forall mmu: Mmu :: Coherent(mmu)
    {
      this.table, this.jmpCache, this.physHash, this.jmpHash := table, jmpCache, physHash, jmpHash;
      chains, repr := seq(table.Length, h => []), {};
    }

    /** tb_link_page: a new block becomes the head of its chain. */
    method Link(tb: Tb, h: nat)
      requires Valid() && h < table.Length && Bucket(tb) == h && tb !in repr
      modifies this`chains, this`repr, table, tb
      ensures Valid() && repr == old(repr) + {tb} && chains == old(chains)[h := [tb] + old(chains)[h]]
    {
      ghost var c := chains[h];
      tb.next := table[h];
      table[h] := tb;
      chains := chains[h := [tb] + c];
      repr := repr + {tb};
      forall g: nat | g < table.Length
        ensures Chain(g)
      {
        assert old(Chain(g));
        assert tb !in old(chains[g]);
      }
    }

    lemma ChainAt(h: nat)
      requires Valid() && h < table.Length
      ensures |chains| == table.Length && table[h] == FirstOf(chains[h]) && Linked(chains[h])
    {
      assert Chain(h);
    }

    /** The search of tb_find_slow: the matching block and its predecessor. */
    method Search(h: nat, k: Key, mmu: Mmu) returns (prev: Tb?, tb: Tb?, ghost i: nat)
      requires Valid() && h < table.Length
      ensures i == FirstMatch(chains[h], k, mmu)
      ensures tb == (if i < |chains[h]| then chains[h][i] else null)
      ensures prev == (if i > 0 then chains[h][i - 1] else null)
      ensures tb == if prev == null then table[h] else prev.next
    {
      hide Valid, Chain, Linked, FirstMatch, PageOf;
      ChainAt(h);
      ghost var c := chains[h];
      prev, tb, i := null, table[h], 0;
      while tb != null
        invariant i <= |c| && tb == (if i < |c| then c[i] else null) && prev == (if i > 0 then c[i - 1] else null)
        invariant tb == if prev == null then table[h] else prev.next
        invariant forall j :: 0 <= j < i ==> !Matches(c[j], k, mmu)
        decreases |c| - i
      {
        if tb.pc == k.pc && tb.page0 == PageOf(mmu(k.pc)) && tb.csBase == k.csBase && tb.flags == k.flags {
          if tb.page1 != -1 {
            var page2 := PageOf(mmu(PageOf(k.pc) + PAGE));
            if tb.page1 == page2 {
              FirstIs(c, k, mmu, i);
              return;
            }
          } else {
            FirstIs(c, k, mmu, i);
            return;
          }
        }
        LinkedAt(c, i);
        prev, tb, i := tb, tb.next, i + 1;
      }
      FirstIs(c, k, mmu, i);
    }

    /** Taking block i out of a chain and putting it in front; returns the new head. */
    static method Relink(head: Tb?, prev: Tb?, tb: Tb, ghost c: seq<Tb>, ghost i: nat) returns (first: Tb)
      requires Linked(c) && head == FirstOf(c) && i < |c| && tb == c[i]
      requires prev == if i > 0 then c[i - 1] else null
      modifies c
      ensures first == tb && Linked(ToFront(c, i))
    {
      var rest := head;
      assert c[i].next == After(c, i);
      if prev == null {
        rest := tb.next;
      } else {
        prev.next := tb.next;
      }
      tb.next := rest;
      first := tb;
      DistinctToFront(c, i);
      assert forall j :: 0 <= j < |c| ==> old(c[j].next) == After(c, j);
      assert forall j :: 0 <= j < |c| ==> c[j].next == Moved(c, i, j);
      Relinked(c, i);
    }

    /** Linked in the new order: block i leads to the old head, the one before it to the one after it. */
    static lemma Relinked(c: seq<Tb>, i: nat)
      requires i < |c| && Distinct(ToFront(c, i))
      requires forall j :: 0 <= j < |c| ==> c[j].next == Moved(c, i, j)
      ensures Linked(ToFront(c, i))
    {
      hide After, Distinct, Moved;
      var r := ToFront(c, i);
      forall j | 0 <= j < |r|
        ensures r[j].next == After(r, j)
      {
        AfterToFront(c, i, j);
      }
    }

    /** The found block becomes the head of its chain. */
    method MoveToFront(h: nat, prev: Tb?, tb: Tb, ghost i: nat)
      requires Valid() && h < table.Length && i < |chains[h]| && tb == chains[h][i]
      requires prev == if i > 0 then chains[h][i - 1] else null
      modifies this`chains, table, chains[h]
      ensures Valid() && repr == old(repr) && chains == old(chains)[h := ToFront(old(chains)[h], i)]
    {
      hide Linked;
      ghost var c := chains[h];
      assert Chain(h);
      ToFrontKeeps(c, i);
      ghost var before := chains;
      var first := Relink(table[h], prev, tb, c, i);
      table[h] := first;
      ghost var r := ToFront(c, i);
      chains := chains[h := r];
      forall g: nat | g < table.Length
        ensures Chain(g)
      {
        assert old(Chain(g));
        if g != h {
          Apart(before[g], g, c, h);
          assert chains[g] == before[g];
          assert forall j :: 0 <= j < |before[g]| ==> before[g][j].next == old(before[g][j].next);
          StillLinked(before[g]);
        } else {
          assert forall j :: 0 <= j < |r| ==> r[j] in c;
        }
      }
    }

    static twostate lemma StillLinked(c: seq<Tb>)
      requires old(Linked(c)) && forall j :: 0 <= j < |c| ==> c[j].next == old(c[j].next)
      ensures Linked(c)
    {
    }

    /** Chains of different buckets have no block in common. */
    lemma Apart(c: seq<Tb>, g: nat, d: seq<Tb>, h: nat)
      requires g != h
      requires forall i :: 0 <= i < |c| ==> Bucket(c[i]) == g
      requires forall i :: 0 <= i < |d| ==> Bucket(d[i]) == h
      ensures forall i :: 0 <= i < |c| ==> c[i] !in d
    {
    }
 
    /** tb_flush: all chains and the cache are emptied. */
    method Flush()
      requires Valid()
      modifies this`chains, this`repr, table, jmpCache
      ensures Valid() && repr == {} && |chains| == table.Length
      ensures forall h :: 0 <= h < |chains| ==> chains[h] == []
      ensures forall j :: 0 <= j < jmpCache.Length ==> jmpCache[j] == null
    {
      forall h | 0 <= h < table.Length { table[h] := null; }
      forall j | 0 <= j < jmpCache.Length { jmpCache[j] := null; }
      chains, repr := seq(table.Length, h => []), {};
    }

    /** tb_gen_code: a block for the code at the key; `crosses` says that it
        reaches into the next page, `full` that there was no room left. */
    method GenCode(k: Key, mmu: Mmu, crosses: bool, full: bool) returns (tb: Tb)
      requires Valid() && MovesPages(mmu)
      modifies this`chains, this`repr, table, jmpCache
      ensures Valid() && fresh(tb) && KeyOf(tb) == k && Matches(tb, k, mmu)
      ensures tb.page1 == if crosses then PageOf(mmu(PageOf(k.pc) + PAGE)) else -1
      ensures chains == WithNew(Kept(old(chains), full), physHash(mmu(k.pc)), tb)
      ensures table[physHash(mmu(k.pc))] == tb
      ensures forall j :: 0 <= j < jmpCache.Length ==> jmpCache[j] == if full then null else old(jmpCache[j])
    {
      if full {
        Flush();
        assert chains == Kept(old(chains), full);
      }
      var phys := mmu(k.pc);
      var page1: int := if crosses then PageOf(mmu(PageOf(k.pc) + PAGE)) else -1;
      tb := new Tb(k.pc, k.csBase, k.flags, PageOf(phys), page1);
      Link(tb, physHash(phys));
      assert Chain(physHash(phys));
    }

    /** The bucket searched for a key. */
    ghost function BucketOf(k: Key, mmu: Mmu): nat {
      physHash(mmu(k.pc))
    }

    /** tb_find_slow: the first match of the chain, moved to its front, or a new
        block there; either way the cache gets it. */
    method FindSlow(k: Key, mmu: Mmu, crosses: bool, full: bool) returns (tb: Tb)
      requires Valid() && MovesPages(mmu)
      modifies this`chains, this`repr, table, jmpCache, chains[BucketOf(k, mmu)]
      ensures Valid()
      ensures var c := old(chains)[BucketOf(k, mmu)];
              var i := FirstMatch(c, k, mmu);
              if i < |c| then tb == c[i]
              else fresh(tb) && KeyOf(tb) == k && Matches(tb, k, mmu) &&
                   tb.page1 == if crosses then PageOf(mmu(PageOf(k.pc) + PAGE)) else -1
      ensures chains == Searched(old(chains), BucketOf(k, mmu), k, mmu, tb, full)
      ensures var c := old(chains)[BucketOf(k, mmu)];
              forall j :: 0 <= j < jmpCache.Length ==>
                jmpCache[j] == if j == jmpHash(k.pc) then tb
                               else if full && FirstMatch(c, k, mmu) == |c| then null else old(jmpCache[j])
    {
      hide Matches, Chain;
      var h := physHash(mmu(k.pc));
      var prev, found, i := Search(h, k, mmu);
      if found == null {
        tb := GenCode(k, mmu, crosses, full);
      } else {
        tb := found;
      }
      var slot := if prev == null then table[h] else prev.next;
      if slot != null {
        if found == null {
          assert chains[h] == [tb] && ToFront([tb], 0) == [tb];
        }
        MoveToFront(h, prev, tb, i);
      }
      jmpCache[jmpHash(k.pc)] := tb;
    }

    /** While the mapping stays as it is: no chain holds two matches for a key, and
        every cached block is a match in the chain where a search would look. */
    ghost predicate Coherent(mmu: Mmu)
      requires Valid()
      reads this, table, jmpCache, repr
    {
      && (forall h :: 0 <= h < |chains| ==> AtMostOne(chains[h], mmu))
      && (forall j :: 0 <= j < jmpCache.Length && jmpCache[j] != null ==> Current(jmpCache[j], chains, mmu))
    }

    ghost predicate Current(tb: Tb, chains: seq<seq<Tb>>, mmu: Mmu) {
      var h := BucketOf(KeyOf(tb), mmu);
      Matches(tb, KeyOf(tb), mmu) && h < |chains| && tb in chains[h]
    }

    /** A search keeps both. */
    lemma SearchedKeeps(chains: seq<seq<Tb>>, k: Key, mmu: Mmu, tb: Tb, full: bool)
      requires BucketOf(k, mmu) < |chains| && Matches(tb, k, mmu)
      requires var c := chains[BucketOf(k, mmu)];
               var i := FirstMatch(c, k, mmu);
               i < |c| ==> tb == c[i]
      requires forall h :: 0 <= h < |chains| ==> AtMostOne(chains[h], mmu)
      ensures var r := Searched(chains, BucketOf(k, mmu), k, mmu, tb, full);
              && |r| == |chains|
              && (forall h :: 0 <= h < |r| ==> AtMostOne(r[h], mmu))
              && Current(tb, r, mmu)
    {
      hide AtMostOne, Matches;
      var h := BucketOf(k, mmu);
      var i := FirstMatch(chains[h], k, mmu);
      SameKey(tb, k, mmu);
      if i < |chains[h]| {
        AtMostOneToFront(chains[h], i, mmu);
        ToFrontKeeps(chains[h], i);
      } else {
        var c := Kept(chains, full)[h];
        NoMatchIn([], k, mmu);
        NothingTwice([], mmu);
        AtMostOneNew(c, tb, mmu);
        assert tb in [tb] + c;
      }
    }

    lemma NoMatchIn(c: seq<Tb>, k: Key, mmu: Mmu)
      requires c == []
      ensures FirstMatch(c, k, mmu) == |c|
    {
    }

    lemma NothingTwice(c: seq<Tb>, mmu: Mmu)
      requires c == []
      ensures AtMostOne(c, mmu)
    {
    }

    lemma StaysCurrent(t: Tb, chains: seq<seq<Tb>>, k: Key, mmu: Mmu, tb: Tb, full: bool)
      requires BucketOf(k, mmu) < |chains|
      requires full ==> FirstMatch(chains[BucketOf(k, mmu)], k, mmu) < |chains[BucketOf(k, mmu)]|
      requires Current(t, chains, mmu)
      ensures Current(t, Searched(chains, BucketOf(k, mmu), k, mmu, tb, full), mmu)
    {
      hide Matches, AtMostOne;
      var h := BucketOf(k, mmu);
      var i := FirstMatch(chains[h], k, mmu);
      if i < |chains[h]| {
        ToFrontKeeps(chains[h], i);
      } else {
        assert forall x :: x in chains[h] ==> x in [tb] + chains[h];
      }
    }

    /** tb_find_fast: whatever the cache holds, the block is the one that
        tb_find_slow would have found, or new if it would have found none. */
    method FindFast(k: Key, mmu: Mmu, crosses: bool, full: bool) returns (tb: Tb)
      requires Valid() && MovesPages(mmu) && Coherent(mmu)
      modifies this`chains, this`repr, table, jmpCache, chains[BucketOf(k, mmu)]
      ensures Valid() && Coherent(mmu) && Matches(tb, k, mmu)
      ensures var c := old(chains)[BucketOf(k, mmu)];
              var i := FirstMatch(c, k, mmu);
              if i < |c| then tb == c[i]
              else fresh(tb) && tb.page1 == if crosses then PageOf(mmu(PageOf(k.pc) + PAGE)) else -1
      ensures var cached := old(jmpCache[jmpHash(k.pc)]);
              cached != null && KeyOf(cached) == k ==> tb == cached && chains == old(chains)
    {
      hide Matches, AtMostOne, Chain, Searched;
      var cached := jmpCache[jmpHash(k.pc)];
      if cached != null && cached.pc == k.pc && cached.csBase == k.csBase && cached.flags == k.flags {
        tb := cached;
        assert Current(tb, chains, mmu) && KeyOf(tb) == k;
        FirstIsOnly(chains[BucketOf(k, mmu)], k, mmu, tb);
      } else {
        tb := FindSlow(k, mmu, crosses, full);
        ghost var before := old(chains);
        SearchedKeeps(before, k, mmu, tb, full);
        forall j | 0 <= j < jmpCache.Length && jmpCache[j] != null
          ensures Current(jmpCache[j], chains, mmu)
        {
          if j != jmpHash(k.pc) {
            StaysCurrent(jmpCache[j], before, k, mmu, tb, full);
          }
        }
      }
    }
  }

  function Kept(chains: seq<seq<Tb>>, full: bool): (r: seq<seq<Tb>>)
    ensures |r| == |chains|
    ensures forall h :: 0 <= h < |r| ==> r[h] == if full then [] else chains[h]
  {
    if full then seq(|chains|, h => []) else chains
  }

  function WithNew(chains: seq<seq<Tb>>, h: nat, tb: Tb): seq<seq<Tb>>
    requires h < |chains|
  {
    chains[h := [tb] + chains[h]]
  }

  /** The chains after a search of bucket h that ended with tb. */
  function Searched(chains: seq<seq<Tb>>, h: nat, k: Key, mmu: Mmu, tb: Tb, full: bool): seq<seq<Tb>>
    requires h < |chains|
  {
    var i := FirstMatch(chains[h], k, mmu);
    if i < |chains[h]| then chains[h := ToFront(chains[h], i)] else WithNew(Kept(chains, full), h, tb)
  }
}
