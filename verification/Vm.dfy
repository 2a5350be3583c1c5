/**
 kalloc.c and vm.c: the frame pool, and building, growing, shrinking, copying and
 freeing address spaces through it.
 */
module Vm {
  import opened Common
  import opened PageTables

  /** How a mapping operation ended: done, out of frames, or a kernel panic. */
  datatype Outcome = Done | NoMemory | Panicked

  type Int32 = n: int | -0x8000_0000 <= n < 0x8000_0000

  const PTE_W: nat := 2
  const PTE_U: nat := 4

  function Junk(): Page {
    seq(NENTRIES, _ => 0x0101_0101)
  }

  function Wrap(x: int): Word {
    x % 0x1_0000_0000
  }

  /** The entry word pa | perm | PTE_P for a page-aligned pa. */
  function Entry(f: nat, perm: nat): (w: Word)
    requires f < NPAGES && perm < PGSIZE
    ensures Present(w) && Frame(w) == f && Flags(w) == if perm % 2 == 1 then perm else perm + 1
  {
    EntryWord(f, if perm % 2 == 1 then perm else perm + 1);
    f * PGSIZE + if perm % 2 == 1 then perm else perm + 1
  }

  lemma EntryWord(f: nat, x: nat)
    requires x < PGSIZE
    ensures (f * PGSIZE + x) / PGSIZE == f && (f * PGSIZE + x) % PGSIZE == x && (f * PGSIZE + x) % 2 == x % 2
  {
  }

  /** Every frame of the pool range is either on the free list, once, or in use. */
  ghost predicate Pool(first: nat, n: nat, freelist: seq<nat>, owner: map<nat, Use>) {
    && NoDup(freelist)
    && (forall f | f in freelist :: first <= f < n && f !in owner)
    && (forall f | f in owner :: first <= f < n)
    && (forall f | first <= f < n :: f in freelist || f in owner)
  }

  ghost predicate OfDir(u: Use, d: nat) {
    match u
    case Dir(e) => e == d
    case Table(e, _) => e == d
    case User(e, _) => e == d
    case Other => false
  }

  /** From owner to owner', frames changed hands only in favour of address space d. */
  ghost predicate OnlyFor(owner: map<nat, Use>, owner': map<nat, Use>, d: nat) {
    && (forall f | f in owner :: f in owner'
                                 && (owner'[f] == owner[f] || (owner[f].Other? && owner'[f].User? && owner'[f].d == d)))
    && (forall f | f in owner' && f !in owner :: OfDir(owner'[f], d))
  }

  ghost predicate SameFlat(mem: Memory, mem': Memory, dirs: set<nat>) {
    |mem| == |mem'| && forall e, u | e in dirs && e < |mem| && 0 <= u < NPAGES :: Pte(mem', e, u) == Pte(mem, e, u)
  }

  /** The flat view of d with pages first..cut-1 mapped to consecutive frames; everything else as before. */
  ghost predicate MappedRange(mem: Memory, mem': Memory, dirs: set<nat>, d: nat, first: nat, cut: nat, frame: nat,
                              perm: nat) {
    && |mem| == |mem'| && first <= cut && frame + (cut - first) <= NPAGES && perm < PGSIZE
    && (forall e, u | e in dirs && e < |mem| && 0 <= u < NPAGES ::
          Pte(mem', e, u) == if e == d && first <= u < cut then Entry(frame + u - first, perm) else Pte(mem, e, u))
  }

  /** Pages that are no directories or tables keep their contents. */
  ghost predicate ContentKept(mem: Memory, mem': Memory, owner: map<nat, Use>) {
    |mem| == |mem'| && forall f | f in owner && f < |mem| && (owner[f].User? || owner[f].Other?) :: mem'[f] == mem[f]
  }

  // ---------------------------------------------------------------- how many frames an operation takes

  /** The directory entries of d that have a table. */
  ghost function Tables(mem: Memory, d: nat): set<nat> {
    set i: nat | i < NENTRIES && d < |mem| && Present(Pde(mem, d, i))
  }

  /** The directory entries whose tables hold pages lo..hi-1. */
  ghost function Covering(lo: nat, hi: nat): set<nat> {
    set i: nat | i < NENTRIES && Covers(lo, hi, i)
  }

  ghost predicate Covers(lo: nat, hi: nat, i: nat) {
    lo < hi && lo / NENTRIES <= i <= (hi - 1) / NENTRIES
  }

  /** Address space d gained the tables in add, and the pool gave one frame for each that is new and n more. */
  ghost predicate Spent(mem: Memory, free: nat, mem': Memory, free': nat, d: nat, add: set<nat>, n: nat) {
    Tables(mem', d) == Tables(mem, d) + add && free + |Tables(mem, d)| == free' + |Tables(mem', d)| + n
  }

  lemma NothingSpent(mem: Memory, free: nat, d: nat, v: nat)
    ensures Spent(mem, free, mem, free, d, {}, 0) && Covering(v, v) == {}
  {
  }

  lemma TableThere(mem: Memory, free: nat, d: nat, i: nat)
    requires d < |mem| && i < NENTRIES && Present(Pde(mem, d, i))
    ensures Spent(mem, free, mem, free, d, {i}, 0)
  {
    assert i in Tables(mem, d);
    assert Tables(mem, d) + {i} == Tables(mem, d);
  }

  lemma TableAdded(mem: Memory, free: nat, d: nat, i: nat, t: nat, w: Word)
    requires d < |mem| && t < |mem| && t != d && i < NENTRIES && !Present(Pde(mem, d, i)) && Present(w) && free > 0
    ensures Spent(mem, free, WithEntry(mem[t := ZeroPage()], d, i, w), free - 1, d, {i}, 0)
  {
    var mem' := WithEntry(mem[t := ZeroPage()], d, i, w);
    assert forall k | 0 <= k < NENTRIES :: Pde(mem', d, k) == if k == i then w else Pde(mem, d, k);
    assert Tables(mem', d) == Tables(mem, d) + {i};
  }

  lemma SameTables(mem: Memory, mem': Memory, d: nat)
    requires d < |mem| == |mem'| && forall k | 0 <= k < NENTRIES :: Pde(mem', d, k) == Pde(mem, d, k)
    ensures Tables(mem', d) == Tables(mem, d)
  {
  }

  lemma SpentMore(mem: Memory, free: nat, mid: Memory, midFree: nat, mem': Memory, free': nat, d: nat, add: set<nat>,
                  add': set<nat>, n: nat, m: nat)
    requires Spent(mem, free, mid, midFree, d, add, n) && Spent(mid, midFree, mem', free', d, add', m)
    ensures Spent(mem, free, mem', free', d, add + add', n + m)
  {
    hide Tables;
    assert Tables(mem, d) + add + add' == Tables(mem, d) + (add + add');
  }

  lemma EntryTables(mem: Memory, free: nat, mid: Memory, mem': Memory, free': nat, dirs: set<nat>, d: nat, v: nat,
                    w: Word)
    requires d in dirs && d < |mid| && EntrySet(mid, mem', dirs, d, v, w)
             && Spent(mem, free, mid, free', d, {v / NENTRIES}, 0)
    ensures Spent(mem, free, mem', free', d, {v / NENTRIES}, 0)
  {
    SameTables(mid, mem', d);
  }

  /** Whether one page could be had, from the tables and the pool before. */
  lemma OneSpent(mem: Memory, mid: Memory, free: nat, mem': Memory, free': nat, dirs: set<nat>, d: nat, v: nat,
                 res: Outcome)
    requires d in dirs && d < |mem| && v < NPAGES && SameViews(mem, mid, dirs) && free > 0
    requires Spent(mid, free - 1, mem', free', d, Covering(v, if res == NoMemory then v else v + 1), 0)
    requires res == NoMemory ==> free' == 0 && v / NENTRIES !in Tables(mem', d)
    ensures res == NoMemory <==> free < PageCost(Tables(mem, d), v)
    ensures res == Done ==> Spent(mem, free, mem', free', d, {v / NENTRIES}, 1)
  {
    hide Pte;
    SameTables(mem, mid, d);
    hide Tables;
    CoveringNext(v, v);
    hide Covering;
  }

  lemma CoveringNext(lo: nat, v: nat)
    requires lo <= v < NPAGES
    ensures Covering(lo, v + 1) == Covering(lo, v) + {v / NENTRIES} && Covering(v, v + 1) == {v / NENTRIES}
  {
    if lo < v {
      assert (v - 1) / NENTRIES <= v / NENTRIES <= (v - 1) / NENTRIES + 1 && lo / NENTRIES <= (v - 1) / NENTRIES;
    }
  }

  /** The frames it takes to map one more page, and pages lo..hi-1, in an address space with these tables. */
  ghost function PageCost(tables: set<nat>, v: nat): nat { 1 + if v / NENTRIES in tables then 0 else 1 }
  ghost function GrowCost(tables: set<nat>, lo: nat, hi: nat): int { hi - lo + |Covering(lo, hi) - tables| }

  lemma GrowCostNext(tables: set<nat>, lo: nat, v: nat)
    requires lo <= v < NPAGES
    ensures GrowCost(tables, lo, v + 1) == GrowCost(tables, lo, v) + PageCost(tables + Covering(lo, v), v)
  {
    CoveringNext(lo, v);
    hide Covering;
    var i := v / NENTRIES;
    if i in tables + Covering(lo, v) {
      assert Covering(lo, v + 1) - tables == Covering(lo, v) - tables;
    } else {
      assert Covering(lo, v + 1) - tables == (Covering(lo, v) - tables) + {i};
    }
  }

  lemma {:induction false} GrowCostMonotone(tables: set<nat>, lo: nat, a: nat, b: nat)
    requires lo <= a <= b <= NPAGES
    ensures GrowCost(tables, lo, a) + (b - a) <= GrowCost(tables, lo, b)
    decreases b - a
  {
    if a < b {
      GrowCostNext(tables, lo, a);
      GrowCostMonotone(tables, lo, a + 1, b);
    }
  }

  /** What has been spent on pages lo..v-1, as a number of frames. */
  lemma SpentIs(mem: Memory, free: nat, mem': Memory, free': nat, d: nat, lo: nat, hi: nat)
    requires lo <= hi && Spent(mem, free, mem', free', d, Covering(lo, hi), hi - lo)
    ensures free == free' + GrowCost(Tables(mem, d), lo, hi) && Tables(mem', d) == Tables(mem, d) + Covering(lo, hi)
  {
    hide Tables, Covering;
    assert Tables(mem', d) == Tables(mem, d) + (Covering(lo, hi) - Tables(mem, d));
  }

  class Machine {
    const first: nat              // the first frame the pool may hold
    var mem: Memory
    var freelist: seq<nat>
    ghost var dirs: set<nat>      // the page directories in existence
    ghost var owner: map<nat, Use>

    ghost predicate Valid()
      reads this
    {
      && 0 < first <= |mem| <= NPAGES
      && Linked(mem, dirs, owner) && Open(mem, dirs)
      && Pool(first, |mem|, freelist, owner)
    }

    /** freerange over all of memory from frame `first` on: every frame goes to the pool, the last one on top. */
    constructor (first: nat, mem: Memory)
      requires 0 < first <= |mem| <= NPAGES
      ensures Valid() && this.first == first && dirs == {} && owner == map[] && |this.mem| == |mem|
      ensures forall f | 0 <= f < |mem| :: this.mem[f] == if f < first then mem[f] else Junk()
      ensures |freelist| == |mem| - first && forall i | 0 <= i < |freelist| :: freelist[i] == |mem| - 1 - i
    {
      this.first, this.mem := first, mem;
      freelist, dirs, owner := [], {}, map[];
      new;
      var p := first;
      while p < |mem|
        invariant first <= p <= |mem| == |this.mem| && dirs == {} && owner == map[]
        invariant forall f | 0 <= f < |mem| :: this.mem[f] == if first <= f < p then Junk() else mem[f]
        invariant |freelist| == p - first && forall i | 0 <= i < |freelist| :: freelist[i] == p - 1 - i
      {
        var panicked := Kfree(p);
        p := p + 1;
      }
      forall f | first <= f < |mem|
        ensures f in freelist
      {
        assert freelist[|mem| - 1 - f] == f;
      }
    }

    /** Take a frame from the pool. */
    method Kalloc() returns (r: Option<nat>)
      requires Valid()
      modifies `freelist, `owner
      ensures Valid()
      ensures r.None? <==> old(freelist) == []
      ensures r.None? ==> freelist == old(freelist) && owner == old(owner)
      ensures r.Some? ==> && r.value == old(freelist)[0] && freelist == old(freelist)[1..]
                          && r.value !in old(owner) && owner == old(owner)[r.value := Other]
                          && first <= r.value < |mem|
    {
      if freelist == [] {
        return None;
      }
      var f := freelist[0];
      assert f in freelist;
      freelist := freelist[1..];
      owner := owner[f := Other];
      NewOther(mem, dirs, old(owner), f);
      PoolPop(first, |mem|, old(freelist), old(owner));
      r := Some(f);
    }

    /** Put a frame back, filling it with junk; the panic is for a frame outside the pool's range. */
    method Kfree(f: nat) returns (panicked: bool)
      modifies `mem, `freelist
      ensures panicked <==> !(first <= f < |old(mem)|)
      ensures panicked ==> mem == old(mem) && freelist == old(freelist)
      ensures !panicked ==> mem == old(mem)[f := Junk()] && freelist == [f] + old(freelist)
    {
      if f < first || f >= |mem| {
        return true;
      }
      mem := mem[f := Junk()];
      freelist := [f] + freelist;
      panicked := false;
    }

    /** The table that holds the entry of page v, made if there is none and alloc asks for it. */
    method Walkpgdir(d: nat, v: nat, alloc: bool) returns (r: Option<nat>)
      requires Valid() && d in dirs && v < NPAGES
      modifies `mem, `freelist, `owner
      ensures Valid()
      ensures r.None? ==> mem == old(mem) && freelist == old(freelist) && owner == old(owner)
                          && !Present(Pde(mem, d, v / NENTRIES)) && (alloc ==> freelist == [])
      ensures r.Some? ==> Present(Pde(mem, d, v / NENTRIES)) && Frame(Pde(mem, d, v / NENTRIES)) == r.value < |mem|
      ensures SameFlat(old(mem), mem, dirs) && OnlyFor(old(owner), owner, d) && ContentKept(old(mem), mem, old(owner))
      ensures |mem| == |old(mem)| && forall f | f in old(owner) :: f in owner && owner[f] == old(owner)[f]
      ensures !alloc ==> mem == old(mem) && freelist == old(freelist) && owner == old(owner)
      ensures r.Some? ==> Spent(old(mem), |old(freelist)|, mem, |freelist|, d, {v / NENTRIES}, 0)
    {
      hide Pool, Open, Linked, Pte, SameFlat, OnlyFor, WithEntry, Frame, Present, ContentKept, Spent;
      DirInMemory(mem, dirs, owner, d);
      NothingMoved(mem, dirs, owner, d);
      var pde := Pde(mem, d, v / NENTRIES);
      if Present(pde) {
        TableInMemory(mem, dirs, owner, d, v / NENTRIES);
        TableThere(mem, |freelist|, d, v / NENTRIES);
        return Some(Frame(pde));
      }
      if !alloc {
        return None;
      }
      var got := Kalloc();
      if got.None? {
        return None;
      }
      var t := got.value;
      FreshTable(mem, dirs, owner, d, v / NENTRIES, t);
      TableAdded(mem, |old(freelist)|, d, v / NENTRIES, t, t * PGSIZE + 7);
      mem := mem[t := ZeroPage()];
      mem := WithEntry(mem, d, v / NENTRIES, t * PGSIZE + 7);
      owner := owner[t := Table(d, v / NENTRIES)];
      assert owner == old(owner)[t := Table(d, v / NENTRIES)];
      NewFrameFor(old(owner), t, Table(d, v / NENTRIES), d);
      TableWritesKeepContent(old(mem), old(owner), d, v / NENTRIES, t);
      PoolRename(first, |mem|, freelist, old(owner)[t := Other], owner);
      r := Some(t);
    }

    /** One round of mappages: map page v to frame f. */
    method MapOne(d: nat, v: nat, f: nat, perm: nat) returns (r: Outcome)
      requires Valid() && d in dirs && v < NPAGES && f < NPAGES && perm < PGSIZE
      requires v < USERPAGES ==> f in owner && owner[f].Other?
      modifies `mem, `freelist, `owner
      ensures Valid() && |mem| == |old(mem)| && OnlyFor(old(owner), owner, d) && ContentKept(old(mem), mem, old(owner))
      ensures r == Panicked <==> Present(Pte(old(mem), d, v))
      ensures r != Done ==> SameFlat(old(mem), mem, dirs) && (v < USERPAGES ==> f in owner && owner[f].Other?)
      ensures r == NoMemory ==> freelist == [] && v / NENTRIES !in Tables(mem, d) && mem == old(mem)
                                && old(freelist) == []
      ensures r != NoMemory ==> Spent(old(mem), |old(freelist)|, mem, |freelist|, d, {v / NENTRIES}, 0)
      ensures forall g | g in old(owner) && g != f :: g in owner && owner[g] == old(owner)[g]
      ensures r == Done ==> && MappedRange(old(mem), mem, dirs, d, v, v + 1, f, perm)
                            && (v < USERPAGES ==> f in owner && owner[f] == User(d, v))
    {
      hide Pool, Open, Linked, Pte, SameFlat, OnlyFor, WithEntry, ContentKept, MappedRange, EntrySet, Spent;
      var got := Walkpgdir(d, v, true);
      DirInMemory(mem, dirs, owner, d);
      FlatAt(old(mem), mem, dirs, d, v);
      if got.None? {
        NoTable(mem, d, v);
        return NoMemory;
      }
      var t := got.value;
      EntryInTable(mem, d, v);
      if Present(mem[t][v % NENTRIES]) {
        return Panicked;
      }
      ghost var mid, midOwner := mem, owner;
      SetEntry(mem, dirs, owner, d, v, Entry(f, perm));
      TableInMemory(mem, dirs, owner, d, v / NENTRIES);
      mem := WithEntry(mem, t, v % NENTRIES, Entry(f, perm));
      EntryOpen(mid, mem, dirs, d, v, Entry(f, perm));
      EntryTables(old(mem), |old(freelist)|, mid, mem, |freelist|, dirs, d, v, Entry(f, perm));
      MappedOne(old(mem), mid, mem, dirs, d, v, f, perm);
      EntryKeepsContent(old(mem), mid, mem, old(owner), midOwner, d, t, v % NENTRIES, Entry(f, perm));
      if v < USERPAGES {
        MapUser(mid, mem, dirs, midOwner, d, v, Entry(f, perm));
        owner := owner[f := User(d, v)];
        PoolRename(first, |mem|, freelist, midOwner, owner);
        UseChanged(old(owner), midOwner, f, v, d);
      } else {
        MapKernel(mid, mem, dirs, owner, d, v, Entry(f, perm));
      }
      r := Done;
    }

    /**
     Map the pages of va..va+size-1 to consecutive frames from pa. Stops at the first page
     that has an entry already (the remap panic) or for which no table can be had.
     */
    method Mappages(d: nat, va: Word, size: Word, pa: Word, perm: nat) returns (r: Outcome, ghost cut: nat)
      requires Valid() && d in dirs && 0 < size && va + size <= 0x1_0000_0000 && perm < PGSIZE
      requires pa / PGSIZE + (va + size - 1) / PGSIZE - va / PGSIZE < NPAGES
      requires va / PGSIZE >= USERPAGES || MayMap(owner, va / PGSIZE, (va + size - 1) / PGSIZE, pa / PGSIZE)
      modifies `mem, `freelist, `owner
      ensures Valid() && |mem| == |old(mem)| && OnlyFor(old(owner), owner, d) && ContentKept(old(mem), mem, old(owner))
      ensures var first, last := va / PGSIZE, (va + size - 1) / PGSIZE;
              && first <= cut <= last + 1 && (r == Done <==> cut == last + 1)
              && MappedRange(old(mem), mem, dirs, d, first, cut, pa / PGSIZE, perm)
              && (forall v | first <= v < cut :: !Present(Pte(old(mem), d, v)))
              && (r != Done ==> (r == Panicked <==> Present(Pte(old(mem), d, cut))))
              && (r == NoMemory ==> freelist == [] && cut / NENTRIES !in Tables(mem, d))
              && Spent(old(mem), |old(freelist)|, mem, |freelist|, d,
                       Covering(first, if r == Panicked then cut + 1 else cut), 0)
              && (first < USERPAGES ==>
                    && UsedBy(owner, d, first, pa / PGSIZE, pa / PGSIZE + cut - first)
                    && Loose(owner, pa / PGSIZE + cut - first, pa / PGSIZE + last + 1 - first))
    {
      hide Pool, Open, Linked, Pte, SameFlat, OnlyFor, ContentKept, MappedRange, Frame, Entry, Spent, Covering, Tables,
           Mapping, Loose, UsedBy;
      var v, last, f := va / PGSIZE, Wrap(va + size - 1) / PGSIZE, pa / PGSIZE;
      ghost var first, frame := v, f;
      DirInMemory(mem, dirs, owner, d);
      NothingMoved(mem, dirs, owner, d);
      NothingMapped(mem, dirs, d, first, frame, perm);
      NothingSpent(mem, |freelist|, d, first);
      MappingStarts(mem, owner, |freelist|, dirs, d, first, last, frame, perm);
      while true
        invariant first <= v <= last && f == frame + v - first && Valid()
        invariant Mapping(old(mem), old(owner), |old(freelist)|, mem, owner, |freelist|, dirs, d, first, v, last, frame,
                          perm)
        decreases last - v
      {
        ghost var mid, midOwner, midFree := mem, owner, |freelist|;
        NextFrame(old(mem), old(owner), |old(freelist)|, mem, owner, |freelist|, dirs, d, first, v, last, frame, perm);
        r := MapOne(d, v, f, perm);
        MappingNext(old(mem), old(owner), |old(freelist)|, mid, midOwner, midFree, mem, owner, |freelist|, dirs, d,
                    first, v, last, frame, perm, r);
        cut := v;
        if r != Done {
          return;
        }
        if v == last {
          break;
        }
        v := v + 1;
        f := f + 1;
      }
      cut := last + 1;
      MappingMeans(old(mem), old(owner), |old(freelist)|, mem, owner, |freelist|, dirs, d, first, cut, last, frame,
                   perm);
    }

    /** Free the frame of a mapped user page and clear its entry. */
    method FreePage(d: nat, v: nat, t: nat) returns (panicked: bool)
      requires Valid() && d in dirs && d < |mem| && v < USERPAGES && Present(Pte(mem, d, v))
      requires Present(Pde(mem, d, v / NENTRIES)) && Frame(Pde(mem, d, v / NENTRIES)) == t
      modifies `mem, `freelist, `owner
      ensures !panicked && Valid() && EntrySet(old(mem), mem, dirs, d, v, 0)
      ensures Frame(Pte(old(mem), d, v)) in old(owner) && old(owner)[Frame(Pte(old(mem), d, v))] == User(d, v)
      ensures owner == old(owner) - {Frame(Pte(old(mem), d, v))} && ContentKept(old(mem), mem, owner)
    {
      hide Pool, Open, Linked, Pte, EntrySet, WithEntry, SameViews;
      TableInMemory(mem, dirs, owner, d, v / NENTRIES);
      EntryInTable(mem, d, v);
      var f := Frame(mem[t][v % NENTRIES]);
      UserInMemory(mem, dirs, owner, d, v);
      PoolRange(first, |mem|, freelist, owner, f);
      PageWrite(mem, dirs, owner, f, Junk());
      panicked := Kfree(f);
      ghost var mid := mem;
      ViewAt(old(mem), mid, dirs, d, v);
      SetEntry(mid, dirs, owner, d, v, 0);
      Unmap(mid, WithEntry(mid, t, v % NENTRIES, 0), dirs, owner, d, v);
      mem := WithEntry(mem, t, v % NENTRIES, 0);
      PoolPush(first, |mem|, old(freelist), owner, f);
      owner := owner - {f};
      FreedContent(old(mem), mid, mem, old(owner), d, f, t, v);
      ViewsThenEntry(old(mem), mid, mem, dirs, d, v);
      EntryOpen(old(mem), mem, dirs, d, v, 0);
    }

    /**
     Shrink the user part of an address space. Where a whole table is missing the loop
     skips to the next one; the effect is that of visiting every page.
     */
    method Deallocuvm(d: nat, oldsz: nat, newsz: nat) returns (r: nat, panicked: bool)
      requires Valid() && d in dirs && oldsz <= USERPAGES * PGSIZE
      modifies `mem, `freelist, `owner
      ensures !panicked && Valid() && r == if newsz >= oldsz then oldsz else newsz
      ensures newsz >= oldsz ==> mem == old(mem) && freelist == old(freelist) && owner == old(owner)
      ensures newsz < oldsz ==>
                && Cleared(old(mem), mem, dirs, d, PageUp(newsz), PageUp(oldsz))
                && owner == Without(old(owner), d, PageUp(newsz), PageUp(oldsz))
                && ContentKept(old(mem), mem, owner)
    {
      hide Pool, Open, Linked, Pte, Pde, EntrySet, Cleared, Without, ContentKept, Frame, Present;
      panicked := false;
      if newsz >= oldsz {
        return oldsz, false;
      }
      var a, hi := PageUp(newsz), PageUp(oldsz);
      ghost var lo := a;
      DirInMemory(mem, dirs, owner, d);
      NothingCleared(mem, dirs, owner, d, lo);
      while a < hi
        invariant lo <= a <= USERPAGES && Valid() && !panicked && |mem| == |old(mem)|
        invariant Cleared(old(mem), mem, dirs, d, lo, Min(a, hi))
        invariant owner == Without(old(owner), d, lo, Min(a, hi))
        invariant ContentKept(old(mem), mem, owner)
      {
        var t := Walkpgdir(d, a, false);
        if t.None? {
          SkipTable(old(mem), mem, dirs, old(owner), d, lo, a, hi);
          a := (a / NENTRIES + 1) * NENTRIES;
        } else {
          EntryInTable(mem, d, a);
          if Present(mem[t.value][a % NENTRIES]) {
            ghost var mid, midOwner := mem, owner;
            panicked := FreePage(d, a, t.value);
            ClearedMore(old(mem), mid, mem, dirs, old(owner), midOwner, d, lo, a);
            ContentDrop(old(mem), mid, mem, midOwner, owner);
          } else {
            ClearedSkip(old(mem), mem, dirs, old(owner), owner, d, lo, a);
          }
          a := a + 1;
        }
      }
      r := newsz;
    }

    /** kfree of a frame that is in no address space. */
    method FreeLoose(f: nat) returns (panicked: bool)
      requires Valid() && f in owner && owner[f].Other?
      modifies `mem, `freelist, `owner
      ensures !panicked && Valid() && |mem| == |old(mem)| && mem == old(mem)[f := Junk()]
      ensures owner == old(owner) - {f} && SameFlat(old(mem), mem, dirs) && ContentKept(old(mem), mem, owner)
    {
      hide Pool, Open, Linked, Pte, SameViews;
      PoolRange(first, |mem|, freelist, owner, f);
      PageWrite(mem, dirs, owner, f, Junk());
      SameViewsOpen(mem, mem[f := Junk()], dirs);
      NothingMoved(mem, dirs, owner, f);
      FlatThenViews(mem, mem, mem[f := Junk()], dirs);
      PoolPush(first, |mem|, freelist, owner, f);
      Forget(mem[f := Junk()], dirs, owner, f);
      panicked := Kfree(f);
      owner := owner - {f};
    }

    /** Free an address space: its user pages, its tables, its directory. */
    method Freevm(d: nat) returns (panicked: bool)
      requires Valid() && d in dirs
      modifies `mem, `freelist, `dirs, `owner
      ensures !panicked && Valid() && |mem| == |old(mem)|
      ensures dirs == old(dirs) - {d} && owner == Strip(old(owner), d)
      ensures SameFlat(old(mem), mem, dirs) && ContentKept(old(mem), mem, owner)
    {
      hide Pool, Open, Linked, Pte, Cleared, Without, ContentKept, Frame, Present, Strip, Orphaned, SameFlat;
      var sz;
      sz, panicked := Deallocuvm(d, USERPAGES * PGSIZE, 0);
      ghost var mem1, own := mem, owner;
      DirInMemory(mem1, dirs, own, d);
      Orphan(mem1, dirs, own, d);
      AfterDealloc(old(mem), mem1, dirs, old(owner), d);
      dirs := dirs - {d};
      owner := Orphaned(own, d, 0);
      PoolRename(first, |mem|, freelist, own, owner);
      NothingMoved(mem, dirs, Strip(own, d), d);
      var i := 0;
      while i < NENTRIES
        invariant 0 <= i <= NENTRIES && Valid() && !panicked && |mem| == |mem1| && mem[d] == mem1[d]
        invariant dirs == old(dirs) - {d} && owner == Orphaned(own, d, i)
        invariant SameFlat(mem1, mem, dirs) && ContentKept(mem1, mem, Strip(own, d))
      {
        TableFrame(mem1, old(dirs), own, d, i);
        if Present(mem[d][i]) {
          JunkKeepsContent(mem1, mem, own, d, Frame(mem[d][i]));
          ghost var mid := mem;
          panicked := FreeLoose(Frame(mem[d][i]));
          FlatTrans(mem1, mid, mem, dirs);
        }
        i := i + 1;
      }
      LastFrame(mem1, old(dirs), own, d);
      JunkKeepsContent(mem1, mem, own, d, d);
      ghost var mid := mem;
      panicked := FreeLoose(d);
      FlatTrans(mem1, mid, mem, dirs);
      StripSame(old(mem), mem1, mem, old(dirs), old(owner), own, d);
    }

    /** kalloc a frame, fill it and map it at page v: the body of the loops that grow or copy a user part. */
    method AddPage(d: nat, v: nat, p: Page, perm: nat) returns (r: Outcome, f: Option<nat>)
      requires Valid() && d in dirs && v < USERPAGES && perm < PGSIZE
      modifies `mem, `freelist, `owner
      ensures Valid() && |mem| == |old(mem)| && ContentKept(old(mem), mem, old(owner))
      ensures f.None? ==> r == NoMemory && mem == old(mem) && owner == old(owner)
      ensures f.Some? ==> f.value !in old(owner) && f.value in owner && f.value < |mem| && f.value < NPAGES
                          && Extends(old(owner), owner - {f.value}, d)
      ensures r == Panicked <==> f.Some? && Present(Pte(old(mem), d, v))
      ensures r == Done ==> && f.Some? && mem[f.value] == p && owner[f.value] == User(d, v)
                            && MappedRange(old(mem), mem, dirs, d, v, v + 1, f.value, perm)
      ensures r != Done ==> SameFlat(old(mem), mem, dirs) && (f.Some? ==> owner[f.value] == Other)
      ensures f.None? <==> old(freelist) == []
      ensures r == NoMemory <==> |old(freelist)| < PageCost(Tables(old(mem), d), v)
      ensures r == Done ==> Spent(old(mem), |old(freelist)|, mem, |freelist|, d, {v / NENTRIES}, 1)
    {
      hide Pool, Open, Linked, Pte, SameFlat, ContentKept, MappedRange, OnlyFor, Extends, Tables, Covering, Spent;
      DirInMemory(mem, dirs, owner, d);
      NothingMoved(mem, dirs, owner, d);
      f := Kalloc();
      if f.None? {
        return NoMemory, None;
      }
      PageWrite(mem, dirs, owner, f.value, p);
      SameViewsOpen(mem, mem[f.value := p], dirs);
      FillLoose(mem, old(owner), f.value, p, dirs, d);
      mem := mem[f.value := p];
      ghost var mid, midOwner := mem, owner;
      OnePage(v, f.value);
      ghost var cut;
      r, cut := Mappages(d, v * PGSIZE, PGSIZE, f.value * PGSIZE, perm);
      OneSpent(old(mem), mid, |old(freelist)|, mem, |freelist|, dirs, d, v, r);
      FlatAt(old(mem), mid, dirs, d, v);
      MappedAfterFill(old(mem), mid, mem, dirs, d, v, cut, f.value, perm);
      PageMapped(mid, mem, dirs, old(owner), midOwner, owner, d, v, cut, f.value, perm);
      ContentAfterFill(old(mem), mid, mem, old(owner), midOwner, f.value, p);
    }

    /**
     Grow the user part from oldsz to newsz with zeroed pages. It needs a frame for each page
     and for each missing table. When they run out every page of the range is unmapped again, which
     undoes the growth if the range was vacant before; a page in the way is a panic.
     */
    method Allocuvm(d: nat, oldsz: nat, newsz: nat) returns (r: nat, panicked: bool)
      requires Valid() && d in dirs
      modifies `mem, `freelist, `owner
      ensures newsz >= USERPAGES * PGSIZE || newsz < oldsz ==>
                && !panicked && mem == old(mem) && freelist == old(freelist) && owner == old(owner)
                && r == if newsz >= USERPAGES * PGSIZE then 0 else oldsz
      ensures panicked <==> oldsz <= newsz < USERPAGES * PGSIZE
                            && InTheWay(old(mem), d, PageUp(oldsz), PageUp(newsz), |old(freelist)|)
      ensures !panicked ==> Valid() && |mem| == |old(mem)|
      ensures !panicked && oldsz <= newsz < USERPAGES * PGSIZE ==>
                var lo, hi := PageUp(oldsz), PageUp(newsz);
                if Vacant(old(mem), d, lo, hi) && GrowCost(Tables(old(mem), d), lo, hi) <= |old(freelist)| then
                  && r == newsz && Grown(old(mem), mem, dirs, d, lo, hi) && Extends(old(owner), owner, d)
                  && ContentKept(old(mem), mem, old(owner))
                else
                  && r == 0 && Ungrown(old(mem), mem, dirs, d, lo, hi)
                  && TablesOnly(Without(old(owner), d, lo, hi), owner, d)
                  && ContentKept(old(mem), mem, Without(old(owner), d, lo, hi))
    {
      hide Pool, Open, Linked, Pte, SameFlat, ContentKept, MappedRange, Extends, Cleared, Without, Grown, Ungrown,
           TablesOnly, Vacant,
           Spent, Tables, Covering, GrowCost, InTheWay;
      panicked := false;
      if newsz >= USERPAGES * PGSIZE {
        return 0, false;
      }
      if newsz < oldsz {
        return oldsz, false;
      }
      var a, hi := PageUp(oldsz), PageUp(newsz);
      ghost var lo, tables := a, Tables(mem, d);
      DirInMemory(mem, dirs, owner, d);
      NothingMoved(mem, dirs, owner, d);
      NothingGrown(mem, dirs, owner, d, lo);
      NothingSpent(mem, |freelist|, d, lo);
      NoPages(mem, d, lo);
      while a < hi
        invariant lo <= a <= hi <= USERPAGES && Valid() && |mem| == |old(mem)| && !panicked
        invariant Grown(old(mem), mem, dirs, d, lo, a) && Extends(old(owner), owner, d) && Vacant(old(mem), d, lo, a)
        invariant ContentKept(old(mem), mem, old(owner))
        invariant Spent(old(mem), |old(freelist)|, mem, |freelist|, d, Covering(lo, a), a - lo)
      {
        ghost var mid, midOwner, midFree := mem, owner, |freelist|;
        SpentIs(old(mem), |old(freelist)|, mid, midFree, d, lo, a);
        PageStill(old(mem), mid, dirs, d, lo, a);
        GrowCostNext(tables, lo, a);
        var res, f := AddPage(d, a, ZeroPage(), PTE_W + PTE_U);
        if res == Panicked {
          FoundInTheWay(old(mem), d, lo, a, hi, |old(freelist)|);
          return 0, true;
        }
        ContentExtends(old(mem), mid, mem, old(owner), midOwner, d);
        if res != Done {
          RanOut(old(mem), d, lo, a, hi, |old(freelist)|);
          panicked := GiveUp(d, oldsz, newsz, a, f, mid, midOwner, old(mem), old(owner));
          return 0, panicked;
        }
        GrownMore(old(mem), mid, mem, dirs, midOwner, d, lo, a, f.value);
        ExtendsMore(old(owner), midOwner, owner, d, f.value);
        VacantMore(old(mem), d, lo, a);
        CoveringNext(lo, a);
        SpentMore(old(mem), |old(freelist)|, mid, midFree, mem, |freelist|, d, Covering(lo, a), {a / NENTRIES}, a - lo,
                  1);
        a := a + 1;
      }
      SpentIs(old(mem), |old(freelist)|, mem, |freelist|, d, lo, hi);
      NoneInTheWay(old(mem), d, lo, hi, |old(freelist)|);
      r := newsz;
    }

    /** The failing exits of allocuvm: unmap the whole range and give back the frame in hand. */
    method GiveUp(d: nat, oldsz: nat, newsz: nat, ghost a: nat, f: Option<nat>, ghost mid: Memory,
                  ghost midOwner: map<nat, Use>,
                  ghost mem0: Memory, ghost owner0: map<nat, Use>) returns (panicked: bool)
      requires Valid() && d in dirs && oldsz <= newsz < USERPAGES * PGSIZE && PageUp(oldsz) <= a < PageUp(newsz)
      requires Linked(mem0, dirs, owner0) && Grown(mem0, mid, dirs, d, PageUp(oldsz), a) && Extends(owner0, midOwner, d)
      requires SameFlat(mid, mem, dirs) && ContentKept(mem0, mem, owner0)
      requires f.None? ==> owner == midOwner
      requires f.Some? ==> f.value !in midOwner && f.value in owner && owner[f.value].Other?
                           && Extends(midOwner, owner - {f.value}, d)
      modifies `mem, `freelist, `owner
      ensures var lo, hi := PageUp(oldsz), PageUp(newsz);
              && !panicked && Valid() && |mem| == |mem0| && Ungrown(mem0, mem, dirs, d, lo, hi)
              && TablesOnly(Without(owner0, d, lo, hi), owner, d) && ContentKept(mem0, mem, Without(owner0, d, lo, hi))
    {
      hide Pool, Open, Linked, Pte, SameFlat, ContentKept, Extends, Cleared, Without, Grown, Ungrown, TablesOnly;
      ghost var lo, hi := PageUp(oldsz), PageUp(newsz);
      DirInMemory(mem0, dirs, owner0, d);
      NothingGrown(mid, dirs, midOwner, d, lo);
      ghost var mem1, owner1 := mem, owner;
      var sz;
      sz, panicked := Deallocuvm(d, newsz, oldsz);
      ghost var mem2 := mem;
      Undone(mem0, mid, mem1, mem2, dirs, d, lo, a, hi);
      ghost var g := if f.Some? then {f.value} else {};
      assert f.None? ==> owner1 - g == midOwner && owner - g == owner;
      NoMoreThanTables(mem0, mem2, dirs, owner0, midOwner, owner1, g, d, lo, hi);
      ContentPart(mem0, mem1, owner0, d, lo, hi);
      ContentUndone(mem0, mem1, mem2, Without(owner0, d, lo, hi), owner);
      if f.Some? {
        panicked := FreeLoose(f.value);
        UngrownThenFlat(mem0, mem2, mem, dirs, d, lo, hi);
        ContentUndone(mem0, mem2, mem, Without(owner0, d, lo, hi), owner);
      }
    }

    /** An empty directory. */
    method NewSpace(ghost data: Word) returns (r: Option<nat>)
      requires Valid()
      modifies `mem, `freelist, `dirs, `owner
      ensures Valid() && SameFlat(old(mem), mem, old(dirs)) && ContentKept(old(mem), mem, old(owner))
      ensures r.None? <==> old(freelist) == []
      ensures r.None? ==> dirs == old(dirs) && owner == old(owner) && |mem| == |old(mem)|
      ensures r.Some? ==> && r.value !in old(owner) && r.value !in old(dirs) && dirs == old(dirs) + {r.value}
                          && owner == old(owner)[r.value := Dir(r.value)]
                          && |mem| == |old(mem)| && |freelist| + 1 == |old(freelist)|
                          && OnlyFor(old(owner), owner, r.value)
                          && KernelView(mem, r.value, data, 0x8_0000) && Tables(mem, r.value) == {}
    {
      hide Pool, Open, Linked, Pte, SameFlat, ContentKept, OnlyFor, KernelView, Tables;
      NothingMoved(mem, dirs, owner, 0);
      r := Kalloc();
      if r.None? {
        return;
      }
      var d := r.value;
      PageWrite(mem, dirs, owner, d, ZeroPage());
      SameViewsOpen(mem, mem[d := ZeroPage()], dirs);
      FillLoose(mem, old(owner), d, ZeroPage(), dirs, d);
      NewDir(mem[d := ZeroPage()], dirs, owner, d);
      mem := mem[d := ZeroPage()];
      dirs := dirs + {d};
      owner := owner[d := Dir(d)];
      PoolRename(first, |mem|, freelist, old(owner)[d := Other], owner);
      assert owner == old(owner)[d := Dir(d)];
      NewFrameFor(old(owner), d, Dir(d), d);
      NewView(mem, d, data);
      DirsOwned(old(mem), old(dirs), old(owner), d);
    }

    /** A new address space with the kernel's mappings and an empty user part, or none and nothing taken. */
    method Setupkvm(data: Word) returns (r: Option<nat>, panicked: bool)
      requires Valid() && KernelData(data)
      modifies `mem, `freelist, `dirs, `owner
      ensures !panicked && Valid() && |mem| == |old(mem)|
      ensures SameFlat(old(mem), mem, old(dirs)) && ContentKept(old(mem), mem, old(owner))
      ensures r.Some? <==> KERNELFRAMES <= |old(freelist)|
      ensures r.None? ==> dirs == old(dirs) && owner == old(owner)
      ensures r.Some? ==> && r.value !in old(owner) && dirs == old(dirs) + {r.value}
                          && Extends(old(owner), owner, r.value) && KernelView(mem, r.value, data, NPAGES)
                          && Tables(mem, r.value) == KernelTables() && |freelist| + KERNELFRAMES == |old(freelist)|
    {
      hide Pool, Open, Linked, Pte, SameFlat, ContentKept, MappedRange, OnlyFor, Extends, KernelView, Strip, Kmaps,
           Tables, Spent, Covering, KernelTables;
      panicked := false;
      r := NewSpace(data);
      if r.None? {
        return;
      }
      var d := r.value;
      if 0x8000_0000 + PHYSTOP > DEVSPACE {
        return None, true;
      }
      var k := 0;
      KmapCount(data);
      while k < |Kmaps(data)|
        invariant 0 <= k <= |Kmaps(data)| == 4 && Valid() && |mem| == |old(mem)| && !panicked
        invariant dirs == old(dirs) + {d} && OnlyFor(old(owner), owner, d)
        invariant SameFlat(old(mem), mem, old(dirs)) && ContentKept(old(mem), mem, old(owner))
        invariant KernelView(mem, d, data, KmapStart(data, k))
        invariant Tables(mem, d) <= KernelTables() && |freelist| + 1 + |Tables(mem, d)| == |old(freelist)|
      {
        var res := MapRow(d, data, k, old(mem), old(dirs), old(owner));
        if res == Panicked {
          return None, true;
        }
        if res == NoMemory {
          ghost var mem1 := mem;
          StripNew(mem1, dirs, old(mem), old(dirs), old(owner), owner, d);
          panicked := Freevm(d);
          assert dirs == old(dirs);
          FlatTrans(old(mem), mem1, mem, dirs);
          ContentDrop(old(mem), mem1, mem, old(owner), owner);
          return None, panicked;
        }
        k := k + 1;
      }
      KernelOnly(mem, d, data, NPAGES);
      NoUserYet(mem, dirs, old(owner), owner, d);
      AllKernelTables(mem, d, data);
    }

    /** One round of setupkvm's loop. */
    method MapRow(d: nat, data: Word, k: nat, ghost mem0: Memory, ghost dirs0: set<nat>, ghost owner0: map<nat, Use>)
        returns (res: Outcome)
      requires Valid() && KernelData(data) && k < 4 && d !in dirs0 && dirs == dirs0 + {d} && OnlyFor(owner0, owner, d)
      requires SameFlat(mem0, mem, dirs0) && ContentKept(mem0, mem, owner0)
               && KernelView(mem, d, data, KmapStart(data, k))
      requires Tables(mem, d) <= KernelTables()
      modifies `mem, `freelist, `owner
      ensures res != Panicked && Valid() && |mem| == |old(mem)| && OnlyFor(owner0, owner, d)
      ensures SameFlat(mem0, mem, dirs0) && ContentKept(mem0, mem, owner0)
      ensures Tables(mem, d) <= KernelTables()
              && |freelist| + |Tables(mem, d)| == |old(freelist)| + |Tables(old(mem), d)|
      ensures res == Done ==> KernelView(mem, d, data, KmapStart(data, k + 1))
      ensures res == NoMemory ==> freelist == [] && |Tables(mem, d)| + 1 < KERNELFRAMES && NoUserPages(mem, d)
    {
      hide Pool, Open, Linked, Pte, SameFlat, ContentKept, MappedRange, OnlyFor, KernelView, Kmaps, Tables, Covering,
           KernelTables, NoUserPages;
      KmapCount(data);
      var m := Kmaps(data)[k];
      KmapRange(data, k);
      ghost var mid, midOwner := mem, owner;
      ghost var cut;
      res, cut := Mappages(d, m.virt, Wrap(m.end - m.start), m.start, m.perm);
      OnlyForTrans(owner0, midOwner, owner, d);
      ContentTrans(mem0, mid, mem, owner0, midOwner, d);
      OthersFlat(mem0, mid, mem, dirs0, d, m.virt / PGSIZE, cut, m.start / PGSIZE, m.perm);
      KernelMore(mid, mem, dirs, d, data, k, cut);
      RowTables(data, k, cut);
      if res == NoMemory {
        KernelTablesCount();
        OneShort(Tables(mem, d), KernelTables(), cut / NENTRIES);
      }
    }

    /**
     A child with the parent's user pages copied to frames of its own, or none and nothing taken. It
     needs the frames of setupkvm, one for each page and one for each user table; a page that is not
     there when its turn comes is a panic.
     */
    method Copyuvm(d: nat, sz: nat, data: Word) returns (r: Option<nat>, panicked: bool)
      requires Valid() && d in dirs && d < |mem| && sz <= USERPAGES * PGSIZE && KernelData(data)
      modifies `mem, `freelist, `dirs, `owner
      ensures panicked <==> Gap(old(mem), d, PageUp(sz), |old(freelist)|)
      ensures !panicked ==> && Valid() && |mem| == |old(mem)| && SameFlat(old(mem), mem, old(dirs))
                            && ContentKept(old(mem), mem, old(owner))
                            && (r.Some? <==> CopyCost(PageUp(sz)) <= |old(freelist)|)
      ensures !panicked && r.None? ==> dirs == old(dirs) && owner == old(owner)
      ensures !panicked && r.Some? ==> && r.value !in old(owner) && dirs == old(dirs) + {r.value}
                                       && Extends(old(owner), owner, r.value)
                                       && Copied(old(mem), mem, d, r.value, data, PageUp(sz))
    {
      hide Pool, Open, Linked, Pte, SameFlat, ContentKept, MappedRange, Extends, Copied, KernelView, Strip, Frame,
           Present,
           Tables, Spent, Covering, KernelTables, CopyCost, Gap;
      r, panicked := Setupkvm(data);
      DirInMemory(old(mem), old(dirs), old(owner), d);
      if r.None? {
        NeverCopied(old(mem), d, PageUp(sz), |old(freelist)|);
        return None, panicked;
      }
      var c := r.value;
      NothingCopied(old(mem), mem, d, c, data);
      DirsOwned(old(mem), old(dirs), old(owner), c);
      NotInUse(old(mem), old(dirs), old(owner), c);
      ghost var mem1, free1 := mem, |freelist|;
      NothingSpent(mem, |freelist|, c, 0);
      var i := 0;
      while i < PageUp(sz)
        invariant 0 <= i <= PageUp(sz) <= USERPAGES && Valid() && |mem| == |old(mem)| && !panicked
        invariant dirs == old(dirs) + {c} && Extends(old(owner), owner, c)
        invariant SameFlat(old(mem), mem, old(dirs)) && ContentKept(old(mem), mem, old(owner))
        invariant Copied(old(mem), mem, d, c, data, i) && Spent(mem1, free1, mem, |freelist|, c, Covering(0, i), i)
      {
        PaidSoFar(mem1, free1, mem, |freelist|, c, i);
        var t := Walkpgdir(d, i, false);
        FlatAt(old(mem), mem, old(dirs), d, i);
        if t.None? {
          NoTable(mem, d, i);
          ZeroNotPresent();
          GapAt(old(mem), mem, d, c, data, i, PageUp(sz), |old(freelist)|);
          return None, true;
        }
        EntryInTable(mem, d, i);
        var pte := mem[t.value][i % NENTRIES];
        if !Present(pte) {
          GapAt(old(mem), mem, d, c, data, i, PageUp(sz), |old(freelist)|);
          return None, true;
        }
        UserInMemory(mem, dirs, owner, d, i);
        ParentPage(old(mem), mem, old(dirs), old(owner), d, i);
        ChildVacant(old(mem), mem, d, c, data, i);
        ghost var mid, midOwner, midFree := mem, owner, |freelist|;
        var res, f := AddPage(c, i, mem[Frame(pte)], Flags(pte));
        ContentExtends(old(mem), mid, mem, old(owner), midOwner, c);
        if res != Done {
          FlatPart(mid, mem, old(dirs), c);
          FlatTrans(old(mem), mid, mem, old(dirs));
          CopyRanOut(old(mem), mid, d, c, data, i, PageUp(sz), |old(freelist)|);
          panicked := DropChild(c, f, midOwner, old(dirs), old(owner), old(mem));
          return None, panicked;
        }
        OthersFlat(old(mem), mid, mem, old(dirs), c, i, i + 1, f.value, Flags(pte));
        CopiedMore(old(mem), mid, mem, dirs, midOwner, d, c, data, i, f.value);
        ExtendsMore(old(owner), midOwner, owner, c, f.value);
        CoveringNext(0, i);
        SpentMore(mem1, free1, mid, midFree, mem, |freelist|, c, Covering(0, i), {i / NENTRIES}, i, 1);
        i := i + 1;
      }
      PaidSoFar(mem1, free1, mem, |freelist|, c, i);
      NoGap(old(mem), mem, d, c, data, i, |old(freelist)|);
      r := Some(c);
    }

    /** The bad exit of copyuvm: give back the frame in hand and free the child. */
    method DropChild(c: nat, f: Option<nat>, ghost midOwner: map<nat, Use>, ghost dirs0: set<nat>,
                     ghost owner0: map<nat, Use>, ghost mem0: Memory)
      returns (panicked: bool)
      requires Valid() && dirs == dirs0 + {c} && c !in dirs0 && Extends(owner0, midOwner, c)
      requires forall g | g in owner0 :: !OfDir(owner0[g], c)
      requires f.None? ==> owner == midOwner
      requires f.Some? ==> f.value !in midOwner && f.value in owner && owner[f.value].Other?
                           && Extends(midOwner, owner - {f.value}, c)
      requires SameFlat(mem0, mem, dirs0) && ContentKept(mem0, mem, owner0)
      modifies `mem, `freelist, `dirs, `owner
      ensures !panicked && Valid() && |mem| == |mem0| && dirs == dirs0 && owner == owner0
      ensures SameFlat(mem0, mem, dirs0) && ContentKept(mem0, mem, owner0)
    {
      hide Pool, Open, Linked, Pte, SameFlat, ContentKept, Extends, Strip;
      LengthKept(mem0, mem, dirs0);
      if f.Some? {
        ghost var mid := mem;
        ExtendsTrans(owner0, midOwner, owner - {f.value}, c);
        panicked := FreeLoose(f.value);
        FlatPart(mid, mem, dirs0, c);
        FlatTrans(mem0, mid, mem, dirs0);
        ExtendsKeys(owner0, owner, c);
        ContentUndone(mem0, mid, mem, owner0, owner);
      }
      ghost var mid := mem;
      StripExtends(owner0, owner, c);
      panicked := Freevm(c);
      assert dirs == dirs0;
      FlatTrans(mem0, mid, mem, dirs0);
      ContentUndone(mem0, mid, mem, owner0, owner);
      LengthKept(mem0, mem, dirs0);
    }

    /**
     Move the end of the user part by n bytes; newsz is the size recorded afterwards. The record
     stays right unless the call takes the size to exactly 0: then every page is freed, yet
     the call fails and the old size stays recorded.
     */
    method Growproc(d: nat, sz: nat, n: Int32) returns (newsz: nat, ok: bool, panicked: bool)
      requires Valid() && d in dirs && d < |mem| && sz < USERPAGES * PGSIZE
      requires Vacant(mem, d, PageUp(sz), USERPAGES)
      modifies `mem, `freelist, `owner
      ensures !panicked && Valid() && |mem| == |old(mem)| && newsz < USERPAGES * PGSIZE
              && (newsz == sz || newsz == sz + n)
      ensures Vacant(mem, d, PageUp(newsz), USERPAGES)
      ensures SameFlat(old(mem), mem, dirs - {d}) && SameBut(old(owner), owner, d)
              && OthersKept(old(mem), mem, old(owner), d)
      ensures Sized(old(mem), d, sz) ==> (Sized(mem, d, newsz) <==> n >= 0 || sz + n != 0)
      ensures !ok ==> newsz == sz && (n > 0 || sz == 0 || sz + n == 0)
      ensures n > 0 ==> (ok <==> sz + n < USERPAGES * PGSIZE
                                 && GrowCost(Tables(old(mem), d), PageUp(sz), PageUp(sz + n)) <= |old(freelist)|)
      ensures ok && n >= 0 ==> newsz == sz + n
      ensures ok && n < 0 ==> newsz == if sz + n < 0 then sz else sz + n
    {
      hide Pool, Open, Linked, Pte, SameFlat, ContentKept, Extends, Cleared, Without, Grown, Ungrown, TablesOnly,
           Vacant, Sized, SameBut, OthersKept,
           InTheWay, GrowCost, Tables;
      panicked := false;
      newsz := sz;
      Unmoved(mem, dirs, owner, d);
      if n > 0 {
        VacantPart(mem, d, PageUp(sz), PageUp(sz + n));
        if sz + n < USERPAGES * PGSIZE {
          NoneInTheWay(mem, d, PageUp(sz), PageUp(sz + n), |freelist|);
          VacantWithout(mem, dirs, owner, d, PageUp(sz), PageUp(sz + n));
        }
        newsz, panicked := Allocuvm(d, sz, sz + n);
        if sz + n < USERPAGES * PGSIZE {
          GrowEffect(old(mem), mem, dirs, old(owner), owner, d, sz, sz + n, newsz);
        }
        if newsz == 0 {
          return sz, false, panicked;
        }
      } else if n < 0 {
        var shrunk;
        shrunk, panicked := Deallocuvm(d, sz, Wrap(sz + n));
        if sz + n >= 0 {
          ShrinkEffect(old(mem), mem, dirs, old(owner), d, sz, sz + n);
        }
        if shrunk == 0 {
          if sz > 0 {
            ZeroSize(mem, d, sz);
          }
          return sz, false, panicked;
        }
        newsz := shrunk;
      }
      ok := true;
    }

    /** A whole life: set up, any sequence of growing and shrinking, free. The pool is what it was. */
    method Lifetime(data: Word, moves: seq<Int32>) returns (panicked: bool)
      requires Valid() && KernelData(data)
      modifies `mem, `freelist, `dirs, `owner
      ensures !panicked && Valid() && dirs == old(dirs) && owner == old(owner)
      ensures multiset(freelist) == multiset(old(freelist))
      ensures SameFlat(old(mem), mem, dirs) && ContentKept(old(mem), mem, owner)
    {
      hide Pool, Open, Linked, Pte, SameFlat, ContentKept, Extends, KernelView, Vacant, SameBut, OthersKept, Strip,
           Sized;
      var r;
      r, panicked := Setupkvm(data);
      if r.Some? {
        var d := r.value;
        DirsOwned(old(mem), old(dirs), old(owner), d);
        NotInUse(old(mem), old(dirs), old(owner), d);
        NewlyVacant(mem, old(owner), owner, d, data);
        var sz: nat, i := 0, 0;
        while i < |moves|
          invariant 0 <= i <= |moves| && Valid() && |mem| == |old(mem)| && !panicked && sz < USERPAGES * PGSIZE
          invariant dirs == old(dirs) + {d} && SameBut(old(owner), owner, d) && Vacant(mem, d, PageUp(sz), USERPAGES)
          invariant SameFlat(old(mem), mem, old(dirs)) && ContentKept(old(mem), mem, old(owner))
        {
          ghost var mid, midOwner := mem, owner;
          DirInMemory(mem, dirs, owner, d);
          var ok;
          sz, ok, panicked := Growproc(d, sz, moves[i]);
          assert dirs - {d} == old(dirs);
          FlatTrans(old(mem), mid, mem, old(dirs));
          SameButTrans(old(owner), midOwner, owner, d);
          ContentOthers(old(mem), mid, mem, old(owner), midOwner, d);
          i := i + 1;
        }
        ghost var mid := mem;
        StripSameBut(old(owner), owner, d);
        panicked := Freevm(d);
        assert dirs == old(dirs);
        FlatTrans(old(mem), mid, mem, dirs);
        ContentDrop(old(mem), mid, mem, old(owner), owner);
      }
      PoolDetermined(first, |mem|, old(freelist), freelist, owner);
    }
  }

  // ---------------------------------------------------------------- a process's size

  /** Pages below sz are mapped, and no user pages above. */
  ghost predicate Sized(mem: Memory, d: nat, sz: nat) {
    && d < |mem| && (forall v | 0 <= v < PageUp(sz) && v < USERPAGES :: Present(Pte(mem, d, v)))
    && Vacant(mem, d, PageUp(sz), USERPAGES)
  }

  /** Uses that have nothing to do with d are the same. */
  ghost predicate SameBut(owner: map<nat, Use>, owner': map<nat, Use>, d: nat) {
    && (forall f | f in owner && !OfDir(owner[f], d) :: f in owner' && owner'[f] == owner[f])
    && (forall f | f in owner' && !OfDir(owner'[f], d) :: f in owner && owner'[f] == owner[f])
  }

  /** Pages of others that are no directories or tables keep their contents. */
  ghost predicate OthersKept(mem: Memory, mem': Memory, owner: map<nat, Use>, d: nat) {
    |mem| == |mem'| && forall f | f in owner && f < |mem| && (owner[f].User? || owner[f].Other?)
                                  && !OfDir(owner[f], d) :: mem'[f] == mem[f]
  }

  lemma Unmoved(mem: Memory, dirs: set<nat>, owner: map<nat, Use>, d: nat)
    ensures SameFlat(mem, mem, dirs - {d}) && SameBut(owner, owner, d) && OthersKept(mem, mem, owner, d)
  {
  }

  lemma VacantPart(mem: Memory, d: nat, lo: nat, hi: nat)
    requires Vacant(mem, d, lo, USERPAGES)
    ensures hi <= USERPAGES ==> Vacant(mem, d, lo, hi)
  {
  }

  lemma GrowEffect(mem: Memory, mem': Memory, dirs: set<nat>, owner: map<nat, Use>, owner': map<nat, Use>, d: nat,
                   sz: nat, newsz: nat, r: nat)
    requires Vacant(mem, d, PageUp(sz), USERPAGES) && d in dirs && sz <= newsz < USERPAGES * PGSIZE
             && ContentKept(mem, mem', owner)
    requires if r == newsz then Grown(mem, mem', dirs, d, PageUp(sz), PageUp(newsz)) && Extends(owner, owner', d)
             else r == 0 && Ungrown(mem, mem', dirs, d, PageUp(sz), PageUp(newsz)) && TablesOnly(owner, owner', d)
    ensures Vacant(mem', d, PageUp(if r == newsz then newsz else sz), USERPAGES)
    ensures SameFlat(mem, mem', dirs - {d}) && SameBut(owner, owner', d) && OthersKept(mem, mem', owner, d)
    ensures Sized(mem, d, sz) ==> Sized(mem', d, if r == newsz then newsz else sz)
  {
    hide Pte, Flags;
    if r == newsz && Sized(mem, d, sz) {
      forall v | 0 <= v < PageUp(newsz) && v < USERPAGES
        ensures Present(Pte(mem', d, v))
      {
        if v < PageUp(sz) {
          assert Pte(mem', d, v) == Pte(mem, d, v);
        } else {
          assert ZeroMapped(mem', d, v);
        }
      }
    }
  }

  lemma ShrinkEffect(mem: Memory, mem': Memory, dirs: set<nat>, owner: map<nat, Use>, d: nat, sz: nat, newsz: nat)
    requires Vacant(mem, d, PageUp(sz), USERPAGES) && d in dirs && newsz <= sz < USERPAGES * PGSIZE
    requires Cleared(mem, mem', dirs, d, PageUp(newsz), PageUp(sz))
             && ContentKept(mem, mem', Without(owner, d, PageUp(newsz), PageUp(sz)))
    ensures Vacant(mem', d, PageUp(newsz), USERPAGES) && |mem| == |mem'|
    ensures SameFlat(mem, mem', dirs - {d}) && SameBut(owner, Without(owner, d, PageUp(newsz), PageUp(sz)), d)
    ensures OthersKept(mem, mem', owner, d) && (Sized(mem, d, sz) ==> Sized(mem', d, newsz))
  {
  }

  lemma ZeroSize(mem: Memory, d: nat, sz: nat)
    requires Vacant(mem, d, PageUp(0), USERPAGES) && 0 < sz < USERPAGES * PGSIZE
    ensures Vacant(mem, d, PageUp(sz), USERPAGES) && !Sized(mem, d, sz)
  {
    assert !Present(Pte(mem, d, 0));
  }

  lemma NewlyVacant(mem: Memory, owner: map<nat, Use>, owner': map<nat, Use>, d: nat, data: Word)
    requires KernelView(mem, d, data, NPAGES) && Extends(owner, owner', d) && forall f | f in owner ::
             !OfDir(owner[f], d)
    ensures Vacant(mem, d, PageUp(0), USERPAGES) && SameBut(owner, owner', d)
  {
  }

  lemma SameButTrans(a: map<nat, Use>, b: map<nat, Use>, c: map<nat, Use>, d: nat)
    requires SameBut(a, b, d) && SameBut(b, c, d)
    ensures SameBut(a, c, d)
  {
  }

  lemma ContentOthers(mem: Memory, mid: Memory, mem': Memory, owner: map<nat, Use>, midOwner: map<nat, Use>, d: nat)
    requires ContentKept(mem, mid, owner) && OthersKept(mid, mem', midOwner, d) && SameBut(owner, midOwner, d)
    requires forall f | f in owner :: !OfDir(owner[f], d)
    ensures ContentKept(mem, mem', owner)
  {
  }

  lemma StripSameBut(owner: map<nat, Use>, owner': map<nat, Use>, d: nat)
    requires SameBut(owner, owner', d) && forall f | f in owner :: !OfDir(owner[f], d)
    ensures Strip(owner', d) == owner
  {
  }

  /** The frames in use determine the free ones. */
  lemma PoolDetermined(first: nat, n: nat, a: seq<nat>, b: seq<nat>, owner: map<nat, Use>)
    requires Pool(first, n, a, owner) && Pool(first, n, b, owner)
    ensures multiset(a) == multiset(b)
  {
    forall f: nat
      ensures multiset(a)[f] == multiset(b)[f]
    {
      assert f in a <==> f in b;
      OnceEach(a, f);
      OnceEach(b, f);
    }
  }

  lemma {:induction false} OnceEach(s: seq<nat>, f: nat)
    requires NoDup(s)
    ensures multiset(s)[f] == if f in s then 1 else 0
  {
    if s != [] {
      assert s == [s[0]] + s[1..];
      OnceEach(s[1..], f);
    }
  }

  // ---------------------------------------------------------------- copying

  /** Page v of the child is mapped with the parent's flags and holds what the parent's page v held. */
  ghost predicate SamePage(mem: Memory, mem': Memory, d: nat, c: nat, v: nat)
    requires d < |mem| && c < |mem'| && v < NPAGES
  {
    var w, w' := Pte(mem, d, v), Pte(mem', c, v);
    && Present(w) && Present(w') && Flags(w') == Flags(w)
    && Frame(w) < |mem| && Frame(w') < |mem'| && mem'[Frame(w')] == mem[Frame(w)]
  }

  /**
   * Child c holds a copy of the parent's pages below upto; the rest of its user part is empty, its kernel part
   * standard.
   */
  ghost predicate Copied(mem: Memory, mem': Memory, d: nat, c: nat, data: Word, upto: nat) {
    && d < |mem| && c < |mem'| && upto <= USERPAGES
    && (forall v | 0 <= v < upto :: SamePage(mem, mem', d, c, v))
    && (forall v | upto <= v < NPAGES :: Pte(mem', c, v) == KernelPte(data, v))
  }

  /** The frames a copy of n pages takes. */
  ghost function CopyCost(n: nat): int {
    KERNELFRAMES + GrowCost(KernelTables(), 0, n)
  }

  /** Copying reaches a page that is not there before the frames run out. */
  ghost predicate Gap(mem: Memory, d: nat, n: nat, free: nat) {
    exists v | 0 <= v < n && v < NPAGES && d < |mem| ::
      !Present(Pte(mem, d, v)) && (forall u | 0 <= u < v :: Present(Pte(mem, d, u))) && CopyCost(v) <= free
  }

  lemma NeverCopied(mem: Memory, d: nat, n: nat, free: nat)
    requires free < KERNELFRAMES
    ensures !Gap(mem, d, n, free) && free < CopyCost(n)
  {
  }

  lemma PaidSoFar(mem: Memory, free: nat, mem': Memory, free': nat, c: nat, i: nat)
    requires Spent(mem, free, mem', free', c, Covering(0, i), i) && Tables(mem, c) == KernelTables() && i <= NPAGES
    ensures free + KERNELFRAMES == free' + CopyCost(i)
    ensures i < NPAGES ==> CopyCost(i + 1) == CopyCost(i) + PageCost(Tables(mem', c), i)
  {
    hide Tables, Covering, KernelTables;
    SpentIs(mem, free, mem', free', c, 0, i);
    if i < NPAGES {
      GrowCostNext(KernelTables(), 0, i);
    }
  }

  lemma CopiedPresent(mem: Memory, mid: Memory, d: nat, c: nat, data: Word, i: nat)
    requires Copied(mem, mid, d, c, data, i)
    ensures d < |mem| && forall u | 0 <= u < i :: Present(Pte(mem, d, u))
  {
    hide Pte;
    forall u | 0 <= u < i
      ensures Present(Pte(mem, d, u))
    {
      assert SamePage(mem, mid, d, c, u);
    }
  }

  lemma GapAt(mem: Memory, mid: Memory, d: nat, c: nat, data: Word, i: nat, n: nat, free: nat)
    requires Copied(mem, mid, d, c, data, i) && i < n <= USERPAGES && d < |mem| && !Present(Pte(mem, d, i))
             && CopyCost(i) <= free
    ensures Gap(mem, d, n, free)
  {
    hide Pte, CopyCost;
    CopiedPresent(mem, mid, d, c, data, i);
  }

  lemma CopyRanOut(mem: Memory, mid: Memory, d: nat, c: nat, data: Word, i: nat, n: nat, free: nat)
    requires Copied(mem, mid, d, c, data, i) && i < n <= USERPAGES && d < |mem| && Present(Pte(mem, d, i))
             && free < CopyCost(i + 1)
    ensures !Gap(mem, d, n, free) && free < CopyCost(n)
  {
    hide Pte, GrowCost, KernelTables;
    CopiedPresent(mem, mid, d, c, data, i);
    GrowCostMonotone(KernelTables(), 0, i + 1, n);
    forall v | i < v < n
      ensures free < CopyCost(v)
    {
      GrowCostMonotone(KernelTables(), 0, i + 1, v);
    }
  }

  lemma NoGap(mem: Memory, mid: Memory, d: nat, c: nat, data: Word, n: nat, free: nat)
    requires Copied(mem, mid, d, c, data, n)
    ensures !Gap(mem, d, n, free)
  {
    hide Pte, CopyCost;
    CopiedPresent(mem, mid, d, c, data, n);
  }

  lemma NothingCopied(mem: Memory, mem': Memory, d: nat, c: nat, data: Word)
    requires KernelView(mem', c, data, NPAGES) && d < |mem|
    ensures Copied(mem, mem', d, c, data, 0)
  {
  }

  lemma ZeroNotPresent()
    ensures !Present(0)
  {
  }

  lemma DirsOwned(mem: Memory, dirs: set<nat>, owner: map<nat, Use>, c: nat)
    requires Linked(mem, dirs, owner) && c !in owner
    ensures c !in dirs
  {
  }

  lemma ParentPage(mem: Memory, mid: Memory, dirs: set<nat>, owner: map<nat, Use>, d: nat, v: nat)
    requires Linked(mem, dirs, owner) && d in dirs && d < |mem| && v < USERPAGES && Present(Pte(mem, d, v))
             && ContentKept(mem, mid, owner)
    ensures Frame(Pte(mem, d, v)) < |mem| == |mid| && mid[Frame(Pte(mem, d, v))] == mem[Frame(Pte(mem, d, v))]
  {
  }

  lemma ChildVacant(mem: Memory, mid: Memory, d: nat, c: nat, data: Word, i: nat)
    requires Copied(mem, mid, d, c, data, i) && i < USERPAGES
    ensures c < |mid| && !Present(Pte(mid, c, i))
  {
  }

  lemma FlatPart(mem: Memory, mem': Memory, dirs: set<nat>, c: nat)
    requires SameFlat(mem, mem', dirs + {c})
    ensures SameFlat(mem, mem', dirs)
  {
  }

  lemma LengthKept(mem: Memory, mem': Memory, dirs: set<nat>)
    requires SameFlat(mem, mem', dirs)
    ensures |mem| == |mem'|
  {
  }

  lemma ExtendsTrans(a: map<nat, Use>, b: map<nat, Use>, c: map<nat, Use>, d: nat)
    requires Extends(a, b, d) && Extends(b, c, d)
    ensures Extends(a, c, d)
  {
  }

  lemma ExtendsKeys(a: map<nat, Use>, b: map<nat, Use>, d: nat)
    requires Extends(a, b, d)
    ensures forall f | f in a :: f in b && b[f] == a[f]
  {
  }

  lemma StripExtends(owner: map<nat, Use>, owner': map<nat, Use>, d: nat)
    requires Extends(owner, owner', d) && forall f | f in owner :: !OfDir(owner[f], d)
    ensures Strip(owner', d) == owner
  {
  }

  lemma CopiedMore(mem: Memory, mid: Memory, mem': Memory, dirs: set<nat>, midOwner: map<nat, Use>, d: nat, c: nat,
                   data: Word, i: nat, f: nat)
    requires Copied(mem, mid, d, c, data, i) && Linked(mid, dirs, midOwner) && c in dirs && i < USERPAGES
    requires Present(Pte(mem, d, i)) && Frame(Pte(mem, d, i)) < |mem|
    requires MappedRange(mid, mem', dirs, c, i, i + 1, f, Flags(Pte(mem, d, i))) && ContentKept(mid, mem', midOwner)
    requires f < |mem'| && mem'[f] == mem[Frame(Pte(mem, d, i))]
    ensures Copied(mem, mem', d, c, data, i + 1)
  {
    hide Pte, Pde, Entry, Linked, KernelPte;
    forall v | 0 <= v < i + 1
      ensures SamePage(mem, mem', d, c, v)
    {
      if v < i {
        assert SamePage(mem, mid, d, c, v);
        assert Pte(mem', c, v) == Pte(mid, c, v);
        UserInMemory(mid, dirs, midOwner, c, v);
      } else {
        assert Pte(mem', c, v) == Entry(f, Flags(Pte(mem, d, i)));
        OddFlags(Pte(mem, d, i));
      }
    }
  }

  lemma OddFlags(w: Word)
    ensures Present(w) ==> Flags(w) % 2 == 1
  {
  }

  // ---------------------------------------------------------------- the kernel part

  const PHYSTOP: nat := 0x0E00_0000
  const DEVSPACE: nat := 0xFE00_0000

  /** A row of the table of kernel mappings: a virtual address, physical bounds, permissions. */
  datatype Kmap = Kmap(virt: Word, start: Word, end: Word, perm: nat)

  /** data is where the kernel's writable data starts: page-aligned, past the text, below PHYSTOP. */
  predicate KernelData(data: Word) {
    data % PGSIZE == 0 && 0x8010_0000 < data < 0x8E00_0000
  }

  function Kmaps(data: Word): seq<Kmap>
    requires KernelData(data)
  {
    [Kmap(0x8000_0000, 0, 0x10_0000, PTE_W),
     Kmap(0x8010_0000, 0x10_0000, data - 0x8000_0000, 0),
     Kmap(data, data - 0x8000_0000, PHYSTOP, PTE_W),
     Kmap(DEVSPACE, DEVSPACE, 0, PTE_W)]
  }

  /**
   The kernel half of every address space: physical memory up to PHYSTOP above KERNBASE,
   writable but for the kernel text; the device space onto itself; nothing anywhere else.
   */
  function KernelPte(data: Word, v: nat): Word
    requires v < NPAGES
  {
    if 0x8_0000 <= v < 0x8_E000 then Entry(v - 0x8_0000, if 0x8_0100 <= v < data / PGSIZE then 0 else PTE_W)
    else if 0xF_E000 <= v then Entry(v, PTE_W)
    else 0
  }

  /** The mappings of d below page upto are the kernel's; from there on there are none. */
  ghost predicate KernelView(mem: Memory, d: nat, data: Word, upto: nat) {
    d < |mem| && forall v | 0 <= v < NPAGES :: Pte(mem, d, v) == if v < upto then KernelPte(data, v) else 0
  }

  /** Where the k-th row of the table starts. */
  function KmapStart(data: Word, k: nat): nat
    requires k <= 4
  {
    if k == 0 then 0x8_0000 else if k == 1 then 0x8_0100 else if k == 2 then data / PGSIZE
    else if k == 3 then 0xF_E000 else NPAGES
  }

  lemma KmapCount(data: Word)
    requires KernelData(data)
    ensures |Kmaps(data)| == 4
  {
  }

  lemma KmapRange(data: Word, k: nat)
    requires KernelData(data) && k < 4
    ensures var m := Kmaps(data)[k];
            var size := Wrap(m.end - m.start);
            && m.perm < PGSIZE && 0 < size && m.virt + size <= 0x1_0000_0000
            && m.virt / PGSIZE == KmapStart(data, k) >= USERPAGES
            && m.start / PGSIZE + (m.virt + size - 1) / PGSIZE - m.virt / PGSIZE < NPAGES
            && (m.virt + size - 1) / PGSIZE + 1 == (if k == 2 then 0x8_E000 else KmapStart(data, k + 1))
            && m.start / PGSIZE == (if k == 3 then m.virt / PGSIZE else m.virt / PGSIZE - 0x8_0000)
            && m.perm == (if k == 1 then 0 else PTE_W)
  {
  }

  lemma NewDir(mem: Memory, dirs: set<nat>, owner: map<nat, Use>, d: nat)
    requires Linked(mem, dirs, owner) && d in owner && owner[d].Other? && d < |mem| && mem[d] == ZeroPage()
    ensures Linked(mem, dirs + {d}, owner[d := Dir(d)]) && d !in dirs && (Open(mem, dirs) ==> Open(mem, dirs + {d}))
  {
  }

  lemma NewView(mem: Memory, d: nat, data: Word)
    requires d < |mem| && mem[d] == ZeroPage()
    ensures KernelView(mem, d, data, 0x8_0000) && Tables(mem, d) == {}
  {
  }

  lemma OthersFlat(mem: Memory, mid: Memory, mem': Memory, dirs: set<nat>, d: nat, v: nat, cut: nat, f: nat, perm: nat)
    requires SameFlat(mem, mid, dirs) && MappedRange(mid, mem', dirs + {d}, d, v, cut, f, perm) && d !in dirs
    ensures SameFlat(mem, mem', dirs)
  {
  }

  /** Mapping the k-th row as far as page cut extends the kernel view that far. */
  lemma KernelMore(mid: Memory, mem': Memory, dirs: set<nat>, d: nat, data: Word, k: nat, cut: nat)
    requires KernelData(data) && k < 4 && d in dirs && KernelView(mid, d, data, KmapStart(data, k))
    requires var m := Kmaps(data)[k]; MappedRange(mid, mem', dirs, d, KmapStart(data, k), cut, m.start / PGSIZE, m.perm)
    requires var m := Kmaps(data)[k]; cut <= (m.virt + Wrap(m.end - m.start) - 1) / PGSIZE + 1
    ensures KernelView(mem', d, data, cut) && NoUserPages(mem', d)
    ensures cut == 0x8_E000 ==> KernelView(mem', d, data, 0xF_E000)
    ensures var m := Kmaps(data)[k]; cut <= (m.virt + Wrap(m.end - m.start) - 1) / PGSIZE ==> !Present(Pte(mid, d, cut))
  {
    hide Pte, Entry;
    KmapRange(data, k);
    ZeroNotPresent();
  }

  /** The tables of the kernel part, and the frames of an address space without user pages: they and the directory. */
  const KERNELFRAMES: nat := 65

  ghost function KernelTables(): set<nat> {
    Covering(0x8_0000, 0x8_E000) + Covering(0xF_E000, NPAGES)
  }

  lemma {:induction false} RangeSize(s: set<nat>, lo: nat, hi: nat)
    requires lo <= hi && forall i: nat :: i in s <==> lo <= i < hi
    ensures |s| == hi - lo
    decreases hi
  {
    if lo < hi {
      RangeSize(s - {hi - 1}, lo, hi - 1);
    } else {
      assert s == {};
    }
  }

  lemma KernelTablesCount()
    ensures |KernelTables()| + 1 == KERNELFRAMES && forall i | i in KernelTables() :: USERPAGES / NENTRIES <= i
  {
    var a, b := Covering(0x8_0000, 0x8_E000), Covering(0xF_E000, NPAGES);
    RangeSize(a, 512, 568);
    RangeSize(b, 1016, 1024);
    assert a !! b;
  }

  lemma OneShort(a: set<nat>, b: set<nat>, x: nat)
    requires a <= b && x in b && x !in a
    ensures |a| < |b|
  {
    SubsetSize(a, b - {x});
  }

  /** The tables a row of kernel mappings needs are the kernel's. */
  lemma RowTables(data: Word, k: nat, cut: nat)
    requires KernelData(data) && k < 4
    ensures var m := Kmaps(data)[k];
            var end := (m.virt + Wrap(m.end - m.start) - 1) / PGSIZE + 1;
            m.virt / PGSIZE <= cut <= end ==>
              && Covering(m.virt / PGSIZE, cut) <= KernelTables()
              && (cut < end ==> cut / NENTRIES in KernelTables())
  {
    KmapRange(data, k);
    hide Kmaps;
    if cut < 0x10_0000 && KmapStart(data, k) <= cut {
      DivMonotone(KmapStart(data, k), cut);
    }
  }

  lemma DivMonotone(a: nat, b: nat)
    requires a <= b
    ensures a / NENTRIES <= b / NENTRIES
  {
  }

  lemma AllKernelTables(mem: Memory, d: nat, data: Word)
    requires KernelView(mem, d, data, NPAGES) && Tables(mem, d) <= KernelTables()
    ensures Tables(mem, d) == KernelTables() && |Tables(mem, d)| + 1 == KERNELFRAMES
  {
    forall i | i in KernelTables()
      ensures i in Tables(mem, d)
    {
      var v := i * NENTRIES;
      assert v / NENTRIES == i;
      assert Present(KernelPte(data, v));
    }
    KernelTablesCount();
  }

  ghost predicate NoUserPages(mem: Memory, d: nat) {
    d < |mem| && forall v | 0 <= v < USERPAGES :: Pte(mem, d, v) == 0
  }

  lemma KernelOnly(mem: Memory, d: nat, data: Word, upto: nat)
    requires KernelView(mem, d, data, upto)
    ensures NoUserPages(mem, d)
  {
  }

  /** The user part is empty, so no frame can have become a user page. */
  lemma NoUserYet(mem: Memory, dirs: set<nat>, owner: map<nat, Use>, owner': map<nat, Use>, d: nat)
    requires Linked(mem, dirs, owner') && NoUserPages(mem, d) && OnlyFor(owner, owner', d)
    ensures Extends(owner, owner', d)
  {
    hide Linked, Pte, Pde, Entry;
    assert !Present(0);
    forall f | f in owner
      ensures f in owner' && owner'[f] == owner[f]
    {
      UseAt(mem, dirs, owner', f);
    }
  }

  lemma StripNew(mem1: Memory, dirs1: set<nat>, mem: Memory, dirs: set<nat>, owner: map<nat, Use>, owner1: map<nat,
                 Use>, d: nat)
    requires Linked(mem1, dirs1, owner1) && NoUserPages(mem1, d) && OnlyFor(owner, owner1, d)
    requires Linked(mem, dirs, owner) && d !in dirs
    ensures Strip(owner1, d) == owner
  {
    hide Linked, NoUserPages;
    NoUserYet(mem1, dirs1, owner, owner1, d);
    NotInUse(mem, dirs, owner, d);
  }

  lemma NotInUse(mem: Memory, dirs: set<nat>, owner: map<nat, Use>, d: nat)
    requires Linked(mem, dirs, owner) && d !in dirs
    ensures forall f | f in owner :: !OfDir(owner[f], d)
  {
  }

  // ---------------------------------------------------------------- growing

  /** From owner to owner', frames were taken for address space d and nothing else changed. */
  ghost predicate Extends(owner: map<nat, Use>, owner': map<nat, Use>, d: nat) {
    && (forall f | f in owner :: f in owner' && owner'[f] == owner[f])
    && (forall f | f in owner' && f !in owner :: OfDir(owner'[f], d))
  }

  lemma OnePage(v: nat, f: nat)
    requires v < NPAGES && f < NPAGES
    ensures v * PGSIZE + PGSIZE <= 0x1_0000_0000 && f * PGSIZE < 0x1_0000_0000
    ensures v * PGSIZE / PGSIZE == v && (v * PGSIZE + PGSIZE - 1) / PGSIZE == v && f * PGSIZE / PGSIZE == f
  {
  }

  lemma FillLoose(mem: Memory, owner: map<nat, Use>, f: nat, p: Page, dirs: set<nat>, d: nat)
    requires f < |mem| && f !in owner && SameViews(mem, mem[f := p], dirs)
    ensures SameFlat(mem, mem[f := p], dirs) && ContentKept(mem, mem[f := p], owner)
  {
  }

  lemma MappedAfterFill(mem: Memory, mid: Memory, mem': Memory, dirs: set<nat>, d: nat, v: nat, cut: nat, f: nat,
                        perm: nat)
    requires SameFlat(mem, mid, dirs) && MappedRange(mid, mem', dirs, d, v, cut, f, perm) && v <= cut <= v + 1
    ensures MappedRange(mem, mem', dirs, d, v, cut, f, perm)
    ensures cut == v ==> SameFlat(mem, mem', dirs)
  {
  }

  lemma UseAt(mem: Memory, dirs: set<nat>, owner: map<nat, Use>, f: nat)
    requires Linked(mem, dirs, owner) && f in owner
    ensures UseOk(mem, dirs, f, owner[f])
  {
  }

  /** A user page of d after mapping one page is that page or was one before. */
  lemma UserWas(mid: Memory, mem': Memory, dirs: set<nat>, midOwner: map<nat, Use>, owner': map<nat, Use>, d: nat,
                v: nat, cut: nat,
                f: nat, perm: nat, g: nat)
    requires Linked(mid, dirs, midOwner) && Linked(mem', dirs, owner')
             && MappedRange(mid, mem', dirs, d, v, cut, f, perm)
    requires d in dirs && v < USERPAGES && v <= cut <= v + 1 && g in owner' && owner'[g].User? && owner'[g].d == d
    ensures g == f || (g in midOwner && midOwner[g] == owner'[g])
  {
  }

  /** Only the new frame can have become a user page. */
  lemma PageMapped(mid: Memory, mem': Memory, dirs: set<nat>, owner: map<nat, Use>, midOwner: map<nat, Use>,
                   owner': map<nat, Use>,
                   d: nat, v: nat, cut: nat, f: nat, perm: nat)
    requires Linked(mid, dirs, midOwner) && Linked(mem', dirs, owner') && OnlyFor(midOwner, owner', d)
    requires f !in owner && midOwner == owner[f := Other] && d in dirs && v < USERPAGES
    requires MappedRange(mid, mem', dirs, d, v, cut, f, perm) && v <= cut <= v + 1
    ensures f in owner' && Extends(owner, owner' - {f}, d)
  {
    hide Linked, MappedRange;
    forall g | g in owner
      ensures g in owner' && owner'[g] == owner[g]
    {
      assert g in midOwner && g != f && midOwner[g] == owner[g];
      if owner'[g].User? && owner'[g].d == d {
        UserWas(mid, mem', dirs, midOwner, owner', d, v, cut, f, perm, g);
      }
    }
  }

  lemma ContentAfterFill(mem: Memory, mid: Memory, mem': Memory, owner: map<nat, Use>, midOwner: map<nat, Use>, f: nat,
                         p: Page)
    requires f < |mem| && f !in owner && mid == mem[f := p] && midOwner == owner[f := Other]
             && ContentKept(mid, mem', midOwner)
    ensures ContentKept(mem, mem', owner) && mem'[f] == p
  {
  }

  ghost predicate Vacant(mem: Memory, d: nat, lo: nat, hi: nat) {
    d < |mem| && forall v | lo <= v < hi && v < NPAGES :: !Present(Pte(mem, d, v))
  }

  /** Pages lo..hi-1 of d are mapped, writable and accessible to the user, and read as zeros; the rest is as before. */
  ghost predicate Grown(mem: Memory, mem': Memory, dirs: set<nat>, d: nat, lo: nat, hi: nat) {
    && |mem| == |mem'|
    && (forall e, u | e in dirs && e < |mem| && 0 <= u < NPAGES && !(e == d && lo <= u < hi) ::
        Pte(mem', e, u) == Pte(mem, e, u))
    && (d < |mem| ==> forall u | lo <= u < hi && u < NPAGES :: ZeroMapped(mem', d, u))
  }

  ghost predicate ZeroMapped(mem: Memory, d: nat, u: nat)
    requires d < |mem| && u < NPAGES
  {
    var w := Pte(mem, d, u);
    Present(w) && Flags(w) == 7 && Frame(w) < |mem| && mem[Frame(w)] == ZeroPage()
  }

  /** As before everywhere, with nothing mapped at pages lo..hi-1 of d. */
  ghost predicate Ungrown(mem: Memory, mem': Memory, dirs: set<nat>, d: nat, lo: nat, hi: nat) {
    && |mem| == |mem'| && Vacant(mem', d, lo, hi)
    && (forall e, u | e in dirs && e < |mem| && 0 <= u < NPAGES && !(e == d && lo <= u < hi) ::
        Pte(mem', e, u) == Pte(mem, e, u))
  }

  ghost predicate TablesOnly(owner: map<nat, Use>, owner': map<nat, Use>, d: nat) {
    && (forall f | f in owner :: f in owner' && owner'[f] == owner[f])
    && (forall f | f in owner' && f !in owner :: owner'[f].Table? && owner'[f].d == d)
  }

  lemma NothingGrown(mem: Memory, dirs: set<nat>, owner: map<nat, Use>, d: nat, lo: nat)
    ensures Grown(mem, mem, dirs, d, lo, lo) && Extends(owner, owner, d)
  {
  }

  /** Growing meets a page that is mapped already, before the frames run out. */
  ghost predicate InTheWay(mem: Memory, d: nat, lo: nat, hi: nat, free: nat) {
    exists a | lo <= a < hi && a < NPAGES && d < |mem| ::
      Present(Pte(mem, d, a)) && Vacant(mem, d, lo, a) && GrowCost(Tables(mem, d), lo, a) < free
  }

  lemma PageStill(mem: Memory, mid: Memory, dirs: set<nat>, d: nat, lo: nat, a: nat)
    requires Grown(mem, mid, dirs, d, lo, a) && d in dirs && d < |mem| && lo <= a < NPAGES
    ensures d < |mid| && Pte(mid, d, a) == Pte(mem, d, a)
  {
  }

  lemma NoPages(mem: Memory, d: nat, lo: nat)
    requires d < |mem|
    ensures Vacant(mem, d, lo, lo)
  {
  }

  lemma VacantMore(mem: Memory, d: nat, lo: nat, a: nat)
    requires Vacant(mem, d, lo, a) && d < |mem| && a < NPAGES && !Present(Pte(mem, d, a))
    ensures Vacant(mem, d, lo, a + 1)
  {
  }

  lemma FoundInTheWay(mem: Memory, d: nat, lo: nat, a: nat, hi: nat, free: nat)
    requires d < |mem| && lo <= a < hi <= NPAGES && Vacant(mem, d, lo, a) && Present(Pte(mem, d, a))
             && GrowCost(Tables(mem, d), lo, a) < free
    ensures InTheWay(mem, d, lo, hi, free)
  {
  }

  /** When the frames run out at page a, no page was in the way, and the whole range would not have fitted. */
  lemma RanOut(mem: Memory, d: nat, lo: nat, a: nat, hi: nat, free: nat)
    requires d < |mem| && lo <= a < hi <= NPAGES && Vacant(mem, d, lo, a)
    requires free < GrowCost(Tables(mem, d), lo, a + 1)
    requires Present(Pte(mem, d, a)) ==> free <= GrowCost(Tables(mem, d), lo, a)
    ensures !InTheWay(mem, d, lo, hi, free) && free < GrowCost(Tables(mem, d), lo, hi)
  {
    hide Pte, GrowCost, Tables;
    var tables := Tables(mem, d);
    GrowCostMonotone(tables, lo, a + 1, hi);
    forall b | lo <= b < hi && Present(Pte(mem, d, b)) && Vacant(mem, d, lo, b)
      ensures GrowCost(tables, lo, b) >= free
    {
      if b > a {
        GrowCostMonotone(tables, lo, a + 1, b);
      }
    }
  }

  lemma NoneInTheWay(mem: Memory, d: nat, lo: nat, hi: nat, free: nat)
    requires Vacant(mem, d, lo, hi)
    ensures !InTheWay(mem, d, lo, hi, free)
  {
  }

  lemma ContentPart(mem: Memory, mem': Memory, owner: map<nat, Use>, d: nat, lo: nat, hi: nat)
    requires ContentKept(mem, mem', owner)
    ensures ContentKept(mem, mem', Without(owner, d, lo, hi))
  {
  }

  lemma VacantWithout(mem: Memory, dirs: set<nat>, owner: map<nat, Use>, d: nat, lo: nat, hi: nat)
    requires Linked(mem, dirs, owner) && Vacant(mem, d, lo, hi)
    ensures Without(owner, d, lo, hi) == owner
  {
  }

  lemma ContentExtends(mem: Memory, mid: Memory, mem': Memory, owner: map<nat, Use>, midOwner: map<nat, Use>, d: nat)
    requires ContentKept(mem, mid, owner) && ContentKept(mid, mem', midOwner) && Extends(owner, midOwner, d)
    ensures ContentKept(mem, mem', owner)
  {
  }

  lemma GrownMore(mem: Memory, mid: Memory, mem': Memory, dirs: set<nat>, midOwner: map<nat, Use>, d: nat, lo: nat,
                  a: nat, f: nat)
    requires Grown(mem, mid, dirs, d, lo, a) && MappedRange(mid, mem', dirs, d, a, a + 1, f, PTE_W + PTE_U) && d in dirs
             && d < |mem|
    requires Linked(mid, dirs, midOwner) && ContentKept(mid, mem', midOwner) && lo <= a < USERPAGES
    requires f < |mem'| && f < NPAGES && mem'[f] == ZeroPage()
    ensures Grown(mem, mem', dirs, d, lo, a + 1)
  {
    hide Pte, Pde, Entry;
    forall u | lo <= u < a + 1
      ensures ZeroMapped(mem', d, u)
    {
      if u < a {
        assert ZeroMapped(mid, d, u);
        assert Pte(mem', d, u) == Pte(mid, d, u);
        assert midOwner[Frame(Pte(mid, d, u))] == User(d, u);
      } else {
        assert Pte(mem', d, u) == Entry(f, 6);
      }
    }
  }

  lemma ExtendsMore(owner: map<nat, Use>, midOwner: map<nat, Use>, owner': map<nat, Use>, d: nat, f: nat)
    requires Extends(owner, midOwner, d) && f in owner' && OfDir(owner'[f], d) && Extends(midOwner, owner' - {f}, d)
             && f !in midOwner
    ensures Extends(owner, owner', d)
  {
  }

  lemma Undone(mem: Memory, mid: Memory, mem1: Memory, mem2: Memory, dirs: set<nat>, d: nat, lo: nat, a: nat, hi: nat)
    requires Grown(mem, mid, dirs, d, lo, a) && SameFlat(mid, mem1, dirs) && Cleared(mem1, mem2, dirs, d, lo, hi)
    requires lo <= a <= hi && d in dirs && d < |mem|
    ensures Ungrown(mem, mem2, dirs, d, lo, hi) && |mem1| == |mem2|
  {
  }

  /** A frame kept by the address space after the undoing is a table, or was there before. */
  lemma NoMoreThanTables(mem: Memory, mem2: Memory, dirs: set<nat>, owner: map<nat, Use>, midOwner: map<nat, Use>,
                         owner1: map<nat, Use>,
                         g: set<nat>, d: nat, lo: nat, hi: nat)
    requires Linked(mem, dirs, owner) && d in dirs && Extends(owner, midOwner, d)
    requires Extends(midOwner, owner1 - g, d)
             && (forall f | f in g :: f !in midOwner && f in owner1 && owner1[f].Other?)
    requires Linked(mem2, dirs, Without(owner1, d, lo, hi)) && Ungrown(mem, mem2, dirs, d, lo, hi)
    ensures TablesOnly(Without(owner, d, lo, hi), Without(owner1, d, lo, hi) - g, d)
    ensures forall f | f in g :: f in Without(owner1, d, lo, hi) && Without(owner1, d, lo, hi)[f].Other?
    ensures forall f | f in Without(owner, d, lo, hi) ::
              f !in g && f in Without(owner1, d, lo, hi)
              && Without(owner1, d, lo, hi)[f] == Without(owner, d, lo, hi)[f]
  {
    hide Linked, Ungrown;
    var was, owner2 := Without(owner, d, lo, hi), Without(owner1, d, lo, hi);
    forall f | f in was
      ensures f in owner2 && owner2[f] == was[f] && f !in g
    {
      assert f in midOwner && f in owner1 - g;
    }
    forall f | f in owner2 - g && f !in was
      ensures owner2[f].Table? && owner2[f].d == d
    {
      assert f in owner1 - g;
      assert OfDir(owner1[f], d);
      UngrownUse(mem, mem2, dirs, owner, owner2, d, lo, hi, f);
    }
  }

  lemma UngrownUse(mem: Memory, mem2: Memory, dirs: set<nat>, owner: map<nat, Use>, owner2: map<nat, Use>, d: nat,
                   lo: nat, hi: nat, f: nat)
    requires Linked(mem, dirs, owner) && Linked(mem2, dirs, owner2) && Ungrown(mem, mem2, dirs, d, lo, hi) && d in dirs
    requires f in owner2 && OfDir(owner2[f], d)
    ensures f in owner || owner2[f].Table?
  {
  }

  lemma ContentUndone(mem: Memory, mem1: Memory, mem2: Memory, owner: map<nat, Use>, owner2: map<nat, Use>)
    requires ContentKept(mem, mem1, owner) && ContentKept(mem1, mem2, owner2)
    requires forall f | f in owner :: f in owner2 && owner2[f] == owner[f]
    ensures ContentKept(mem, mem2, owner)
  {
  }

  lemma UngrownThenFlat(mem: Memory, mid: Memory, mem': Memory, dirs: set<nat>, d: nat, lo: nat, hi: nat)
    requires Ungrown(mem, mid, dirs, d, lo, hi) && SameFlat(mid, mem', dirs) && d in dirs
    ensures Ungrown(mem, mem', dirs, d, lo, hi)
  {
  }

  // ---------------------------------------------------------------- freeing

  /** The uses that have nothing to do with d. */
  ghost function Strip(owner: map<nat, Use>, d: nat): map<nat, Use> {
    map f | f in owner && !OfDir(owner[f], d) :: owner[f]
  }

  /** Once d is gone its frames are just allocated; tables below i have been freed. */
  ghost function Orphaned(owner: map<nat, Use>, d: nat, i: nat): map<nat, Use> {
    map f | f in owner && !(owner[f].Table? && owner[f].d == d && owner[f].i < i) ::
      if OfDir(owner[f], d) then Other else owner[f]
  }

  lemma Orphan(mem: Memory, dirs: set<nat>, owner: map<nat, Use>, d: nat)
    requires Linked(mem, dirs, owner) && d in dirs
    ensures Linked(mem, dirs - {d}, Orphaned(owner, d, 0)) && Orphaned(owner, d, 0).Keys == owner.Keys
    ensures Open(mem, dirs) ==> Open(mem, dirs - {d})
  {
  }

  lemma Forget(mem: Memory, dirs: set<nat>, owner: map<nat, Use>, f: nat)
    requires Linked(mem, dirs, owner) && f in owner && owner[f].Other?
    ensures Linked(mem, dirs, owner - {f})
  {
  }

  lemma AfterDealloc(mem: Memory, mem1: Memory, dirs: set<nat>, owner: map<nat, Use>, d: nat)
    requires Cleared(mem, mem1, dirs, d, 0, USERPAGES) && d in dirs && Linked(mem, dirs, owner)
    ensures SameFlat(mem, mem1, dirs - {d})
    ensures var own := Without(owner, d, 0, USERPAGES);
            && (forall f | f in own && own[f].User? :: own[f].d != d)
            && Strip(own, d) == Strip(owner, d)
    ensures PageUp(0) == 0 && PageUp(USERPAGES * PGSIZE) == USERPAGES
  {
  }

  /** The frame of directory entry i is the one table of that entry. */
  lemma TableFrame(mem: Memory, dirs: set<nat>, own: map<nat, Use>, d: nat, i: nat)
    requires Linked(mem, dirs, own) && d in dirs && d < |mem| && i < NENTRIES
    ensures !Present(mem[d][i]) ==> Orphaned(own, d, i + 1) == Orphaned(own, d, i)
    ensures Present(mem[d][i]) ==>
              var t := Frame(mem[d][i]);
              && t in Orphaned(own, d, i) && Orphaned(own, d, i)[t].Other? && t != d
              && t in own && own[t] == Table(d, i) && Orphaned(own, d, i + 1) == Orphaned(own, d, i) - {t}
  {
    assert mem[d][i] == Pde(mem, d, i);
    hide Pte, Pde;
    forall f | f in own && own[f] == Table(d, i)
      ensures Present(Pde(mem, d, i)) && f == Frame(Pde(mem, d, i))
    {
      assert UseOk(mem, dirs, f, own[f]);
    }
  }

  lemma LastFrame(mem: Memory, dirs: set<nat>, own: map<nat, Use>, d: nat)
    requires Linked(mem, dirs, own) && d in dirs && forall f | f in own && own[f].User? :: own[f].d != d
    ensures d in own && own[d] == Dir(d) && d in Orphaned(own, d, NENTRIES) && Orphaned(own, d, NENTRIES)[d].Other?
    ensures Orphaned(own, d, NENTRIES) - {d} == Strip(own, d)
  {
  }

  lemma FlatThenViews(mem: Memory, mid: Memory, mem': Memory, dirs: set<nat>)
    requires SameFlat(mem, mid, dirs) && SameViews(mid, mem', dirs)
    ensures SameFlat(mem, mem', dirs)
  {
  }

  lemma FlatTrans(mem: Memory, mid: Memory, mem': Memory, dirs: set<nat>)
    requires SameFlat(mem, mid, dirs) && SameFlat(mid, mem', dirs)
    ensures SameFlat(mem, mem', dirs)
  {
  }

  lemma JunkKeepsContent(mem: Memory, mid: Memory, own: map<nat, Use>, d: nat, t: nat)
    requires ContentKept(mem, mid, Strip(own, d)) && t in own && OfDir(own[t], d)
    ensures t < |mid| ==> ContentKept(mem, mid[t := Junk()], Strip(own, d))
  {
  }

  lemma StripSame(mem: Memory, mem1: Memory, mem2: Memory, dirs: set<nat>, owner: map<nat, Use>, own: map<nat, Use>,
                  d: nat)
    requires ContentKept(mem, mem1, own) && ContentKept(mem1, mem2, Strip(own, d)) && Strip(own, d) == Strip(owner, d)
    requires SameFlat(mem, mem1, dirs - {d}) && SameFlat(mem1, mem2, dirs - {d})
    ensures ContentKept(mem, mem2, Strip(owner, d)) && SameFlat(mem, mem2, dirs - {d}) && |mem| == |mem2|
  {
  }

  // ---------------------------------------------------------------- shrinking

  function PageUp(sz: nat): nat {
    (sz + PGSIZE - 1) / PGSIZE
  }

  /** The present entries of pages lo..hi-1 of d are gone; every other entry is as before. */
  ghost predicate Cleared(mem: Memory, mem': Memory, dirs: set<nat>, d: nat, lo: nat, hi: nat) {
    && |mem| == |mem'|
    && (forall e, k | e in dirs && e < |mem| && 0 <= k < NENTRIES :: Pde(mem', e, k) == Pde(mem, e, k))
    && (forall e, u | e in dirs && e < |mem| && 0 <= u < NPAGES ::
          Pte(mem', e, u) == if e == d && lo <= u < hi && Present(Pte(mem, e, u)) then 0 else Pte(mem, e, u))
  }

  /** The uses left when d has given up its pages lo..hi-1. */
  ghost function Without(owner: map<nat, Use>, d: nat, lo: nat, hi: nat): map<nat, Use> {
    map f | f in owner && !(owner[f].User? && owner[f].d == d && lo <= owner[f].v < hi) :: owner[f]
  }

  lemma UserInMemory(mem: Memory, dirs: set<nat>, owner: map<nat, Use>, d: nat, v: nat)
    requires Linked(mem, dirs, owner) && d in dirs && d < |mem| && v < USERPAGES && Present(Pte(mem, d, v))
    ensures Frame(Pte(mem, d, v)) < |mem| && Frame(Pte(mem, d, v)) in owner
            && owner[Frame(Pte(mem, d, v))] == User(d, v)
  {
  }

  lemma PoolRange(first: nat, n: nat, freelist: seq<nat>, owner: map<nat, Use>, f: nat)
    requires Pool(first, n, freelist, owner) && f in owner
    ensures first <= f < n
  {
  }

  lemma ViewAt(mem: Memory, mem': Memory, dirs: set<nat>, d: nat, v: nat)
    requires SameViews(mem, mem', dirs) && d in dirs && d < |mem| && v < NPAGES
    ensures Pte(mem', d, v) == Pte(mem, d, v) && Pde(mem', d, v / NENTRIES) == Pde(mem, d, v / NENTRIES)
  {
  }

  lemma FreedContent(mem: Memory, mid: Memory, mem': Memory, owner: map<nat, Use>, d: nat, f: nat, t: nat, v: nat)
    requires f < |mem| && mid == mem[f := Junk()] && t < |mem| && t in owner && owner[t].Table?
    requires mem' == WithEntry(mid, t, v % NENTRIES, 0)
    ensures ContentKept(mem, mem', owner - {f})
  {
  }

  lemma ViewsThenEntry(mem: Memory, mid: Memory, mem': Memory, dirs: set<nat>, d: nat, v: nat)
    requires SameViews(mem, mid, dirs) && EntrySet(mid, mem', dirs, d, v, 0)
    ensures EntrySet(mem, mem', dirs, d, v, 0)
  {
  }

  lemma NothingCleared(mem: Memory, dirs: set<nat>, owner: map<nat, Use>, d: nat, lo: nat)
    ensures Cleared(mem, mem, dirs, d, lo, lo) && Without(owner, d, lo, lo) == owner && ContentKept(mem, mem, owner)
  {
  }

  /** Below a missing table there is nothing to free. */
  lemma SkipTable(mem: Memory, mem': Memory, dirs: set<nat>, owner: map<nat, Use>, d: nat, lo: nat, a: nat, hi: nat)
    requires Linked(mem, dirs, owner) && Cleared(mem, mem', dirs, d, lo, a) && d in dirs && d < |mem|
    requires lo <= a < hi <= USERPAGES && !Present(Pde(mem', d, a / NENTRIES))
    ensures var b := Min((a / NENTRIES + 1) * NENTRIES, hi);
            Cleared(mem, mem', dirs, d, lo, b) && Without(owner, d, lo, b) == Without(owner, d, lo, a)
    ensures (a / NENTRIES + 1) * NENTRIES <= USERPAGES
  {
    var b := Min((a / NENTRIES + 1) * NENTRIES, hi);
    forall u | a <= u < b
      ensures Pte(mem, d, u) == 0
    {
      assert u / NENTRIES == a / NENTRIES;
      assert Pde(mem', d, a / NENTRIES) == Pde(mem, d, a / NENTRIES);
    }
    assert forall f | f in owner && owner[f].User? && owner[f].d == d :: !(a <= owner[f].v < b) by {
      forall f | f in owner && owner[f].User? && owner[f].d == d
        ensures !(a <= owner[f].v < b)
      {
        assert UseOk(mem, dirs, f, owner[f]);
      }
    }
  }

  lemma ClearedMore(mem: Memory, mid: Memory, mem': Memory, dirs: set<nat>, owner: map<nat, Use>, midOwner: map<nat,
                    Use>, d: nat, lo: nat, a: nat)
    requires Linked(mem, dirs, owner) && d in dirs && d < |mem| && lo <= a < USERPAGES
    requires Cleared(mem, mid, dirs, d, lo, a) && EntrySet(mid, mem', dirs, d, a, 0) && Present(Pte(mid, d, a))
    requires midOwner == Without(owner, d, lo, a)
    ensures Cleared(mem, mem', dirs, d, lo, a + 1)
    ensures midOwner - {Frame(Pte(mid, d, a))} == Without(owner, d, lo, a + 1)
  {
  }

  lemma ClearedSkip(mem: Memory, mem': Memory, dirs: set<nat>, owner: map<nat, Use>, owner': map<nat, Use>, d: nat,
                    lo: nat, a: nat)
    requires Linked(mem, dirs, owner) && d in dirs && d < |mem| && lo <= a < USERPAGES
    requires Cleared(mem, mem', dirs, d, lo, a) && !Present(Pte(mem', d, a)) && owner' == Without(owner, d, lo, a)
    ensures Cleared(mem, mem', dirs, d, lo, a + 1) && owner' == Without(owner, d, lo, a + 1)
  {
  }

  lemma ContentDrop(mem: Memory, mid: Memory, mem': Memory, midOwner: map<nat, Use>, owner: map<nat, Use>)
    requires ContentKept(mem, mid, midOwner) && ContentKept(mid, mem', owner)
    requires forall f | f in owner :: f in midOwner && owner[f] == midOwner[f]
    ensures ContentKept(mem, mem', owner)
  {
  }

  /** Frames that are allocated but in nobody's address space. */
  ghost predicate Loose(owner: map<nat, Use>, lo: int, hi: int) {
    forall g | lo <= g < hi :: g in owner && owner[g].Other?
  }

  /** Pages first..last are user pages, and the frames they are to get are free to be given. */
  ghost predicate MayMap(owner: map<nat, Use>, first: nat, last: nat, frame: nat) {
    last < USERPAGES && Loose(owner, frame, frame + last + 1 - first)
  }

  /** Frames lo..hi-1 are the user pages of d from page v on. */
  ghost predicate UsedBy(owner: map<nat, Use>, d: nat, v: nat, lo: int, hi: int) {
    forall g | lo <= g < hi :: g in owner && owner[g] == User(d, v + g - lo)
  }

  /**
   * Pages first..v-1 of d have been mapped to consecutive frames, and the frames of the rest up to last are still there
   * for it.
   */
  ghost predicate Mapping(mem: Memory, owner: map<nat, Use>, free: nat, mem': Memory, owner': map<nat, Use>, free': nat,
                          dirs: set<nat>, d: nat, first: nat, v: nat, last: nat, frame: nat, perm: nat) {
    && first <= v <= last + 1 <= NPAGES && |mem| == |mem'| && OnlyFor(owner, owner', d) && ContentKept(mem, mem', owner)
    && MappedRange(mem, mem', dirs, d, first, v, frame, perm) && Vacant(mem, d, first, v)
    && Spent(mem, free, mem', free', d, Covering(first, v), 0)
    && (first < USERPAGES ==> last < USERPAGES && UsedBy(owner', d, first, frame, frame + v - first)
                              && Loose(owner', frame + v - first, frame + last + 1 - first))
  }

  lemma MappingStarts(mem: Memory, owner: map<nat, Use>, free: nat, dirs: set<nat>, d: nat, first: nat, last: nat,
                      frame: nat, perm: nat)
    requires first <= last < NPAGES && d < |mem| && OnlyFor(owner, owner, d) && ContentKept(mem, mem, owner)
    requires MappedRange(mem, mem, dirs, d, first, first, frame, perm) && Spent(mem, free, mem, free, d, {}, 0)
             && Covering(first, first) == {}
    requires first >= USERPAGES || MayMap(owner, first, last, frame)
    ensures Mapping(mem, owner, free, mem, owner, free, dirs, d, first, first, last, frame, perm)
  {
    hide OnlyFor, ContentKept, MappedRange, Spent, Covering;
  }

  lemma NextFrame(mem: Memory, owner: map<nat, Use>, free: nat, mem': Memory, owner': map<nat, Use>, free': nat,
                  dirs: set<nat>, d: nat, first: nat, v: nat, last: nat, frame: nat, perm: nat)
    requires Mapping(mem, owner, free, mem', owner', free', dirs, d, first, v, last, frame, perm) && v <= last
    ensures |mem| == |mem'| && (v < USERPAGES ==> frame + v - first in owner' && owner'[frame + v - first].Other?)
  {
  }

  lemma MappingMeans(mem: Memory, owner: map<nat, Use>, free: nat, mem': Memory, owner': map<nat, Use>, free': nat,
                     dirs: set<nat>, d: nat, first: nat, v: nat, last: nat, frame: nat, perm: nat)
    requires Mapping(mem, owner, free, mem', owner', free', dirs, d, first, v, last, frame, perm)
    ensures |mem| == |mem'| && OnlyFor(owner, owner', d) && ContentKept(mem, mem', owner)
    ensures MappedRange(mem, mem', dirs, d, first, v, frame, perm)
            && Spent(mem, free, mem', free', d, Covering(first, v), 0)
    ensures d < |mem| && forall u | first <= u < v :: !Present(Pte(mem, d, u))
    ensures first < USERPAGES ==> UsedBy(owner', d, first, frame, frame + v - first)
                                  && Loose(owner', frame + v - first, frame + last + 1 - first)
  {
    hide OnlyFor, ContentKept, MappedRange, Spent, Covering, Pte, UsedBy, Loose;
  }

  /** One round of mappages on values: mem to mid so far, mid to mem' by mapping page v. */
  lemma MappingNext(mem: Memory, owner: map<nat, Use>, free: nat, mid: Memory, midOwner: map<nat, Use>, midFree: nat,
                    mem': Memory, owner': map<nat, Use>,
                    free': nat, dirs: set<nat>, d: nat, first: nat, v: nat, last: nat, frame: nat, perm: nat,
                      res: Outcome)
    requires Mapping(mem, owner, free, mid, midOwner, midFree, dirs, d, first, v, last, frame, perm)
    requires d in dirs && d < |mem| && v <= last && frame + v - first < NPAGES && |mem'| == |mid|
    requires OnlyFor(midOwner, owner', d) && ContentKept(mid, mem', midOwner)
    requires res == Panicked <==> Present(Pte(mid, d, v))
    requires if res == Done then MappedRange(mid, mem', dirs, d, v, v + 1, frame + v - first, perm)
             else SameFlat(mid, mem', dirs)
    requires forall g | g in midOwner && g != frame + v - first :: g in owner' && owner'[g] == midOwner[g]
    requires v < USERPAGES ==> frame + v - first in owner'
                               && owner'[frame + v - first] == if res == Done then User(d, v) else Other
    requires if res == NoMemory then mem' == mid && free' == midFree
             else Spent(mid, midFree, mem', free', d, {v / NENTRIES}, 0)
    ensures res == Done ==> Mapping(mem, owner, free, mem', owner', free', dirs, d, first, v + 1, last, frame, perm)
    ensures |mem| == |mem'| && OnlyFor(owner, owner', d) && ContentKept(mem, mem', owner)
    ensures MappedRange(mem, mem', dirs, d, first, if res == Done then v + 1 else v, frame, perm)
    ensures forall u | first <= u < v :: !Present(Pte(mem, d, u))
    ensures Spent(mem, free, mem', free', d, Covering(first, if res == NoMemory then v else v + 1), 0)
    ensures res == Panicked <==> Present(Pte(mem, d, v))
    ensures first < USERPAGES && res != Done ==> UsedBy(owner', d, first, frame, frame + v - first)
                                                 && Loose(owner', frame + v - first, frame + last + 1 - first)
  {
    hide Pte, OnlyFor, ContentKept, MappedRange, SameFlat, Spent, Covering;
    MappedMore(mem, mid, mem', dirs, d, first, v, frame, perm, res == Done);
    OnlyForTrans(owner, midOwner, owner', d);
    ContentTrans(mem, mid, mem', owner, midOwner, d);
    CoveringNext(first, v);
    if res != NoMemory {
      SpentMore(mem, free, mid, midFree, mem', free', d, Covering(first, v), {v / NENTRIES}, 0, 0);
    }
  }

  lemma NothingMapped(mem: Memory, dirs: set<nat>, d: nat, first: nat, frame: nat, perm: nat)
    requires frame <= NPAGES && perm < PGSIZE
    ensures MappedRange(mem, mem, dirs, d, first, first, frame, perm)
  {
  }

  /** One more page of a range. */
  lemma MappedMore(mem: Memory, mid: Memory, mem': Memory, dirs: set<nat>, d: nat, first: nat, v: nat, frame: nat,
                   perm: nat, ok: bool)
    requires MappedRange(mem, mid, dirs, d, first, v, frame, perm) && d in dirs && d < |mem| && v < NPAGES
    requires frame + v - first < NPAGES
    requires ok ==> MappedRange(mid, mem', dirs, d, v, v + 1, frame + v - first, perm)
    requires !ok ==> SameFlat(mid, mem', dirs)
    ensures MappedRange(mem, mem', dirs, d, first, if ok then v + 1 else v, frame, perm)
    ensures Pte(mid, d, v) == Pte(mem, d, v)
  {
  }

  lemma OnlyForTrans(a: map<nat, Use>, b: map<nat, Use>, c: map<nat, Use>, d: nat)
    requires OnlyFor(a, b, d) && OnlyFor(b, c, d)
    ensures OnlyFor(a, c, d)
  {
  }

  lemma ContentTrans(mem: Memory, mid: Memory, mem': Memory, owner: map<nat, Use>, midOwner: map<nat, Use>, d: nat)
    requires ContentKept(mem, mid, owner) && ContentKept(mid, mem', midOwner) && OnlyFor(owner, midOwner, d)
    ensures ContentKept(mem, mem', owner)
  {
  }

  lemma FlatAt(mem: Memory, mem': Memory, dirs: set<nat>, d: nat, v: nat)
    requires SameFlat(mem, mem', dirs) && d in dirs && d < |mem| && v < NPAGES
    ensures Pte(mem', d, v) == Pte(mem, d, v)
  {
  }

  lemma NoTable(mem: Memory, d: nat, v: nat)
    requires d < |mem| && v < NPAGES && !Present(Pde(mem, d, v / NENTRIES))
    ensures Pte(mem, d, v) == 0
  {
  }

  lemma EntryInTable(mem: Memory, d: nat, v: nat)
    requires d < |mem| && v < NPAGES && Present(Pde(mem, d, v / NENTRIES)) && Frame(Pde(mem, d, v / NENTRIES)) < |mem|
    ensures Pte(mem, d, v) == mem[Frame(Pde(mem, d, v / NENTRIES))][v % NENTRIES]
  {
  }

  lemma MappedOne(mem: Memory, mid: Memory, mem': Memory, dirs: set<nat>, d: nat, v: nat, f: nat, perm: nat)
    requires SameFlat(mem, mid, dirs) && f < NPAGES && perm < PGSIZE && EntrySet(mid, mem', dirs, d, v, Entry(f, perm))
    ensures MappedRange(mem, mem', dirs, d, v, v + 1, f, perm)
  {
  }

  lemma EntryKeepsContent(mem: Memory, mid: Memory, mem': Memory, owner: map<nat, Use>, owner': map<nat, Use>, d: nat,
                          t: nat, i: nat, w: Word)
    requires ContentKept(mem, mid, owner) && OnlyFor(owner, owner', d) && t < |mid| && i < NENTRIES
    requires t in owner' && owner'[t].Table? && mem' == WithEntry(mid, t, i, w)
    requires t in owner ==> !owner[t].Other?
    ensures ContentKept(mem, mem', owner)
  {
  }

  lemma UseChanged(owner: map<nat, Use>, mid: map<nat, Use>, f: nat, v: nat, d: nat)
    requires OnlyFor(owner, mid, d) && f in mid && mid[f].Other?
    ensures OnlyFor(owner, mid[f := User(d, v)], d)
  {
  }

  lemma NothingMoved(mem: Memory, dirs: set<nat>, owner: map<nat, Use>, d: nat)
    ensures SameFlat(mem, mem, dirs) && OnlyFor(owner, owner, d) && ContentKept(mem, mem, owner)
  {
  }

  lemma TableWritesKeepContent(mem: Memory, owner: map<nat, Use>, d: nat, i: nat, t: nat)
    requires t < |mem| && t !in owner && d < |mem| && d in owner && owner[d].Dir? && i < NENTRIES
             && t * PGSIZE + 7 < 0x1_0000_0000
    ensures ContentKept(mem, WithEntry(mem[t := ZeroPage()], d, i, t * PGSIZE + 7), owner)
  {
  }

  lemma NewFrameFor(owner: map<nat, Use>, f: nat, u: Use, d: nat)
    requires f !in owner && OfDir(u, d)
    ensures OnlyFor(owner, owner[f := u], d)
  {
  }

  lemma DirInMemory(mem: Memory, dirs: set<nat>, owner: map<nat, Use>, d: nat)
    requires Linked(mem, dirs, owner) && d in dirs
    ensures d < |mem| && d in owner && owner[d] == Dir(d)
  {
  }

  lemma TableInMemory(mem: Memory, dirs: set<nat>, owner: map<nat, Use>, d: nat, i: nat)
    requires Linked(mem, dirs, owner) && d in dirs && d < |mem| && i < NENTRIES && Present(Pde(mem, d, i))
    ensures Frame(Pde(mem, d, i)) < |mem| && Frame(Pde(mem, d, i)) in owner
            && owner[Frame(Pde(mem, d, i))] == Table(d, i)
  {
  }

  lemma NewOther(mem: Memory, dirs: set<nat>, owner: map<nat, Use>, f: nat)
    requires Linked(mem, dirs, owner) && f !in owner && f < |mem|
    ensures Linked(mem, dirs, owner[f := Other])
  {
  }

  lemma PoolPop(first: nat, n: nat, freelist: seq<nat>, owner: map<nat, Use>)
    requires Pool(first, n, freelist, owner) && freelist != []
    ensures Pool(first, n, freelist[1..], owner[freelist[0] := Other])
  {
    var f, rest := freelist[0], freelist[1..];
    assert freelist == [f] + rest;
    assert f in freelist;
    forall g | g in rest
      ensures g in freelist && g != f
    {
      var i :| 0 <= i < |rest| && rest[i] == g;
      assert freelist[i + 1] == g;
    }
  }

  lemma PoolPush(first: nat, n: nat, freelist: seq<nat>, owner: map<nat, Use>, f: nat)
    requires Pool(first, n, freelist, owner) && f in owner
    ensures Pool(first, n, [f] + freelist, owner - {f})
  {
  }

  lemma PoolRename(first: nat, n: nat, freelist: seq<nat>, owner: map<nat, Use>, owner': map<nat, Use>)
    requires Pool(first, n, freelist, owner) && owner.Keys == owner'.Keys
    ensures Pool(first, n, freelist, owner')
  {
  }

  /** A zeroed frame becomes the table under an empty directory entry. */
  lemma FreshTable(mem: Memory, dirs: set<nat>, owner: map<nat, Use>, d: nat, i: nat, t: nat)
    requires Linked(mem, dirs, owner) && d in dirs && d < |mem| && i < NENTRIES && !Present(Pde(mem, d, i))
    requires t < |mem| && t in owner && owner[t].Other? && t < NPAGES
    ensures t != d
    ensures var mem' := WithEntry(mem[t := ZeroPage()], d, i, t * PGSIZE + 7);
            && |mem'| == |mem| && Linked(mem', dirs, owner[t := Table(d, i)]) && SameFlat(mem, mem', dirs)
            && Present(Pde(mem', d, i)) && Frame(Pde(mem', d, i)) == t && (Open(mem, dirs) ==> Open(mem', dirs))
  {
    hide Linked, Pte;
    EntryWord(t, 7);
    DirInMemory(mem, dirs, owner, d);
    var mid := mem[t := ZeroPage()];
    PageWrite(mem, dirs, owner, t, ZeroPage());
    assert Pde(mid, d, i) == Pde(mem, d, i);
    NewTable(mid, dirs, owner, d, i, t, t * PGSIZE + 7);
  }
}
