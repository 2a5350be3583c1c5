/**
 The descriptor table behind mmap and munmap in sysfile.c, for a process that does not fork.
 One descriptor stands for one page.
 */
module Mmap {
  import opened Common

  const PGSIZE: int := 4096
  const PAGE_LIMIT: nat := 32
  const START: int := 0x6000_0000
  const END: int := 0x8000_0000
  const MAP_PRIVATE: int := 1
  const MAP_SHARED: int := 2
  const MAP_ANON: int := 4
  const MAP_FIXED: int := 8
  const MAP_GROWSUP: int := 16

  datatype Desc = Desc(valid: bool, va: int, length: int, prot: int, flags: int, guard: bool, file: Option<nat>,
                       refs: int)

  function Cleared(): Desc {
    Desc(false, 0, 0, 0, 0, false, None, 0)
  }

  /**
   What munmap does besides freeing descriptors. It sets the position of the first page's file to 0; without a
   file that is a store to the address where the position would be if a file started at address 0, which is
   a word of the program itself (Clobber).
   */
  datatype Effect = Rewind(file: nat) | Clobber | WriteBack(file: nat, va: int) | Close(file: nat)

  /** flags & bit. */
  predicate Has(flags: int, bit: int)
    requires bit > 0
  {
    flags / bit % 2 == 1
  }

  /** A free descriptor is cleared; a used one stands for a page of the region and has one reference. */
  ghost predicate DescOk(d: Desc) {
    if d.valid then START <= d.va <= END - PGSIZE && d.va % PGSIZE == 0 && d.refs == 1 else d == Cleared()
  }

  /** Used descriptors stand for different pages. */
  ghost predicate Disjoint(ds: seq<Desc>) {
    forall i, j | 0 <= i < j < |ds| && ds[i].valid && ds[j].valid :: ds[i].va != ds[j].va
  }

  ghost predicate TableOk(ds: seq<Desc>) {
    |ds| == PAGE_LIMIT && (forall i | 0 <= i < |ds| :: DescOk(ds[i])) && Disjoint(ds)
  }

  function Pages(length: int): int {
    if length <= 0 then 0 else (length + PGSIZE - 1) / PGSIZE
  }

  /** The pages a request takes: those of its length, and a guard page for one that may grow. */
  function Wanted(length: int, flags: int): int {
    Pages(length) + if Has(flags, MAP_GROWSUP) then 1 else 0
  }

  /** Descriptors i..i+n-1 are free. */
  ghost predicate Window(ds: seq<Desc>, i: int, n: int) {
    0 <= i && i + n <= |ds| && forall k | i <= k < i + n :: !ds[k].valid
  }

  /** Some used descriptor's page meets one of the n pages from addr. */
  ghost predicate Taken(ds: seq<Desc>, addr: int, n: int) {
    exists i, k :: 0 <= i < |ds| && 0 <= k < n && Meets(ds[i], addr, k)
  }

  ghost predicate Meets(d: Desc, addr: int, k: int) {
    d.valid && d.va <= addr + PGSIZE * k < d.va + PGSIZE
  }

  /** A request's descriptor for page k of n from address va. */
  function PageDesc(va: int, k: int, n: int, length: int, prot: int, flags: int, file: Option<nat>): Desc {
    Desc(true, va + PGSIZE * k, length, prot, flags, k == n - 1 && Has(flags, MAP_GROWSUP), file, 1)
  }

  /** The table with n consecutive pages from va entered at i. */
  ghost function Entered(ds: seq<Desc>, i: nat, n: nat, va: int, length: int, prot: int, flags: int,
                         file: Option<nat>): seq<Desc> {
    seq(|ds|, j requires 0 <= j < |ds| => if i <= j < i + n then PageDesc(va, j - i, n, length, prot, flags, file)
        else ds[j])
  }

  /** n whole pages from va lie in the region. */
  ghost predicate InRegion(va: int, n: int) {
    va % PGSIZE == 0 && START <= va && va + PGSIZE * n <= END
  }

  /** The table without the pages from addr to addr + length. */
  ghost function Freed(ds: seq<Desc>, addr: int, length: int): seq<Desc> {
    seq(|ds|, j requires 0 <= j < |ds| => if ds[j].valid && addr <= ds[j].va < addr + length then Cleared() else ds[j])
  }

  class Table {
    const descs: array<Desc>
    var cursor: int               // where the next mapping without a fixed address goes

    ghost predicate Valid()
      reads this, descs
    {
      TableOk(descs[..])
    }

    constructor ()
      ensures Valid() && fresh(descs) && cursor == START && forall i | 0 <= i < descs.Length :: !descs[i].valid
    {
      cursor := START;
      descs := new Desc[PAGE_LIMIT](_ => Cleared());
    }

    /** Is one of the n pages from addr mapped already? */
    method Mapped(addr: int, n: int) returns (r: bool)
      requires Valid()
      ensures r <==> Taken(descs[..], addr, n)
    {
      var j := 0;
      while j < n
        invariant 0 <= j && forall i, k | 0 <= i < descs.Length && 0 <= k < j && k < n :: !Meets(descs[i], addr, k)
        decreases n - j
      {
        var curr, i := addr + PGSIZE * j, 0;
        while i < descs.Length
          invariant 0 <= i <= descs.Length && forall m | 0 <= m < i :: !Meets(descs[m], addr, j)
        {
          if descs[i].valid && descs[i].va <= curr < descs[i].va + PGSIZE {
            assert Meets(descs[..][i], addr, j);
            return true;
          }
          i := i + 1;
        }
        j := j + 1;
      }
      assert forall i | 0 <= i < |descs[..]| :: descs[..][i] == descs[i];
      r := false;
    }

    /** The leftmost window of n free descriptors; -1 if there is none or n is 0. */
    method FindWindow(n: int) returns (i: int)
      requires Valid() && n >= 0
      ensures i >= 0 ==> n > 0 && Window(descs[..], i, n) && forall k | 0 <= k < i :: !Window(descs[..], k, n)
      ensures i < 0 ==> i == -1 && (n == 0 || forall k :: !Window(descs[..], k, n))
    {
      var run, j := 0, 0;
      while j < PAGE_LIMIT
        invariant 0 <= j <= PAGE_LIMIT && 0 <= run <= j && (n > 0 ==> run < n)
        invariant forall k | j - run <= k < j :: !descs[k].valid
        invariant j - run > 0 ==> descs[j - run - 1].valid
        invariant n > 0 ==> forall k | 0 <= k < j - run :: !Window(descs[..], k, n)
      {
        if descs[j].valid {
          forall k | j - run <= k <= j && n > 0
            ensures !Window(descs[..], k, n)
          {
            assert descs[..][j].valid;
          }
          run := 0;
        } else {
          run := run + 1;
          if run == n {
            return j - n + 1;
          }
        }
        j := j + 1;
      }
      i := -1;
    }

    /**
     mmap; file is None when the descriptor given is not open. The table stays in order exactly if the
     request is refused, or has its file and its pages are whole free pages of the region. That much is
     checked only for fixed addresses, and not that the address is page-aligned or that a guard page fits.
     */
    method Map(addr: int, length: int, prot: int, flags: int, file: Option<nat>, offset: int)
        returns (r: int, ghost i: int)
      requires Valid()
      modifies this`cursor, descs
      ensures var ds, n := old(descs[..]), Wanted(length, flags);
              var va := if Has(flags, MAP_FIXED) then addr else old(cursor);
              if Refused(ds, addr, length, flags, offset) then r == -1 && descs[..] == ds && cursor == old(cursor)
              else
                && 0 <= i && 0 < n && Window(ds, i, n) && (forall k | 0 <= k < i :: !Window(ds, k, n))
                && (HasFile(flags, file) ==>
                      && r == va && descs[..] == Entered(ds, i, n, va, length, prot, flags,
                                                         if Has(flags, MAP_ANON) then None else file)
                      && cursor == if Has(flags, MAP_FIXED) then old(cursor) else va + PGSIZE * n)
                && (!HasFile(flags, file) ==>
                      && r == -1 && cursor == old(cursor)
                      && descs[..] == ds[i := HalfMade(prot, flags, n == 1 && Has(flags, MAP_GROWSUP))])
      ensures Valid() <==> || Refused(old(descs[..]), addr, length, flags, offset)
                           || (HasFile(flags, file) && Fits(old(descs[..]), if Has(flags, MAP_FIXED) then addr
                                                            else old(cursor), Wanted(length, flags)))
    {
      i := -1;
      var va := cursor;
      if length < 0 || offset < 0 {
        return -1, i;
      }
      var n := Wanted(length, flags);
      if !Has(flags, MAP_PRIVATE) && !Has(flags, MAP_SHARED) {
        return -1, i;
      }
      if Has(flags, MAP_FIXED) {
        if addr + length >= END || addr < START {
          return -1, i;
        }
        var mapped := Mapped(addr, n);
        if mapped {
          return -1, i;
        }
        va := addr;
      }
      var w := FindWindow(n);
      i := w;
      if w == -1 {
        return -1, i;
      }
      assert !Refused(old(descs[..]), addr, length, flags, offset);
      if !Has(flags, MAP_ANON) && file.None? {
        assert DescOk(descs[..][w]);
        descs[w] := Desc(true, descs[w].va, descs[w].length, prot, flags, n == 1 && Has(flags, MAP_GROWSUP),
                         descs[w].file, 1);
        assert descs[..][w].valid && !DescOk(descs[..][w]);
        return -1, i;
      }
      var f := if Has(flags, MAP_ANON) then None else file;
      Enter(w, n, va, length, prot, flags, f);
      EnteredOk(old(descs[..]), w, n, va, length, prot, flags, f);
      if !Has(flags, MAP_FIXED) {
        cursor := va + PGSIZE * n;
      }
      r := descs[w].va;
    }

    /** The loop of mmap over the window. */
    method Enter(w: nat, n: nat, va0: int, length: int, prot: int, flags: int, file: Option<nat>)
      requires descs.Length == PAGE_LIMIT && w + n <= PAGE_LIMIT
      modifies descs
      ensures descs[..] == Entered(old(descs[..]), w, n, va0, length, prot, flags, file)
    {
      var va, j := va0, w;
      while j < w + n
        invariant w <= j <= w + n && va == va0 + PGSIZE * (j - w)
        invariant forall k | 0 <= k < descs.Length ::
                    descs[k] == if w <= k < j then PageDesc(va0, k - w, n, length, prot, flags, file) else old(descs[k])
      {
        descs[j] := Desc(true, va, length, prot, flags, j == w + n - 1 && Has(flags, MAP_GROWSUP), file, 1);
        va := va + PGSIZE;
        j := j + 1;
      }
    }

    /**
     munmap: every page of the range goes, and the bound of the array of pages to free is never passed. Shared
     pages are written back to their files in ascending order. A range whose first page is anonymous
     costs the program a word of its own memory.
     */
    method Unmap(addr: int, length: int) returns (r: int, effects: seq<Effect>, ghost order: seq<nat>)
      requires Valid()
      modifies descs
      ensures Valid() && r == if addr % PGSIZE != 0 then -1 else 0
      ensures r == -1 ==> descs[..] == old(descs[..]) && effects == []
      ensures r == 0 ==> Unmapped(old(descs[..]), descs[..], addr, length, order, effects)
      ensures Clobber in effects <==> r == 0 && FirstAnonymous(old(descs[..]), addr, length)
    {
      hide TableOk, FirstAnonymous, Collected, Freed1, Effects, Unmapped;
      order := [];
      if addr % PGSIZE != 0 {
        return -1, [], order;
      }
      ghost var ds := descs[..];
      var toFree := new nat[PAGE_LIMIT];
      var j := Collect(addr, length, toFree);
      order := toFree[..j];
      FirstOf(ds, addr, length, order);
      InTable(ds, addr, length, order);
      effects := Besides(toFree, j);
      FreeAll(toFree, j);
      IsUnmapped(ds, descs[..], addr, length, order, effects);
      r := 0;
    }

    /** What munmap does before it frees the descriptors. */
    method Besides(toFree: array<nat>, j: nat) returns (effects: seq<Effect>)
      requires j <= toFree.Length && descs.Length == PAGE_LIMIT && forall k | 0 <= k < j :: toFree[k] < PAGE_LIMIT
      ensures effects == Effects(descs[..], toFree[..j])
      ensures Clobber in effects <==> j != 0 && descs[toFree[0]].file.None?
    {
      hide FileEffects;
      effects := [];
      if j != 0 {
        var f := descs[toFree[0]].file;
        effects := [if f.Some? then Rewind(f.value) else Clobber];
      }
      var more := CloseFiles(toFree, j);
      NoClobber(descs[..], toFree[..j], j);
      effects := effects + more;
    }

    /** The loop of munmap over the files of the pages. */
    method CloseFiles(toFree: array<nat>, j: nat) returns (effects: seq<Effect>)
      requires j <= toFree.Length && descs.Length == PAGE_LIMIT && forall k | 0 <= k < j :: toFree[k] < PAGE_LIMIT
      ensures effects == FileEffects(descs[..], toFree[..j], j)
    {
      effects := [];
      var i := 0;
      while i < j
        invariant 0 <= i <= j && effects == FileEffects(descs[..], toFree[..j], i)
      {
        var d := descs[toFree[i]];
        if d.file.Some? {
          if !Has(d.flags, MAP_PRIVATE) {
            effects := effects + [WriteBack(d.file.value, d.va)];
          }
          effects := effects + [Close(d.file.value)];
        }
        i := i + 1;
      }
    }

    /** The last loop of munmap. */
    method FreeAll(toFree: array<nat>, j: nat)
      requires j <= toFree.Length && descs.Length == PAGE_LIMIT
      requires forall k | 0 <= k < j :: toFree[k] < PAGE_LIMIT && toFree[k] !in toFree[..k]
                                        && Freed1(descs[toFree[k]]) == Cleared()
      modifies descs
      ensures forall k | 0 <= k < descs.Length :: descs[k] == if k in toFree[..j] then Cleared() else old(descs[k])
    {
      hide Freed1;
      var i := 0;
      while i < j
        invariant 0 <= i <= j
        invariant forall k | 0 <= k < descs.Length :: descs[k] == if k in toFree[..i] then Cleared() else old(descs[k])
      {
        assert toFree[..i + 1] == toFree[..i] + [toFree[i]];
        descs[toFree[i]] := Freed1(descs[toFree[i]]);
        i := i + 1;
      }
    }

    /** The descriptors of the range, each once, those of lower pages first. */
    method Collect(addr: int, length: int, toFree: array<nat>) returns (j: nat)
      requires Valid() && addr % PGSIZE == 0 && toFree.Length == PAGE_LIMIT
      modifies toFree
      ensures j <= PAGE_LIMIT && Collected(descs[..], toFree[..j], addr, length)
    {
      hide TableOk, Gathered, Collected;
      ghost var ds := descs[..];
      j := 0;
      var at := addr;
      NoneGathered(ds, addr);
      assert toFree[..0] == [] && |ds| == PAGE_LIMIT by { TableSize(ds); }
      while at < length + addr
        invariant addr <= at && at % PGSIZE == 0 && j <= PAGE_LIMIT
                  && (at >= length + addr ==> at < length + addr + PGSIZE || at == addr)
        invariant Gathered(ds, toFree[..j], addr, at, 0)
        decreases length + addr - at
      {
        var i := 0;
        while i < PAGE_LIMIT
          invariant 0 <= i <= PAGE_LIMIT && j <= PAGE_LIMIT && Gathered(ds, toFree[..j], addr, at, i)
        {
          Gather(ds, toFree[..j], addr, at, i);
          if descs[i].valid && descs[i].va <= at && descs[i].va + PGSIZE > at {
            toFree[j] := i;
            assert toFree[..j + 1] == toFree[..j] + [i];
            j := j + 1;
          }
          i := i + 1;
        }
        GatherNext(ds, toFree[..j], addr, at);
        at := at + PGSIZE;
      }
      GatherEnd(ds, toFree[..j], addr, at, length);
    }
  }

  /** Each file-backed page, in this order, is written back unless private, and its file is closed. */
  ghost function FileEffects(ds: seq<Desc>, s: seq<nat>, k: nat): seq<Effect>
    requires k <= |s| && forall i | 0 <= i < |s| :: s[i] < |ds|
  {
    if k == 0 then []
    else
      var d := ds[s[k - 1]];
      FileEffects(ds, s, k - 1) +
      if d.file.None? then []
      else (if Has(d.flags, MAP_PRIVATE) then [] else [WriteBack(d.file.value, d.va)]) + [Close(d.file.value)]
  }

  ghost function Effects(ds: seq<Desc>, s: seq<nat>): seq<Effect>
    requires forall i | 0 <= i < |s| :: s[i] < |ds|
  {
    (if s == [] then [] else [if ds[s[0]].file.Some? then Rewind(ds[s[0]].file.value) else Clobber])
    + FileEffects(ds, s, |s|)
  }

  lemma {:induction false} NoClobber(ds: seq<Desc>, s: seq<nat>, k: nat)
    requires k <= |s| && forall i | 0 <= i < |s| :: s[i] < |ds|
    ensures Clobber !in FileEffects(ds, s, k)
  {
    if k > 0 {
      NoClobber(ds, s, k - 1);
    }
  }

  /** Exactly the descriptors of the range, each once, by ascending pages. */
  ghost predicate Collected(ds: seq<Desc>, s: seq<nat>, addr: int, length: int) {
    && (forall k: nat :: k in s <==> k < |ds| && InRange(ds[k], addr, length)) && Ascending(ds, s)
  }

  /** The same for pages below at, and for page at of the descriptors below i. */
  ghost predicate Gathered(ds: seq<Desc>, s: seq<nat>, addr: int, at: int, i: nat) {
    && (forall k: nat :: k in s <==> k < |ds| && ds[k].valid && (addr <= ds[k].va < at || (k < i && ds[k].va == at)))
    && Ascending(ds, s)
  }

  ghost predicate Ascending(ds: seq<Desc>, s: seq<nat>) {
    (forall i | 0 <= i < |s| :: s[i] < |ds|) && forall i, j | 0 <= i < j < |s| :: ds[s[i]].va < ds[s[j]].va
  }

  lemma TableSize(ds: seq<Desc>)
    requires TableOk(ds)
    ensures |ds| == PAGE_LIMIT
  {
  }

  lemma NoneGathered(ds: seq<Desc>, addr: int)
    ensures Gathered(ds, [], addr, addr, 0)
  {
  }

  lemma AscendingOnce(ds: seq<Desc>, s: seq<nat>)
    requires Ascending(ds, s)
    ensures NoDup(s)
  {
  }

  lemma Gather(ds: seq<Desc>, s: seq<nat>, addr: int, at: int, i: nat)
    requires TableOk(ds) && Gathered(ds, s, addr, at, i) && i < |ds| && at % PGSIZE == 0 && addr <= at
    ensures var hit := ds[i].valid && ds[i].va <= at < ds[i].va + PGSIZE;
            (hit ==> |s| < PAGE_LIMIT) && Gathered(ds, if hit then s + [i] else s, addr, at, i + 1)
  {
    assert DescOk(ds[i]);
    if ds[i].valid {
      SamePage(ds[i], at);
    }
    if ds[i].valid && ds[i].va == at {
      GatherHit(ds, s, addr, at, i);
    }
  }

  lemma GatherHit(ds: seq<Desc>, s: seq<nat>, addr: int, at: int, i: nat)
    requires |ds| == PAGE_LIMIT && Disjoint(ds) && Gathered(ds, s, addr, at, i) && i < |ds| && ds[i].valid
             && ds[i].va == at && addr <= at
    ensures |s| < PAGE_LIMIT && Gathered(ds, s + [i], addr, at, i + 1)
  {
    var t := s + [i];
    forall k | 0 <= k < |s|
      ensures ds[s[k]].va < at
    {
      assert s[k] in s;
    }
    assert forall k :: k in t <==> k in s || k == i;
    assert Ascending(ds, t);
    AscendingOnce(ds, t);
    Pigeons(t, PAGE_LIMIT);
  }

  lemma GatherNext(ds: seq<Desc>, s: seq<nat>, addr: int, at: int)
    requires TableOk(ds) && Gathered(ds, s, addr, at, PAGE_LIMIT) && at % PGSIZE == 0 && addr <= at
    ensures Gathered(ds, s, addr, at + PGSIZE, 0) && (at + PGSIZE) % PGSIZE == 0
  {
    NextPage(ds, at);
  }

  lemma GatherEnd(ds: seq<Desc>, s: seq<nat>, addr: int, at: int, length: int)
    requires TableOk(ds) && Gathered(ds, s, addr, at, 0) && at % PGSIZE == 0 && addr % PGSIZE == 0
    requires length + addr <= at && (at < length + addr + PGSIZE || at == addr)
    ensures Collected(ds, s, addr, length)
  {
    RangeEnd(ds, at, addr, length);
  }

  /** The calls mmap turns down before it touches the table. */
  ghost predicate Refused(ds: seq<Desc>, addr: int, length: int, flags: int, offset: int) {
    || length < 0 || offset < 0 || (!Has(flags, MAP_PRIVATE) && !Has(flags, MAP_SHARED))
    || (Has(flags, MAP_FIXED) && (addr + length >= END || addr < START || Taken(ds, addr, Wanted(length, flags))))
    || Wanted(length, flags) == 0 || (forall k :: !Window(ds, k, Wanted(length, flags)))
  }

  predicate HasFile(flags: int, file: Option<nat>) {
    Has(flags, MAP_ANON) || file.Some?
  }

  /** What a call on a closed descriptor leaves behind. */
  function HalfMade(prot: int, flags: int, guard: bool): Desc {
    Cleared().(valid := true, prot := prot, flags := flags, guard := guard, refs := 1)
  }

  ghost predicate Fits(ds: seq<Desc>, va: int, n: int) {
    InRegion(va, n) && !Taken(ds, va, n)
  }

  ghost predicate InRange(d: Desc, addr: int, length: int) {
    d.valid && addr <= d.va < addr + length
  }

  /** The first page of the range has no file. */
  ghost predicate FirstAnonymous(ds: seq<Desc>, addr: int, length: int) {
    exists k :: 0 <= k < |ds| && FirstAt(ds, addr, length, k) && ds[k].file.None?
  }

  ghost predicate FirstAt(ds: seq<Desc>, addr: int, length: int, k: nat)
    requires k < |ds|
  {
    InRange(ds[k], addr, length) && forall m | 0 <= m < |ds| && InRange(ds[m], addr, length) :: ds[k].va <= ds[m].va
  }

  lemma FirstOf(ds: seq<Desc>, addr: int, length: int, all: seq<nat>)
    requires TableOk(ds) && Collected(ds, all, addr, length)
    ensures FirstAnonymous(ds, addr, length) <==> all != [] && all[0] < |ds| && ds[all[0]].file.None?
  {
    if all != [] {
      assert all[0] in all;
      assert FirstAt(ds, addr, length, all[0]);
      forall k | 0 <= k < |ds| && FirstAt(ds, addr, length, k)
        ensures k == all[0]
      {
        assert k in all && ds[k].va == ds[all[0]].va;
      }
    } else {
      assert forall k: nat | k < |ds| :: k !in all;
    }
  }

  /** What is collected are descriptors in use, whose one reference goes. */
  lemma InTable(ds: seq<Desc>, addr: int, length: int, all: seq<nat>)
    requires TableOk(ds) && Collected(ds, all, addr, length)
    ensures |ds| == PAGE_LIMIT && forall k | 0 <= k < |all| ::
            all[k] < PAGE_LIMIT && all[k] !in all[..k] && Freed1(ds[all[k]]) == Cleared()
  {
    forall k | 0 <= k < |all|
      ensures all[k] < PAGE_LIMIT && Freed1(ds[all[k]]) == Cleared()
    {
      assert all[k] in all;
      assert DescOk(ds[all[k]]);
    }
  }

  /** The pages of the range are gone, in ascending order, with these effects. */
  ghost predicate Unmapped(ds: seq<Desc>, ds': seq<Desc>, addr: int, length: int, order: seq<nat>,
                           effects: seq<Effect>) {
    ds' == Freed(ds, addr, length) && Collected(ds, order, addr, length) && effects == Effects(ds, order)
  }

  lemma IsUnmapped(ds: seq<Desc>, ds': seq<Desc>, addr: int, length: int, all: seq<nat>, effects: seq<Effect>)
    requires TableOk(ds) && Collected(ds, all, addr, length) && |ds'| == |ds| && forall k | 0 <= k < |ds| ::
             ds'[k] == if k in all then Cleared() else ds[k]
    requires (forall i | 0 <= i < |all| :: all[i] < |ds|) && effects == Effects(ds, all)
    ensures Unmapped(ds, ds', addr, length, all, effects) && TableOk(ds')
  {
    hide TableOk, Collected, Effects;
    FreedIs(ds, ds', addr, length, all);
    FreedOk(ds, addr, length);
  }

  lemma FreedIs(ds: seq<Desc>, ds': seq<Desc>, addr: int, length: int, all: seq<nat>)
    requires Collected(ds, all, addr, length) && |ds'| == |ds| && forall k | 0 <= k < |ds| ::
             ds'[k] == if k in all then Cleared() else ds[k]
    ensures ds' == Freed(ds, addr, length)
  {
  }

  /** munmap_free: with the last reference the descriptor is cleared. */
  function Freed1(d: Desc): Desc {
    if !d.valid then d else if d.refs - 1 != 0 then d.(refs := d.refs - 1) else Cleared()
  }

  lemma {:induction false} Pigeons(s: seq<nat>, n: nat)
    requires NoDup(s) && forall i | 0 <= i < |s| :: s[i] < n
    ensures |s| <= n
    decreases n
  {
    if s != [] {
      assert s[0] < n;
      if i :| 0 <= i < |s| && s[i] == n - 1 {
        Pigeons(s[..i] + s[i + 1..], n - 1);
      } else {
        Pigeons(s, n - 1);
      }
    }
  }

  lemma SamePage(d: Desc, at: int)
    requires DescOk(d) && d.valid && at % PGSIZE == 0
    ensures d.va <= at < d.va + PGSIZE <==> d.va == at
  {
  }

  lemma NextPage(ds: seq<Desc>, at: int)
    requires TableOk(ds) && at % PGSIZE == 0
    ensures (at + PGSIZE) % PGSIZE == 0
    ensures forall k | 0 <= k < |ds| && ds[k].valid :: (ds[k].va < at + PGSIZE <==> ds[k].va < at || ds[k].va == at)
  {
  }

  lemma RangeEnd(ds: seq<Desc>, at: int, addr: int, length: int)
    requires TableOk(ds) && at % PGSIZE == 0 && addr % PGSIZE == 0 && length + addr <= at
             && (at < length + addr + PGSIZE || at == addr)
    ensures forall k | 0 <= k < |ds| && ds[k].valid && addr <= ds[k].va :: ds[k].va < at <==> ds[k].va < addr + length
  {
  }

  /** Entering pages in a free window keeps the table in order exactly if they fit. */
  lemma EnteredOk(ds: seq<Desc>, i: nat, n: nat, va: int, length: int, prot: int, flags: int, file: Option<nat>)
    requires TableOk(ds) && 0 < n && Window(ds, i, n)
    ensures TableOk(Entered(ds, i, n, va, length, prot, flags, file)) <==> Fits(ds, va, n)
  {
    hide TableOk, Window, Fits, Entered;
    if Fits(ds, va, n) {
      FitsOk(ds, i, n, va, length, prot, flags, file);
    }
    if TableOk(Entered(ds, i, n, va, length, prot, flags, file)) {
      OkFits(ds, i, n, va, length, prot, flags, file);
    }
  }

  lemma EnteredAt(ds: seq<Desc>, i: nat, n: nat, va: int, length: int, prot: int, flags: int, file: Option<nat>, j: nat)
    requires j < |ds|
    ensures |Entered(ds, i, n, va, length, prot, flags, file)| == |ds|
    ensures Entered(ds, i, n, va, length, prot, flags, file)[j] ==
              if i <= j < i + n then PageDesc(va, j - i, n, length, prot, flags, file) else ds[j]
  {
  }

  lemma PageOk(va: int, k: int, n: int, length: int, prot: int, flags: int, file: Option<nat>)
    requires 0 <= k < n && InRegion(va, n)
    ensures DescOk(PageDesc(va, k, n, length, prot, flags, file))
  {
    hide Has;
  }

  lemma FitsOk(ds: seq<Desc>, i: nat, n: nat, va: int, length: int, prot: int, flags: int, file: Option<nat>)
    requires TableOk(ds) && 0 < n && Window(ds, i, n) && Fits(ds, va, n)
    ensures TableOk(Entered(ds, i, n, va, length, prot, flags, file))
  {
    hide Entered, Has;
    var es := Entered(ds, i, n, va, length, prot, flags, file);
    EnteredAt(ds, i, n, va, length, prot, flags, file, 0);
    forall j | 0 <= j < |es|
      ensures DescOk(es[j]) && (es[j].valid && !(i <= j < i + n) ==> forall k | 0 <= k < n ::
                                                                     es[j].va != va + PGSIZE * k)
    {
      EnteredAt(ds, i, n, va, length, prot, flags, file, j);
      assert DescOk(ds[j]);
      if i <= j < i + n {
        PageOk(va, j - i, n, length, prot, flags, file);
      } else if ds[j].valid {
        NotTaken(ds, va, n, j);
      }
    }
    forall j, k | 0 <= j < k < |es| && es[j].valid && es[k].valid
      ensures es[j].va != es[k].va
    {
      EnteredAt(ds, i, n, va, length, prot, flags, file, j);
      EnteredAt(ds, i, n, va, length, prot, flags, file, k);
    }
  }

  lemma OkFits(ds: seq<Desc>, i: nat, n: nat, va: int, length: int, prot: int, flags: int, file: Option<nat>)
    requires TableOk(ds) && 0 < n && Window(ds, i, n) && TableOk(Entered(ds, i, n, va, length, prot, flags, file))
    ensures Fits(ds, va, n)
  {
    hide Entered, Has;
    var es := Entered(ds, i, n, va, length, prot, flags, file);
    EnteredAt(ds, i, n, va, length, prot, flags, file, i);
    EnteredAt(ds, i, n, va, length, prot, flags, file, i + n - 1);
    assert DescOk(es[i]) && DescOk(es[i + n - 1]);
    forall j, k | 0 <= j < |ds| && 0 <= k < n
      ensures !Meets(ds[j], va, k)
    {
      EnteredAt(ds, i, n, va, length, prot, flags, file, j);
      EnteredAt(ds, i, n, va, length, prot, flags, file, i + k);
      assert DescOk(ds[j]) && DescOk(es[i + k]);
    }
  }

  lemma NotTaken(ds: seq<Desc>, addr: int, n: nat, j: nat)
    requires !Taken(ds, addr, n) && j < |ds| && ds[j].valid
    ensures forall k | 0 <= k < n :: ds[j].va != addr + PGSIZE * k
  {
    forall k | 0 <= k < n
      ensures ds[j].va != addr + PGSIZE * k
    {
      assert !Meets(ds[j], addr, k);
    }
  }

  lemma FreedOk(ds: seq<Desc>, addr: int, length: int)
    requires TableOk(ds)
    ensures TableOk(Freed(ds, addr, length))
  {
  }

  /** Unmapping what was just mapped restores the table exactly if there was no guard page, which would stay. */
  lemma UnmapUndoesMap(ds: seq<Desc>, i: nat, va: int, length: int, prot: int, flags: int, file: Option<nat>)
    requires TableOk(ds) && 0 <= length && 0 < Wanted(length, flags) && Window(ds, i, Wanted(length, flags))
             && Fits(ds, va, Wanted(length, flags))
    ensures Freed(Entered(ds, i, Wanted(length, flags), va, length, prot, flags, file), va, length) == ds <==>
            !Has(flags, MAP_GROWSUP)
  {
    hide Entered, Has, TableOk, Taken, Window;
    var n := Wanted(length, flags);
    var es := Entered(ds, i, n, va, length, prot, flags, file);
    var fs := Freed(es, va, length);
    assert |ds| == PAGE_LIMIT by { TableSize(ds); }
    assert i + n <= |ds| && !ds[i + n - 1].valid by { LastInWindow(ds, i, n); }
    forall j | 0 <= j < |ds|
      ensures |fs| == |ds| && fs[j] == if j == i + n - 1 && Has(flags, MAP_GROWSUP) then es[j] else ds[j]
    {
      EnteredAt(ds, i, n, va, length, prot, flags, file, j);
      Undone(ds, i, n, va, length, flags, j);
    }
    EnteredAt(ds, i, n, va, length, prot, flags, file, i + n - 1);
    if !Has(flags, MAP_GROWSUP) {
      assert fs == ds;
    }
  }

  lemma LastInWindow(ds: seq<Desc>, i: nat, n: nat)
    requires Window(ds, i, n) && 0 < n
    ensures i + n <= |ds| && !ds[i + n - 1].valid
  {
  }

  /** Of the new pages all but a guard page are in the range, of the others none. */
  lemma Undone(ds: seq<Desc>, i: nat, n: nat, va: int, length: int, flags: int, j: nat)
    requires TableOk(ds) && n == Wanted(length, flags) && 0 < n && Window(ds, i, n) && Fits(ds, va, n) && j < |ds|
             && 0 <= length
    ensures if i <= j < i + n then ds[j] == Cleared()
            && (va <= va + PGSIZE * (j - i) < va + length <==> !(j == i + n - 1 && Has(flags, MAP_GROWSUP)))
            else !InRange(ds[j], va, length)
  {
    hide Has;
    assert DescOk(ds[j]);
    if !(i <= j < i + n) && ds[j].valid {
      NotTaken(ds, va, n, j);
      OutOfRange(ds[j], va, length);
    }
  }

  lemma OutOfRange(d: Desc, addr: int, length: int)
    requires DescOk(d) && d.valid && addr % PGSIZE == 0 && forall k | 0 <= k < Pages(length) ::
             d.va != addr + PGSIZE * k
    ensures !(addr <= d.va < addr + length)
  {
    var k := (d.va - addr) / PGSIZE;
    assert addr <= d.va < addr + length ==> d.va == addr + PGSIZE * k && 0 <= k < Pages(length);
  }

  /** One anonymous page mapped and unmapped: the table is empty again, and a word of the program is gone. */
  method AnonymousRun() returns (t: Table, effects: seq<Effect>)
    ensures fresh(t) && effects == [Clobber] && forall i | 0 <= i < t.descs.Length :: !t.descs[i].valid
  {
    t := new Table();
    ghost var ds := t.descs[..];
    assert Window(ds, 0, 1) && !Taken(ds, START, 1);
    var flags := MAP_PRIVATE + MAP_ANON;
    assert Wanted(100, flags) == 1 && !Refused(ds, 0, 100, flags, 0);
    var va, _ := t.Map(0, 100, 3, flags, None, 0);
    ghost var es := t.descs[..];
    assert es == Entered(ds, 0, 1, START, 100, 3, flags, None);
    var r; ghost var order;
    r, effects, order := t.Unmap(va, 100);
    OnlyFirst(ds, es, flags, order);
  }

  lemma OnlyFirst(ds: seq<Desc>, es: seq<Desc>, flags: int, order: seq<nat>)
    requires |ds| == PAGE_LIMIT && (forall i | 0 <= i < |ds| :: !ds[i].valid)
             && es == Entered(ds, 0, 1, START, 100, 3, flags, None)
    requires Collected(es, order, START, 100)
    ensures order == [0] && Effects(es, order) == [Clobber]
  {
    assert InRange(es[0], START, 100) && 0 in order;
    forall i | 0 <= i < |order|
      ensures order[i] == 0
    {
      assert order[i] in order && InRange(es[order[i]], START, 100);
    }
    AscendingOnce(es, order);
    Pigeons(order, 1);
    assert FileEffects(es, order, 0) == [];
  }
}
