/**
 Two-level x86 page tables. A page is 1024 words; entry words carry a frame number
 above 12 flag bits. A ghost map from frames to uses records that a frame is used once.
 */
module PageTables {
  const NENTRIES: nat := 1024         // words in a page, entries in a table or directory
  const NPAGES: nat := 0x10_0000      // virtual pages
  const USERPAGES: nat := 0x8_0000    // virtual pages below KERNBASE
  const PGSIZE: nat := 4096

  type Word = x: int | 0 <= x < 0x1_0000_0000
  type Page = p: seq<Word> | |p| == NENTRIES witness seq(NENTRIES, _ => 0)
  type Memory = seq<Page>

  function ZeroPage(): Page {
    seq(NENTRIES, _ => 0)
  }

  function Present(w: Word): bool { w % 2 == 1 }
  function Frame(w: Word): nat { w / PGSIZE }
  function Flags(w: Word): nat { w % PGSIZE }

  /** What a frame is used for: a directory, a table of one, a user page of one, or something else. */
  datatype Use = Dir(d: nat) | Table(d: nat, i: nat) | User(d: nat, v: nat) | Other

  function Pde(mem: Memory, d: nat, i: nat): Word
    requires d < |mem| && i < NENTRIES
  {
    mem[d][i]
  }

  /** The flat view of an address space: the entry of virtual page v, 0 where there is no table. */
  function Pte(mem: Memory, d: nat, v: nat): Word
    requires d < |mem| && v < NPAGES
  {
    if Present(Pde(mem, d, v / NENTRIES)) && Frame(Pde(mem, d, v / NENTRIES)) < |mem|
    then mem[Frame(Pde(mem, d, v / NENTRIES))][v % NENTRIES] else 0
  }

  ghost predicate UseOk(mem: Memory, dirs: set<nat>, f: nat, u: Use) {
    match u
    case Dir(d) => d == f && d in dirs
    case Table(d, i) => d in dirs && d < |mem| && i < NENTRIES && Present(Pde(mem, d, i)) && Frame(Pde(mem, d, i)) == f
    case User(d, v) => d in dirs && d < |mem| && v < USERPAGES && Present(Pte(mem, d, v)) && Frame(Pte(mem, d, v)) == f
    case Other => true
  }

  /** Every directory, table and user page is recorded under its one use, and every record is true. */
  ghost predicate Linked(mem: Memory, dirs: set<nat>, owner: map<nat, Use>) {
    && (forall d | d in dirs :: d < |mem| && d in owner && owner[d] == Dir(d))
    && (forall d, i | d in dirs && 0 <= i < NENTRIES && Present(Pde(mem, d, i)) ::
          Frame(Pde(mem, d, i)) in owner && owner[Frame(Pde(mem, d, i))] == Table(d, i))
    && (forall d, v | d in dirs && 0 <= v < USERPAGES && Present(Pte(mem, d, v)) ::
          Frame(Pte(mem, d, v)) in owner && owner[Frame(Pte(mem, d, v))] == User(d, v))
    && (forall f | f in owner :: f < |mem| && UseOk(mem, dirs, f, owner[f]))
  }

  /** Directory entries allow everything, so what an entry of the flat view allows is decided by its own flags. */
  ghost predicate Open(mem: Memory, dirs: set<nat>) {
    forall d, i | d in dirs && d < |mem| && 0 <= i < NENTRIES && Present(Pde(mem, d, i)) :: Flags(Pde(mem, d, i)) == 7
  }

  /** From mem to mem', every address space kept its flat view and its directory entries. */
  ghost predicate SameViews(mem: Memory, mem': Memory, dirs: set<nat>) {
    && |mem| == |mem'|
    && (forall d, i | d in dirs && d < |mem| && 0 <= i < NENTRIES :: Pde(mem', d, i) == Pde(mem, d, i))
    && (forall d, v | d in dirs && d < |mem| && 0 <= v < NPAGES :: Pte(mem', d, v) == Pte(mem, d, v))
  }

  lemma SameViewsOpen(mem: Memory, mem': Memory, dirs: set<nat>)
    requires Open(mem, dirs) && SameViews(mem, mem', dirs)
    ensures Open(mem', dirs)
  {
    hide Pde, Pte;
  }

  lemma SameViewsLinked(mem: Memory, mem': Memory, dirs: set<nat>, owner: map<nat, Use>)
    requires Linked(mem, dirs, owner) && SameViews(mem, mem', dirs)
    ensures Linked(mem', dirs, owner)
  {
  }

  /** A page that is no directory and no table can be overwritten without changing any view. */
  lemma PageWrite(mem: Memory, dirs: set<nat>, owner: map<nat, Use>, f: nat, p: Page)
    requires Linked(mem, dirs, owner) && f < |mem|
    requires f in owner ==> owner[f].User? || owner[f].Other?
    ensures SameViews(mem, mem[f := p], dirs) && Linked(mem[f := p], dirs, owner)
  {
    var mem' := mem[f := p];
    forall d, i | d in dirs && d < |mem| && 0 <= i < NENTRIES
      ensures Pde(mem', d, i) == Pde(mem, d, i)
    {
      assert d != f;
    }
    forall d, v | d in dirs && d < |mem| && 0 <= v < NPAGES
      ensures Pte(mem', d, v) == Pte(mem, d, v)
    {
      assert Pde(mem', d, v / NENTRIES) == Pde(mem, d, v / NENTRIES);
      assert Present(Pde(mem, d, v / NENTRIES)) ==> Frame(Pde(mem, d, v / NENTRIES)) != f;
    }
    SameViewsLinked(mem, mem', dirs, owner);
  }

  function WithEntry(mem: Memory, f: nat, i: nat, w: Word): Memory
    requires f < |mem| && i < NENTRIES
  {
    mem[f := mem[f][i := w]]
  }

  /** Hanging a zeroed table under an empty directory entry changes no flat view. */
  lemma NewTable(mem: Memory, dirs: set<nat>, owner: map<nat, Use>, d: nat, i: nat, t: nat, w: Word)
    requires Linked(mem, dirs, owner) && d in dirs && i < NENTRIES && !Present(Pde(mem, d, i))
    requires t < |mem| && t in owner && owner[t].Other? && mem[t] == ZeroPage() && Present(w) && Frame(w) == t
    ensures var mem' := WithEntry(mem, d, i, w);
            && Linked(mem', dirs, owner[t := Table(d, i)])
            && (forall e, v | e in dirs && 0 <= v < NPAGES :: Pte(mem', e, v) == Pte(mem, e, v))
            && (forall e, k | e in dirs && 0 <= k < NENTRIES && !(e == d && k == i) ::
                Pde(mem', e, k) == Pde(mem, e, k))
            && Pde(mem', d, i) == w
  {
    var mem' := WithEntry(mem, d, i, w);
    var owner' := owner[t := Table(d, i)];
    forall e, k | e in dirs && 0 <= k < NENTRIES
      ensures Pde(mem', e, k) == if e == d && k == i then w else Pde(mem, e, k)
    {
    }
    forall e, v | e in dirs && 0 <= v < NPAGES
      ensures Pte(mem', e, v) == Pte(mem, e, v)
    {
      var k := v / NENTRIES;
      assert Pde(mem', e, k) == if e == d && k == i then w else Pde(mem, e, k);
      assert Present(Pde(mem, e, k)) ==> owner[Frame(Pde(mem, e, k))] == Table(e, k);
    }
    assert forall f | f in owner' :: UseOk(mem', dirs, f, owner'[f]) by {
      forall f | f in owner'
        ensures UseOk(mem', dirs, f, owner'[f])
      {
        if f != t {
          assert UseOk(mem, dirs, f, owner[f]);
        }
      }
    }
  }

  /** From mem to mem', the flat view of d changed at v only, to w. */
  ghost predicate EntrySet(mem: Memory, mem': Memory, dirs: set<nat>, d: nat, v: nat, w: Word) {
    && |mem| == |mem'|
    && (forall e, k | e in dirs && e < |mem| && 0 <= k < NENTRIES :: Pde(mem', e, k) == Pde(mem, e, k))
    && (forall e, u | e in dirs && e < |mem| && 0 <= u < NPAGES ::
          Pte(mem', e, u) == if e == d && u == v then w else Pte(mem, e, u))
  }

  /** Writing the entry of virtual page v changes the flat view at v only. */
  lemma SetEntry(mem: Memory, dirs: set<nat>, owner: map<nat, Use>, d: nat, v: nat, w: Word)
    requires Linked(mem, dirs, owner) && d in dirs && v < NPAGES && Present(Pde(mem, d, v / NENTRIES))
    ensures Frame(Pde(mem, d, v / NENTRIES)) < |mem|
    ensures EntrySet(mem, WithEntry(mem, Frame(Pde(mem, d, v / NENTRIES)), v % NENTRIES, w), dirs, d, v, w)
  {
  }

  lemma EntryOpen(mem: Memory, mem': Memory, dirs: set<nat>, d: nat, v: nat, w: Word)
    requires Open(mem, dirs) && EntrySet(mem, mem', dirs, d, v, w)
    ensures Open(mem', dirs)
  {
    hide Pde, Pte;
  }

  /** Kernel entries name frames nobody owns. */
  lemma MapKernel(mem: Memory, mem': Memory, dirs: set<nat>, owner: map<nat, Use>, d: nat, v: nat, w: Word)
    requires Linked(mem, dirs, owner) && EntrySet(mem, mem', dirs, d, v, w) && d in dirs && USERPAGES <= v < NPAGES
    ensures Linked(mem', dirs, owner)
  {
  }

  /** Mapping a frame that was in no address space gives it its one user. */
  lemma MapUser(mem: Memory, mem': Memory, dirs: set<nat>, owner: map<nat, Use>, d: nat, v: nat, w: Word)
    requires Linked(mem, dirs, owner) && EntrySet(mem, mem', dirs, d, v, w) && d in dirs && v < USERPAGES
    requires !Present(Pte(mem, d, v)) && Present(w) && Frame(w) in owner && owner[Frame(w)].Other?
    ensures Linked(mem', dirs, owner[Frame(w) := User(d, v)])
  {
    hide Pde, Pte;
    var owner' := owner[Frame(w) := User(d, v)];
    forall f | f in owner'
      ensures f < |mem'| && UseOk(mem', dirs, f, owner'[f])
    {
      assert UseOk(mem, dirs, f, owner[f]);
    }
  }

  /** Clearing a user entry leaves its frame unowned. */
  lemma Unmap(mem: Memory, mem': Memory, dirs: set<nat>, owner: map<nat, Use>, d: nat, v: nat)
    requires Linked(mem, dirs, owner) && EntrySet(mem, mem', dirs, d, v, 0) && d in dirs && v < USERPAGES
    requires Present(Pte(mem, d, v))
    ensures Linked(mem', dirs, owner - {Frame(Pte(mem, d, v))})
  {
    hide Pde, Pte;
    var owner' := owner - {Frame(Pte(mem, d, v))};
    forall f | f in owner'
      ensures f < |mem'| && UseOk(mem', dirs, f, owner'[f])
    {
      assert UseOk(mem, dirs, f, owner[f]);
    }
  }
}
