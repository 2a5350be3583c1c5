/**
 The inodes of a file system with their link counts, and what create, link, unlink and
 the freeing of an inode do to them.
 */
module LinkCounts {
  import opened Directories

  const ROOTINO: nat := 1

  /** An allocated inode; entries is empty for anything but a directory. */
  datatype Node = Node(dir: bool, nlink: int, entries: seq<Dirent>)

  type Nodes = map<nat, Node>

  /** A directory that is still linked. */
  ghost predicate Live(nodes: Nodes, p: nat) {
    p in nodes && nodes[p].dir && nodes[p].nlink > 0
  }

  /** Entry k of the linked directory p, "." aside, names inode i. */
  ghost predicate Cites(nodes: Nodes, p: nat, k: nat, i: nat) {
    Live(nodes, p) && 1 <= k < |nodes[p].entries| && nodes[p].entries[k].inum == i
  }

  ghost function Refs(nodes: Nodes, i: nat): set<(nat, nat)> {
    set p, k | p in nodes && 0 <= k < |nodes[p].entries| && Cites(nodes, p, k, i) :: (p, k)
  }

  ghost function Dot(): Field { Pad(".") }
  ghost function DotDot(): Field { Pad("..") }

  /** A directory starts with its own entry and its parent's, and its names are distinct. */
  ghost predicate NodeOk(n: Node, self: nat) {
    if n.dir then
      && 2 <= |n.entries| <= MAXENTRIES && n.entries[0] == Dirent(self, Dot()) && n.entries[1].name == DotDot()
      && n.entries[1].inum != 0
      && Distinct(n.entries) && NamesPadded(n.entries)
    else n.entries == []
  }

  ghost predicate NodesOk(nodes: Nodes) {
    0 !in nodes && forall i | i in nodes :: NodeOk(nodes[i], i)
  }

  ghost function Parent(nodes: Nodes, c: nat): nat
    requires c in nodes && |nodes[c].entries| >= 2
  {
    nodes[c].entries[1].inum
  }

  /** The entry of a linked directory names an inode; a directory knows the one directory that names it. */
  ghost predicate EntryOk(nodes: Nodes, p: nat, k: nat)
    requires p in nodes && k < |nodes[p].entries|
  {
    var c := nodes[p].entries[k].inum;
    c != 0 ==> c in nodes && (nodes[c].dir ==> c != ROOTINO && |nodes[c].entries| >= 2 && Parent(nodes, c) == p)
  }

  ghost predicate EntriesOk(nodes: Nodes) {
    && (forall p, k | Live(nodes, p) && 2 <= k < |nodes[p].entries| :: EntryOk(nodes, p, k))
    && (forall c | c in nodes && nodes[c].dir :: OnceNamed(nodes, c))
  }

  ghost predicate OnceNamed(nodes: Nodes, c: nat) {
    forall p, j, k | 2 <= j && 2 <= k && Cites(nodes, p, j, c) && Cites(nodes, p, k, c) :: j == k
  }

  ghost predicate NamedIn(nodes: Nodes, p: nat, c: nat) {
    exists k :: 2 <= k && Cites(nodes, p, k, c)
  }

  /** Every linked directory but the root is entered in a linked parent. */
  ghost predicate TreeOk(nodes: Nodes) {
    && Live(nodes, ROOTINO) && |nodes[ROOTINO].entries| >= 2 && Parent(nodes, ROOTINO) == ROOTINO
    && (forall c | Live(nodes, c) && c != ROOTINO ::
          |nodes[c].entries| >= 2 && Parent(nodes, c) != c && Live(nodes, Parent(nodes, c))
          && NamedIn(nodes, Parent(nodes, c), c))
  }

  /** Going up from a linked directory, the rank falls. */
  ghost predicate Ranked(nodes: Nodes, rank: map<nat, nat>) {
    && ROOTINO in rank
    && (forall c | Live(nodes, c) && c != ROOTINO ::
          |nodes[c].entries| >= 2 && c in rank && Parent(nodes, c) in rank && rank[Parent(nodes, c)] < rank[c])
  }

  /** Every linked directory leads up to the root: with TreeOk, they form a tree. */
  ghost predicate Rooted(nodes: Nodes) {
    exists rank :: Ranked(nodes, rank)
  }

  /** A directory nobody links to any more has no entries but the dots. */
  ghost predicate OrphansEmpty(nodes: Nodes) {
    forall p, k | p in nodes && nodes[p].dir && nodes[p].nlink <= 0 && 2 <= k < |nodes[p].entries| ::
        nodes[p].entries[k].inum == 0
  }

  ghost predicate Counted(nodes: Nodes) {
    forall i | i in nodes :: nodes[i].nlink == |Refs(nodes, i)|
  }

  ghost predicate Consistent(nodes: Nodes) {
    NodesOk(nodes) && EntriesOk(nodes) && TreeOk(nodes) && Rooted(nodes) && OrphansEmpty(nodes) && Counted(nodes)
  }

  /** Where linked directories are the old ones with their old parents, they lead up to the root as before. */
  lemma RootedStays(nodes: Nodes, nodes': Nodes)
    requires Rooted(nodes)
    requires forall c | Live(nodes', c) ::
               Live(nodes, c) && (c != ROOTINO && |nodes[c].entries| >= 2 ==>
                                  |nodes'[c].entries| >= 2 && Parent(nodes', c) == Parent(nodes, c))
    ensures Rooted(nodes')
  {
    var rank :| Ranked(nodes, rank);
    assert Ranked(nodes', rank);
  }

  // ---------------------------------------------------------------- a new name

  ghost predicate FreeSlot(nodes: Nodes, dp: nat, k: nat, name: Field) {
    && dp in nodes && nodes[dp].dir && k <= |nodes[dp].entries| && k < MAXENTRIES && !Used(nodes[dp].entries, k)
    && Padded(name)
    && (forall j | Used(nodes[dp].entries, j) :: nodes[dp].entries[j].name != name)
  }

  ghost function Entered(n: Node, k: nat, e: Dirent): Node
    requires k <= |n.entries|
  {
    n.(entries := WithEntry(n.entries, k, e))
  }

  /** File c has one more link, and entry k of dp names it. */
  ghost function FileEntered(nodes: Nodes, dp: nat, k: nat, name: Field, c: nat, nlink: int): Nodes
    requires dp in nodes && k <= |nodes[dp].entries|
  {
    nodes[c := Node(false, nlink, [])][dp := Entered(nodes[dp], k, Dirent(c, name))]
  }

  ghost predicate NewFileName(nodes: Nodes, dp: nat, k: nat, name: Field, c: nat) {
    NodesOk(nodes) && FreeSlot(nodes, dp, k, name) && c != 0 && c != dp && (c in nodes ==> !nodes[c].dir)
  }

  lemma FileEnteredCites(nodes: Nodes, dp: nat, k: nat, name: Field, c: nat, nlink: int)
    requires NewFileName(nodes, dp, k, name, c)
    ensures var nodes' := FileEntered(nodes, dp, k, name, c, nlink);
            && (forall p: nat :: Live(nodes', p) <==> Live(nodes, p))
            && (forall p: nat, j: nat, i: nat | i != 0 ::
                  Cites(nodes', p, j, i) <==> Cites(nodes, p, j, i) || (p == dp && j == k && i == c && Live(nodes, dp)))
  {
  }

  lemma RefsAre(nodes: Nodes, i: nat, p: nat, k: nat)
    ensures (p, k) in Refs(nodes, i) <==> Cites(nodes, p, k, i)
  {
  }

  /** When entry (p, k) is the one more that names i, the count goes up by one; otherwise it stays. */
  lemma RefsGrow(nodes: Nodes, nodes': Nodes, i: nat, p: nat, k: nat, more: bool)
    requires more ==> !Cites(nodes, p, k, i)
    requires forall q: nat, j: nat :: Cites(nodes', q, j, i) <==> Cites(nodes, q, j, i) || (more && q == p && j == k)
    ensures |Refs(nodes', i)| == |Refs(nodes, i)| + if more then 1 else 0
  {
    hide Cites, Live;
    assert Refs(nodes', i) == Refs(nodes, i) + if more then {(p, k)} else {} by {
      forall q: nat, j: nat
        ensures (q, j) in Refs(nodes', i) <==> (q, j) in Refs(nodes, i) || (more && (q, j) == (p, k))
      {
        RefsAre(nodes, i, q, j);
        RefsAre(nodes', i, q, j);
      }
    }
    RefsAre(nodes, i, p, k);
  }

  lemma FileEnteredNodes(nodes: Nodes, dp: nat, k: nat, name: Field, c: nat, nlink: int)
    requires NewFileName(nodes, dp, k, name, c)
    ensures NodesOk(FileEntered(nodes, dp, k, name, c, nlink))
  {
  }

  lemma FileEnteredCounts(nodes: Nodes, dp: nat, k: nat, name: Field, c: nat)
    requires NewFileName(nodes, dp, k, name, c) && Counted(nodes)
    ensures var nodes' := FileEntered(nodes, dp, k, name, c, |Refs(nodes, c)| + 1);
            Counted(nodes') <==> Live(nodes, dp)
  {
    hide Cites, Live, NodesOk, Refs;
    var nodes' := FileEntered(nodes, dp, k, name, c, |Refs(nodes, c)| + 1);
    FileEnteredCites(nodes, dp, k, name, c, |Refs(nodes, c)| + 1);
    SlotUncited(nodes, dp, k, name);
    forall i | i in nodes'
      ensures |Refs(nodes', i)| == |Refs(nodes, i)| + if i == c && Live(nodes, dp) then 1 else 0
    {
      assert i != 0 by { NoZero(nodes, dp, k, name, c); }
      RefsGrow(nodes, nodes', i, dp, k, i == c && Live(nodes, dp));
    }
    assert c in nodes' && nodes'[c].nlink == |Refs(nodes, c)| + 1;
    assert forall i | i in nodes' && i != c :: i in nodes && nodes'[i].nlink == nodes[i].nlink;
  }

  lemma NoZero(nodes: Nodes, dp: nat, k: nat, name: Field, c: nat)
    requires NewFileName(nodes, dp, k, name, c)
    ensures 0 !in nodes
  {
  }

  lemma SlotUncited(nodes: Nodes, dp: nat, k: nat, name: Field)
    requires FreeSlot(nodes, dp, k, name)
    ensures forall i: nat | i != 0 :: !Cites(nodes, dp, k, i)
  {
  }

  lemma FileEnteredTree(nodes: Nodes, dp: nat, k: nat, name: Field, c: nat, nlink: int)
    requires NewFileName(nodes, dp, k, name, c) && TreeOk(nodes) && OrphansEmpty(nodes)
    ensures var nodes' := FileEntered(nodes, dp, k, name, c, nlink);
            TreeOk(nodes') && (Live(nodes, dp) ==> OrphansEmpty(nodes'))
  {
    hide Cites, NodesOk, Used;
    var nodes' := FileEntered(nodes, dp, k, name, c, nlink);
    FileEnteredCites(nodes, dp, k, name, c, nlink);
    DotsKept(nodes, dp, k, name, c, nlink);
    forall d | Live(nodes', d) && d != ROOTINO
      ensures NamedIn(nodes', Parent(nodes, d), d)
    {
      assert NamedIn(nodes, Parent(nodes, d), d);
      var j :| 2 <= j && Cites(nodes, Parent(nodes, d), j, d);
      assert d != 0 by { NoZero(nodes, dp, k, name, c); }
      assert Cites(nodes', Parent(nodes, d), j, d);
    }
  }

  lemma DotsKept(nodes: Nodes, dp: nat, k: nat, name: Field, c: nat, nlink: int)
    requires NewFileName(nodes, dp, k, name, c)
    ensures k >= 2
    ensures var nodes' := FileEntered(nodes, dp, k, name, c, nlink);
            forall d | d in nodes && nodes[d].dir :: |nodes[d].entries| >= 2 && d in nodes' && nodes'[d].dir
                                                     && |nodes'[d].entries| >= 2
                                                     && Parent(nodes', d) == Parent(nodes, d)
  {
  }

  lemma FileEnteredEntries(nodes: Nodes, dp: nat, k: nat, name: Field, c: nat, nlink: int)
    requires NewFileName(nodes, dp, k, name, c) && EntriesOk(nodes)
    ensures EntriesOk(FileEntered(nodes, dp, k, name, c, nlink))
  {
    hide NodesOk, Used;
    var nodes' := FileEntered(nodes, dp, k, name, c, nlink);
    FileEnteredCites(nodes, dp, k, name, c, nlink);
    DotsKept(nodes, dp, k, name, c, nlink);
    forall p, j | Live(nodes', p) && 2 <= j < |nodes'[p].entries|
      ensures EntryOk(nodes', p, j)
    {
      if !(p == dp && j == k) {
        assert EntryOk(nodes, p, j);
      }
    }
    forall d | d in nodes' && nodes'[d].dir
      ensures OnceNamed(nodes', d)
    {
      hide Cites;
      assert d in nodes && nodes[d].dir && OnceNamed(nodes, d) && d != c;
      assert d != 0 by { NoZero(nodes, dp, k, name, c); }
    }
  }

  lemma FileEnteredRooted(nodes: Nodes, dp: nat, k: nat, name: Field, c: nat, nlink: int)
    requires NewFileName(nodes, dp, k, name, c) && Rooted(nodes)
    ensures Rooted(FileEntered(nodes, dp, k, name, c, nlink))
  {
    hide Rooted, NodesOk, Used, Cites;
    FileEnteredCites(nodes, dp, k, name, c, nlink);
    DotsKept(nodes, dp, k, name, c, nlink);
    RootedStays(nodes, FileEntered(nodes, dp, k, name, c, nlink));
  }

  /** Giving a file one more name keeps the counts right exactly when the directory is still linked. */
  lemma FileEnteredConsistent(nodes: Nodes, dp: nat, k: nat, name: Field, c: nat)
    requires Consistent(nodes) && NewFileName(nodes, dp, k, name, c)
    ensures Consistent(FileEntered(nodes, dp, k, name, c, |Refs(nodes, c)| + 1)) <==> Live(nodes, dp)
  {
    hide NodesOk, EntriesOk, TreeOk, Rooted, OrphansEmpty, Counted, Refs, Live, NewFileName, FileEntered;
    var n := |Refs(nodes, c)| + 1;
    FileEnteredRooted(nodes, dp, k, name, c, n);
    FileEnteredCounts(nodes, dp, k, name, c);
    FileEnteredNodes(nodes, dp, k, name, c, n);
    FileEnteredEntries(nodes, dp, k, name, c, n);
    FileEnteredTree(nodes, dp, k, name, c, n);
  }

  // ---------------------------------------------------------------- a new directory

  /** What linked directories name exists. */
  lemma CitedExists(nodes: Nodes, p: nat, k: nat, i: nat)
    requires EntriesOk(nodes) && TreeOk(nodes) && Cites(nodes, p, k, i) && i != 0
    ensures i in nodes
  {
    if k >= 2 {
      assert EntryOk(nodes, p, k);
    }
  }

  lemma FreshUncited(nodes: Nodes, c: nat)
    requires EntriesOk(nodes) && TreeOk(nodes) && c !in nodes && c != 0
    ensures Refs(nodes, c) == {} && forall p: nat, k: nat :: !Cites(nodes, p, k, c)
  {
    forall p: nat, k: nat
      ensures !Cites(nodes, p, k, c)
    {
      if Cites(nodes, p, k, c) {
        CitedExists(nodes, p, k, c);
      }
    }
  }

  ghost function DotEntries(c: nat, dp: nat): seq<Dirent> {
    [Dirent(c, Dot()), Dirent(dp, DotDot())]
  }

  /** The new directory c is entered in dp; dp has one more link for c's "..". */
  ghost function DirEntered(nodes: Nodes, dp: nat, k: nat, name: Field, c: nat): Nodes
    requires dp in nodes && k <= |nodes[dp].entries|
  {
    nodes[c := Node(true, 1, DotEntries(c, dp))]
         [dp := Node(nodes[dp].dir, nodes[dp].nlink + 1, WithEntry(nodes[dp].entries, k, Dirent(c, name)))]
  }

  ghost predicate NewDirName(nodes: Nodes, dp: nat, k: nat, name: Field, c: nat) {
    NodesOk(nodes) && FreeSlot(nodes, dp, k, name) && c != 0 && c !in nodes
  }

  lemma DirEnteredCites(nodes: Nodes, dp: nat, k: nat, name: Field, c: nat)
    requires NewDirName(nodes, dp, k, name, c) && Live(nodes, dp)
    ensures var nodes' := DirEntered(nodes, dp, k, name, c);
            && k >= 2 && dp != 0
            && (forall p: nat :: Live(nodes', p) <==> Live(nodes, p) || p == c)
            && (forall p: nat, j: nat, i: nat | i != 0 ::
                  Cites(nodes', p, j, i) <==> Cites(nodes, p, j, i) || (p == dp && j == k && i == c)
                                                || (p == c && j == 1 && i == dp))
            && (forall d | d in nodes && nodes[d].dir :: |nodes[d].entries| >= 2 && |nodes'[d].entries| >= 2
                                                         && Parent(nodes', d) == Parent(nodes, d))
  {
  }

  lemma DotsDiffer()
    ensures Dot() != DotDot() && Padded(Dot()) && Padded(DotDot())
  {
    assert Dot()[1] == NUL && DotDot()[1] == '.';
  }

  lemma DirEnteredNodes(nodes: Nodes, dp: nat, k: nat, name: Field, c: nat)
    requires NewDirName(nodes, dp, k, name, c)
    ensures NodesOk(DirEntered(nodes, dp, k, name, c))
  {
  }

  lemma DirEnteredCounts(nodes: Nodes, dp: nat, k: nat, name: Field, c: nat)
    requires NewDirName(nodes, dp, k, name, c) && Counted(nodes) && Live(nodes, dp) && EntriesOk(nodes) && TreeOk(nodes)
    ensures Counted(DirEntered(nodes, dp, k, name, c))
  {
    hide Cites, Live, NodesOk, Refs, EntriesOk, TreeOk;
    var nodes' := DirEntered(nodes, dp, k, name, c);
    DirEnteredCites(nodes, dp, k, name, c);
    FreshUncited(nodes, c);
    SlotUncited(nodes, dp, k, name);
    NotAmong(nodes, c);
    assert 0 !in nodes by { NoZeroIn(nodes); }
    forall i | i in nodes'
      ensures nodes'[i].nlink == |Refs(nodes', i)|
    {
      if i == dp {
        RefsGrow(nodes, nodes', i, c, 1, true);
      } else {
        RefsGrow(nodes, nodes', i, dp, k, i == c);
      }
    }
  }

  lemma NoZeroIn(nodes: Nodes)
    requires NodesOk(nodes)
    ensures 0 !in nodes
  {
  }

  lemma NotAmong(nodes: Nodes, c: nat)
    requires c !in nodes
    ensures forall k: nat, i: nat :: !Cites(nodes, c, k, i)
  {
  }

  lemma DirEnteredTree(nodes: Nodes, dp: nat, k: nat, name: Field, c: nat)
    requires NewDirName(nodes, dp, k, name, c) && TreeOk(nodes) && OrphansEmpty(nodes) && Live(nodes, dp)
    ensures TreeOk(DirEntered(nodes, dp, k, name, c)) && OrphansEmpty(DirEntered(nodes, dp, k, name, c))
  {
    hide Cites, NodesOk, Used, Pad;
    var nodes' := DirEntered(nodes, dp, k, name, c);
    DirEnteredCites(nodes, dp, k, name, c);
    assert Cites(nodes', dp, k, c);
    forall d | Live(nodes', d) && d != ROOTINO
      ensures NamedIn(nodes', Parent(nodes', d), d)
    {
      if d != c {
        assert NamedIn(nodes, Parent(nodes, d), d);
        var j :| 2 <= j && Cites(nodes, Parent(nodes, d), j, d);
        assert d != 0 by { NoZeroIn(nodes); }
        assert Cites(nodes', Parent(nodes, d), j, d);
      }
    }
  }

  lemma DirEnteredEntries(nodes: Nodes, dp: nat, k: nat, name: Field, c: nat)
    requires NewDirName(nodes, dp, k, name, c) && EntriesOk(nodes) && TreeOk(nodes) && Live(nodes, dp)
    ensures EntriesOk(DirEntered(nodes, dp, k, name, c))
  {
    hide NodesOk, Used, TreeOk, Pad;
    var nodes' := DirEntered(nodes, dp, k, name, c);
    DirEnteredCites(nodes, dp, k, name, c);
    FreshUncited(nodes, c);
    RootThere(nodes);
    forall p, j | Live(nodes', p) && 2 <= j < |nodes'[p].entries|
      ensures EntryOk(nodes', p, j)
    {
      if p != c && !(p == dp && j == k) {
        assert EntryOk(nodes, p, j);
      }
    }
    forall d | d in nodes' && nodes'[d].dir
      ensures OnceNamed(nodes', d)
    {
      hide Cites;
      assert d != 0 by { NoZeroIn(nodes); }
      if d != c {
        assert OnceNamed(nodes, d);
      }
    }
  }

  lemma RootThere(nodes: Nodes)
    requires TreeOk(nodes)
    ensures ROOTINO in nodes
  {
  }

  /** A new directory ranks above its parent. */
  lemma DirEnteredRooted(nodes: Nodes, dp: nat, k: nat, name: Field, c: nat)
    requires NewDirName(nodes, dp, k, name, c) && Rooted(nodes) && TreeOk(nodes) && Live(nodes, dp)
    ensures Rooted(DirEntered(nodes, dp, k, name, c))
  {
    hide NodesOk, Used, Cites, Pad;
    var nodes' := DirEntered(nodes, dp, k, name, c);
    DirEnteredCites(nodes, dp, k, name, c);
    var rank :| Ranked(nodes, rank);
    assert Ranked(nodes', rank[c := rank[dp] + 1]);
  }

  lemma DirEnteredElsewhere(nodes: Nodes, dp: nat, k: nat, name: Field, c: nat, p: nat, j: nat, i: nat)
    requires NewDirName(nodes, dp, k, name, c) && p != dp && j >= 2
    ensures Cites(DirEntered(nodes, dp, k, name, c), p, j, i) ==> Cites(nodes, p, j, i)
  {
  }

  /** Making a directory in one that is no longer linked revives it without a name of its own. */
  lemma DirEnteredOrphan(nodes: Nodes, dp: nat, k: nat, name: Field, c: nat)
    requires NewDirName(nodes, dp, k, name, c) && Counted(nodes) && TreeOk(nodes) && !Live(nodes, dp)
    ensures !TreeOk(DirEntered(nodes, dp, k, name, c))
  {
    hide NodesOk, Cites, Refs;
    var nodes' := DirEntered(nodes, dp, k, name, c);
    var refs := Refs(nodes, dp);
    assert nodes[dp].nlink == |refs|;
    if TreeOk(nodes') {
      assert Live(nodes', dp) && dp != ROOTINO;
      var p := Parent(nodes', dp);
      assert NamedIn(nodes', p, dp);
      var j :| 2 <= j && Cites(nodes', p, j, dp);
      DirEnteredElsewhere(nodes, dp, k, name, c, p, j, dp);
      RefsAre(nodes, dp, p, j);
    }
  }

  lemma DirEnteredConsistent(nodes: Nodes, dp: nat, k: nat, name: Field, c: nat)
    requires Consistent(nodes) && NewDirName(nodes, dp, k, name, c)
    ensures Consistent(DirEntered(nodes, dp, k, name, c)) <==> Live(nodes, dp)
  {
    hide NodesOk, EntriesOk, TreeOk, Rooted, OrphansEmpty, Counted, Live, NewDirName, DirEntered;
    if Live(nodes, dp) {
      DirEnteredRooted(nodes, dp, k, name, c);
      DirEnteredCounts(nodes, dp, k, name, c);
      DirEnteredNodes(nodes, dp, k, name, c);
      DirEnteredEntries(nodes, dp, k, name, c);
      DirEnteredTree(nodes, dp, k, name, c);
    } else {
      DirEnteredOrphan(nodes, dp, k, name, c);
    }
  }

  // ---------------------------------------------------------------- a name less

  ghost function NoEntry(): Dirent {
    Dirent(0, seq(DIRSIZ, _ => NUL))
  }

  lemma RefsShrink(nodes: Nodes, nodes': Nodes, i: nat, p: nat, k: nat, less: bool)
    requires less ==> Cites(nodes, p, k, i)
    requires forall q: nat, j: nat :: Cites(nodes', q, j, i) <==> Cites(nodes, q, j, i) && !(less && q == p && j == k)
    ensures |Refs(nodes', i)| == |Refs(nodes, i)| - if less then 1 else 0
  {
    hide Cites, Live;
    RefsGrow(nodes', nodes, i, p, k, less);
  }

  /** Entry k of dp, not a dot, names ip. */
  ghost predicate Names(nodes: Nodes, dp: nat, k: nat, ip: nat) {
    dp in nodes && nodes[dp].dir && 2 <= k < |nodes[dp].entries| && nodes[dp].entries[k].inum == ip && ip != 0
  }

  lemma NamingLive(nodes: Nodes, dp: nat, k: nat, ip: nat)
    requires OrphansEmpty(nodes) && Names(nodes, dp, k, ip)
    ensures Cites(nodes, dp, k, ip)
  {
  }

  lemma NamedThere(nodes: Nodes, dp: nat, k: nat, ip: nat)
    requires EntriesOk(nodes) && TreeOk(nodes) && k >= 2 && Cites(nodes, dp, k, ip) && ip != 0
    ensures ip in nodes && ip != dp && ip != ROOTINO
            && (nodes[ip].dir ==> |nodes[ip].entries| >= 2 && Parent(nodes, ip) == dp)
  {
    hide OnceNamed, NamedIn;
    assert EntryOk(nodes, dp, k);
  }

  lemma CitedCounted(nodes: Nodes, p: nat, k: nat, i: nat)
    requires Counted(nodes) && Cites(nodes, p, k, i) && i in nodes
    ensures nodes[i].nlink >= 1
  {
    hide Live, Cites;
    RefsAre(nodes, i, p, k);
    var refs := Refs(nodes, i);
    hide Refs;
    assert nodes[i].nlink == |refs|;
  }

  lemma NamingIsLinked(nodes: Nodes, dp: nat, k: nat, ip: nat)
    requires Consistent(nodes) && Names(nodes, dp, k, ip)
    ensures Cites(nodes, dp, k, ip) && ip in nodes && ip != dp && nodes[ip].nlink >= 1 && ip != ROOTINO
    ensures nodes[ip].dir ==> |nodes[ip].entries| >= 2 && Parent(nodes, ip) == dp
  {
    hide NodesOk, EntriesOk, TreeOk, Rooted, OrphansEmpty, Counted, Cites;
    NamingLive(nodes, dp, k, ip);
    NamedThere(nodes, dp, k, ip);
    CitedCounted(nodes, dp, k, ip);
  }

  /** A linked directory is entered in its parent, which therefore is not empty. */
  lemma ChildEntered(nodes: Nodes, p: nat, ip: nat)
    requires TreeOk(nodes) && 0 !in nodes && Cites(nodes, p, 1, ip) && ip != ROOTINO
    ensures !Empty(nodes[ip].entries)
  {
  }

  /** Only entry k of dp names the empty directory ip. */
  lemma EmptyNamedOnce(nodes: Nodes, dp: nat, k: nat, ip: nat)
    requires Consistent(nodes) && Names(nodes, dp, k, ip) && ip in nodes && nodes[ip].dir && Empty(nodes[ip].entries)
    ensures nodes[ip].nlink == 1
    ensures forall p: nat, j: nat :: Cites(nodes, p, j, ip) <==> p == dp && j == k
  {
    hide NodesOk, TreeOk, Rooted, OrphansEmpty, Counted, Empty, EntriesOk, Cites, Refs;
    NamingIsLinked(nodes, dp, k, ip);
    NoZeroIn(nodes);
    forall p: nat, j: nat | Cites(nodes, p, j, ip)
      ensures p == dp && j == k
    {
      EntryNumber(nodes, p, j, ip);
      if j == 1 {
        ChildEntered(nodes, p, ip);
      } else {
        NamedThere(nodes, p, j, ip);
        NamedOnce(nodes, ip);
      }
    }
    CountOne(nodes, dp, k, ip);
  }

  lemma EntryNumber(nodes: Nodes, p: nat, j: nat, i: nat)
    requires Cites(nodes, p, j, i)
    ensures j >= 1
  {
  }

  lemma NamedOnce(nodes: Nodes, c: nat)
    requires EntriesOk(nodes) && c in nodes && nodes[c].dir
    ensures OnceNamed(nodes, c)
  {
  }

  lemma CountOne(nodes: Nodes, p: nat, k: nat, i: nat)
    requires Counted(nodes) && i in nodes && forall q: nat, j: nat :: Cites(nodes, q, j, i) <==> q == p && j == k
    ensures nodes[i].nlink == 1
  {
    hide Cites, Live;
    forall q: nat, j: nat
      ensures (q, j) in Refs(nodes, i) <==> (q, j) in {(p, k)}
    {
      RefsAre(nodes, i, q, j);
    }
    assert Refs(nodes, i) == {(p, k)};
  }

  ghost predicate Empty(es: seq<Dirent>) {
    forall k | 2 <= k < |es| :: es[k].inum == 0
  }

  ghost function FileDropped(nodes: Nodes, dp: nat, k: nat, ip: nat): Nodes
    requires dp in nodes && ip in nodes && k < |nodes[dp].entries|
  {
    nodes[dp := nodes[dp].(entries := nodes[dp].entries[k := NoEntry()])][ip :=
                                                                          nodes[ip].(nlink := nodes[ip].nlink - 1)]
  }

  lemma FileDroppedCites(nodes: Nodes, dp: nat, k: nat, ip: nat)
    requires NodesOk(nodes) && Names(nodes, dp, k, ip) && ip in nodes && !nodes[ip].dir
    ensures var nodes' := FileDropped(nodes, dp, k, ip);
            && 0 !in nodes && (forall p: nat :: Live(nodes', p) <==> Live(nodes, p))
            && (forall p: nat, j: nat, i: nat | i != 0 :: Cites(nodes', p, j, i) <==>
                                                          Cites(nodes, p, j, i) && !(p == dp && j == k))
            && (forall d | d in nodes && nodes[d].dir :: |nodes[d].entries| >= 2 && |nodes'[d].entries| >= 2
                                                         && Parent(nodes', d) == Parent(nodes, d))
  {
  }

  lemma FileDroppedNodes(nodes: Nodes, dp: nat, k: nat, ip: nat)
    requires NodesOk(nodes) && Names(nodes, dp, k, ip) && ip in nodes && !nodes[ip].dir
    ensures NodesOk(FileDropped(nodes, dp, k, ip))
  {
  }

  lemma FileDroppedCounts(nodes: Nodes, dp: nat, k: nat, ip: nat)
    requires NodesOk(nodes) && Counted(nodes) && Names(nodes, dp, k, ip) && ip in nodes && !nodes[ip].dir
             && Cites(nodes, dp, k, ip)
    ensures Counted(FileDropped(nodes, dp, k, ip))
  {
    hide Cites, Live, NodesOk, Refs;
    var nodes' := FileDropped(nodes, dp, k, ip);
    FileDroppedCites(nodes, dp, k, ip);
    OneName(nodes, dp, k, ip);
    forall i | i in nodes'
      ensures nodes'[i].nlink == |Refs(nodes', i)|
    {
      RefsShrink(nodes, nodes', i, dp, k, i == ip);
    }
  }

  lemma OneName(nodes: Nodes, p: nat, k: nat, i: nat)
    requires Cites(nodes, p, k, i)
    ensures forall j: nat :: Cites(nodes, p, k, j) ==> j == i
  {
  }

  lemma FileDroppedEntries(nodes: Nodes, dp: nat, k: nat, ip: nat)
    requires NodesOk(nodes) && EntriesOk(nodes) && Names(nodes, dp, k, ip) && ip in nodes && !nodes[ip].dir
    ensures EntriesOk(FileDropped(nodes, dp, k, ip))
  {
    hide NodesOk;
    var nodes' := FileDropped(nodes, dp, k, ip);
    FileDroppedCites(nodes, dp, k, ip);
    forall p, j | Live(nodes', p) && 2 <= j < |nodes'[p].entries|
      ensures EntryOk(nodes', p, j)
    {
      assert EntryOk(nodes, p, j);
    }
    forall d | d in nodes' && nodes'[d].dir
      ensures OnceNamed(nodes', d)
    {
      hide Cites;
      assert OnceNamed(nodes, d);
    }
  }

  lemma FileDroppedTree(nodes: Nodes, dp: nat, k: nat, ip: nat)
    requires NodesOk(nodes) && TreeOk(nodes) && OrphansEmpty(nodes) && Names(nodes, dp, k, ip) && ip in nodes
             && !nodes[ip].dir
    requires Cites(nodes, dp, k, ip)
    ensures TreeOk(FileDropped(nodes, dp, k, ip)) && OrphansEmpty(FileDropped(nodes, dp, k, ip))
  {
    hide NodesOk, Cites;
    var nodes' := FileDropped(nodes, dp, k, ip);
    FileDroppedCites(nodes, dp, k, ip);
    OneName(nodes, dp, k, ip);
    forall d | Live(nodes', d) && d != ROOTINO
      ensures NamedIn(nodes', Parent(nodes, d), d)
    {
      assert NamedIn(nodes, Parent(nodes, d), d);
      var j :| 2 <= j && Cites(nodes, Parent(nodes, d), j, d);
      assert Cites(nodes', Parent(nodes, d), j, d);
    }
  }

  lemma FileDroppedRooted(nodes: Nodes, dp: nat, k: nat, ip: nat)
    requires NodesOk(nodes) && Rooted(nodes) && Names(nodes, dp, k, ip) && ip in nodes && !nodes[ip].dir
    ensures Rooted(FileDropped(nodes, dp, k, ip))
  {
    hide Rooted, NodesOk, Cites;
    FileDroppedCites(nodes, dp, k, ip);
    RootedStays(nodes, FileDropped(nodes, dp, k, ip));
  }

  lemma FileDroppedConsistent(nodes: Nodes, dp: nat, k: nat, ip: nat)
    requires Consistent(nodes) && Names(nodes, dp, k, ip) && ip in nodes && !nodes[ip].dir
    ensures Consistent(FileDropped(nodes, dp, k, ip))
  {
    hide EntriesOk, TreeOk, Rooted, OrphansEmpty, Counted, NodesOk, FileDropped;
    NamingIsLinked(nodes, dp, k, ip);
    FileDroppedRooted(nodes, dp, k, ip);
    FileDroppedNodes(nodes, dp, k, ip);
    FileDroppedCounts(nodes, dp, k, ip);
    FileDroppedEntries(nodes, dp, k, ip);
    FileDroppedTree(nodes, dp, k, ip);
  }

  // ---------------------------------------------------------------- a directory less

  ghost function DirDropped(nodes: Nodes, dp: nat, k: nat, ip: nat): Nodes
    requires dp in nodes && ip in nodes && k < |nodes[dp].entries|
  {
    nodes[dp := Node(nodes[dp].dir, nodes[dp].nlink - 1, nodes[dp].entries[k := NoEntry()])][ip :=
        nodes[ip].(nlink := nodes[ip].nlink - 1)]
  }

  ghost predicate EmptyDir(nodes: Nodes, dp: nat, k: nat, ip: nat) {
    Names(nodes, dp, k, ip) && ip in nodes && nodes[ip].dir && Empty(nodes[ip].entries)
  }

  lemma TwoRefs(nodes: Nodes, i: nat, p: nat, j: nat, q: nat, k: nat)
    requires Counted(nodes) && i in nodes && Cites(nodes, p, j, i) && Cites(nodes, q, k, i) && (p, j) != (q, k)
    ensures nodes[i].nlink >= 2
  {
    hide Cites, Live;
    RefsAre(nodes, i, p, j);
    RefsAre(nodes, i, q, k);
    assert |Refs(nodes, i) - {(p, j)} - {(q, k)}| == |Refs(nodes, i)| - 2;
  }

  /** Besides the ".." of a child, something else names every linked directory. */
  lemma OtherName(nodes: Nodes, dp: nat, c: nat)
    requires TreeOk(nodes) && Counted(nodes) && Live(nodes, dp) && Cites(nodes, c, 1, dp) && c != ROOTINO
    ensures nodes[dp].nlink >= 2
  {
    hide Counted;
    if dp == ROOTINO {
      TwoRefs(nodes, dp, ROOTINO, 1, c, 1);
    } else {
      var p := Parent(nodes, dp);
      assert NamedIn(nodes, p, dp);
      var j :| 2 <= j && Cites(nodes, p, j, dp);
      TwoRefs(nodes, dp, p, j, c, 1);
    }
  }

  lemma DirDroppedCites(nodes: Nodes, dp: nat, k: nat, ip: nat)
    requires NodesOk(nodes) && EmptyDir(nodes, dp, k, ip) && Cites(nodes, dp, k, ip) && ip != dp && nodes[ip].nlink == 1
    requires |nodes[ip].entries| >= 2 && Parent(nodes, ip) == dp && nodes[dp].nlink >= 2
    ensures var nodes' := DirDropped(nodes, dp, k, ip);
            && 0 !in nodes && Cites(nodes, ip, 1, dp)
            && (forall p: nat :: Live(nodes', p) <==> Live(nodes, p) && p != ip)
            && (forall p: nat, j: nat, i: nat | i != 0 ::
                  Cites(nodes', p, j, i) <==> Cites(nodes, p, j, i) && !(p == dp && j == k)
                                              && !(p == ip && j == 1 && i == dp))
            && (forall d | d in nodes && nodes[d].dir :: |nodes[d].entries| >= 2 && |nodes'[d].entries| >= 2
                                                         && Parent(nodes', d) == Parent(nodes, d))
  {
  }

  ghost predicate DropReady(nodes: Nodes, dp: nat, k: nat, ip: nat) {
    && NodesOk(nodes) && EmptyDir(nodes, dp, k, ip) && Cites(nodes, dp, k, ip) && ip != dp && ip != ROOTINO
    && nodes[ip].nlink == 1 && |nodes[ip].entries| >= 2 && Parent(nodes, ip) == dp && nodes[dp].nlink >= 2
    && (forall p: nat, j: nat :: Cites(nodes, p, j, ip) <==> p == dp && j == k)
  }

  lemma DirDropReady(nodes: Nodes, dp: nat, k: nat, ip: nat)
    requires Consistent(nodes) && EmptyDir(nodes, dp, k, ip)
    ensures DropReady(nodes, dp, k, ip)
  {
    hide EntriesOk, TreeOk, Rooted, OrphansEmpty, Counted, NodesOk, Empty;
    NamingIsLinked(nodes, dp, k, ip);
    EmptyNamedOnce(nodes, dp, k, ip);
    OtherName(nodes, dp, ip);
  }

  lemma DirDroppedNodes(nodes: Nodes, dp: nat, k: nat, ip: nat)
    requires DropReady(nodes, dp, k, ip)
    ensures NodesOk(DirDropped(nodes, dp, k, ip))
  {
  }

  lemma DirDroppedCounts(nodes: Nodes, dp: nat, k: nat, ip: nat)
    requires DropReady(nodes, dp, k, ip) && Counted(nodes)
    ensures Counted(DirDropped(nodes, dp, k, ip))
  {
    hide Cites, Live, NodesOk, Refs, Empty;
    var nodes' := DirDropped(nodes, dp, k, ip);
    DirDroppedCites(nodes, dp, k, ip);
    OneName(nodes, dp, k, ip);
    OneName(nodes, ip, 1, dp);
    forall i | i in nodes'
      ensures nodes'[i].nlink == |Refs(nodes', i)|
    {
      if i == dp {
        RefsShrink(nodes, nodes', i, ip, 1, true);
      } else {
        RefsShrink(nodes, nodes', i, dp, k, i == ip);
      }
    }
  }

  lemma DirDroppedEntries(nodes: Nodes, dp: nat, k: nat, ip: nat)
    requires DropReady(nodes, dp, k, ip) && EntriesOk(nodes)
    ensures EntriesOk(DirDropped(nodes, dp, k, ip))
  {
    hide NodesOk, Empty;
    var nodes' := DirDropped(nodes, dp, k, ip);
    DirDroppedCites(nodes, dp, k, ip);
    forall p, j | Live(nodes', p) && 2 <= j < |nodes'[p].entries|
      ensures EntryOk(nodes', p, j)
    {
      assert EntryOk(nodes, p, j);
    }
    forall d | d in nodes' && nodes'[d].dir
      ensures OnceNamed(nodes', d)
    {
      hide Cites;
      assert OnceNamed(nodes, d);
    }
  }

  lemma DirDroppedTree(nodes: Nodes, dp: nat, k: nat, ip: nat)
    requires DropReady(nodes, dp, k, ip) && TreeOk(nodes)
    ensures TreeOk(DirDropped(nodes, dp, k, ip))
  {
    hide NodesOk, Cites;
    var nodes' := DirDropped(nodes, dp, k, ip);
    DirDroppedCites(nodes, dp, k, ip);
    OneName(nodes, dp, k, ip);
    forall d | Live(nodes', d) && d != ROOTINO
      ensures NamedIn(nodes', Parent(nodes, d), d) && Parent(nodes, d) != ip
    {
      if Parent(nodes, d) == ip {
        ParentCited(nodes, d);
        ChildEntered(nodes, d, ip);
      }
      assert NamedIn(nodes, Parent(nodes, d), d);
      var j :| 2 <= j && Cites(nodes, Parent(nodes, d), j, d);
      assert Cites(nodes', Parent(nodes, d), j, d);
    }
  }

  lemma ParentCited(nodes: Nodes, d: nat)
    requires Live(nodes, d) && |nodes[d].entries| >= 2
    ensures Cites(nodes, d, 1, Parent(nodes, d))
  {
  }

  lemma DirDroppedOrphans(nodes: Nodes, dp: nat, k: nat, ip: nat)
    requires DropReady(nodes, dp, k, ip) && OrphansEmpty(nodes)
    ensures OrphansEmpty(DirDropped(nodes, dp, k, ip))
  {
  }

  lemma DirDroppedRooted(nodes: Nodes, dp: nat, k: nat, ip: nat)
    requires DropReady(nodes, dp, k, ip) && Rooted(nodes)
    ensures Rooted(DirDropped(nodes, dp, k, ip))
  {
    hide Rooted, NodesOk, Cites, Empty;
    DirDroppedCites(nodes, dp, k, ip);
    RootedStays(nodes, DirDropped(nodes, dp, k, ip));
  }

  lemma DirDroppedConsistent(nodes: Nodes, dp: nat, k: nat, ip: nat)
    requires Consistent(nodes) && EmptyDir(nodes, dp, k, ip)
    ensures Consistent(DirDropped(nodes, dp, k, ip)) && nodes[ip].nlink == 1 && ip != dp
  {
    hide EntriesOk, TreeOk, Rooted, OrphansEmpty, Counted, NodesOk, DirDropped, Empty;
    DirDropReady(nodes, dp, k, ip);
    DirDroppedRooted(nodes, dp, k, ip);
    DirDroppedNodes(nodes, dp, k, ip);
    DirDroppedCounts(nodes, dp, k, ip);
    DirDroppedEntries(nodes, dp, k, ip);
    DirDroppedTree(nodes, dp, k, ip);
    DirDroppedOrphans(nodes, dp, k, ip);
  }

  // ---------------------------------------------------------------- freeing an inode

  lemma FreedCites(nodes: Nodes, c: nat)
    requires c in nodes && nodes[c].nlink <= 0
    ensures forall p: nat :: Live(nodes - {c}, p) <==> Live(nodes, p)
    ensures forall p: nat, j: nat, i: nat :: Cites(nodes - {c}, p, j, i) <==> Cites(nodes, p, j, i)
  {
  }

  lemma FreedCounts(nodes: Nodes, c: nat)
    requires Counted(nodes) && c in nodes && nodes[c].nlink <= 0
    ensures Counted(nodes - {c}) && forall p: nat, j: nat :: !Cites(nodes, p, j, c)
  {
    hide Cites, Live, Refs;
    FreedCites(nodes, c);
    forall i | i in nodes - {c}
      ensures |Refs(nodes - {c}, i)| == |Refs(nodes, i)|
    {
      RefsGrow(nodes, nodes - {c}, i, 0, 0, false);
    }
    forall p: nat, j: nat
      ensures !Cites(nodes, p, j, c)
    {
      if Cites(nodes, p, j, c) {
        CitedCounted(nodes, p, j, c);
      }
    }
  }

  lemma FreedTree(nodes: Nodes, c: nat)
    requires TreeOk(nodes) && EntriesOk(nodes) && NodesOk(nodes) && c in nodes && nodes[c].nlink <= 0
    requires forall p: nat, j: nat :: !Cites(nodes, p, j, c)
    ensures TreeOk(nodes - {c}) && EntriesOk(nodes - {c})
  {
    hide NodesOk;
    NoZeroIn(nodes);
    FreedCites(nodes, c);
    var nodes' := nodes - {c};
    forall p, j | Live(nodes', p) && 2 <= j < |nodes'[p].entries|
      ensures EntryOk(nodes', p, j)
    {
      assert EntryOk(nodes, p, j);
      assert Cites(nodes, p, j, nodes[p].entries[j].inum);
    }
    hide Cites;
    forall d | d in nodes' && nodes'[d].dir
      ensures OnceNamed(nodes', d)
    {
      assert OnceNamed(nodes, d);
    }
    forall d | Live(nodes', d) && d != ROOTINO
      ensures NamedIn(nodes', Parent(nodes, d), d)
    {
      assert NamedIn(nodes, Parent(nodes, d), d);
    }
  }

  lemma FreedConsistent(nodes: Nodes, c: nat)
    requires Consistent(nodes) && c in nodes && nodes[c].nlink <= 0
    ensures Consistent(nodes - {c})
  {
    hide EntriesOk, TreeOk, Rooted, Counted;
    FreedCounts(nodes, c);
    FreedCites(nodes, c);
    RootedStays(nodes, nodes - {c});
    FreedTree(nodes, c);
  }
}
