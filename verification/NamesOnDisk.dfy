/**
 The system calls on names over the block layer: directories are read and written with readi
 and writei, inodes with iupdate. Each call does to the inodes on disk what Namespace says of it,
 in one transaction that fits the log, so a crash leaves the name space before or after it.
 */
module NamesOnDisk {
  import opened Common
  import opened Blocks
  import opened Inodes
  import opened FileSystem
  import opened FileWrite
  import opened Directories
  import opened LinkCounts
  import opened DirBytes
  import opened Namespace
  import LogDisk
  import CrashSafety

  /** Nothing half-done in memory, and only blocks of the file system logged. */
  ghost predicate Settled(sb: Super, s: Snapshot) {
    && sb.Valid() && Linked(sb, s.mem, s.data, s.owner) && Bits(sb, s.bitmap, s.owner.Keys) && Solid(s.mem, s.data)
    && Tidy(s.mem)
    && forall b | b in s.logged :: FsBlock(sb, b)
  }

  /** Between the steps of a call. */
  ghost predicate Ready(fs: FileSys)
    reads fs
  {
    fs.dinodes == fs.mem && Solid(fs.mem, fs.data) && Settled(fs.sb, fs.Snap())
  }

  /** What is on disk, and the name space it holds. */
  ghost function Disk(s: Snapshot): Stored { Stored(s.bitmap, s.mem, s.data) }

  ghost function Space(s: Snapshot): Nodes
    requires Solid(s.mem, s.data)
  {
    NodesOf(s.mem, s.data)
  }

  // ---------------------------------------------------------------- steps on values

  /** All inodes but i look as before. */
  ghost predicate Elsewhere(mem: Table, data: seq<Block>, mem': Table, data': seq<Block>, i: nat)
    requires Solid(mem, data) && Solid(mem', data')
  {
    |mem| == |mem'| && forall j | 0 <= j < |mem| && j != i ::
        mem'[j] == mem[j] && Content(mem'[j], data') == Content(mem[j], data)
  }

  /** Then the name space changes at i only. */
  lemma OneNode(mem: Table, data: seq<Block>, mem': Table, data': seq<Block>, i: nat)
    requires Solid(mem, data) && Solid(mem', data') && Elsewhere(mem, data, mem', data', i) && i < |mem|
    ensures NodesOf(mem', data') == if mem'[i].kind == 0 then NodesOf(mem, data) - {i}
                                    else NodesOf(mem, data)[i := NodeOf(mem'[i], Content(mem'[i], data'))]
  {
    hide Content, NoHoles, NodeOf;
  }

  lemma WroteElsewhere(s: Snapshot, t: Snapshot, i: nat, off: nat, src: seq<Byte>)
    requires i < |s.mem| && WriteDone(s, t, i, off, src)
    requires Solid(s.mem, s.data) && NoHoles(t.mem[i], t.data) && off <= s.mem[i].size && off + |src| <= MAXBYTES
    ensures Solid(t.mem, t.data) && Elsewhere(s.mem, s.data, t.mem, t.data, i)
    ensures Content(t.mem[i], t.data) == Spliced(Content(s.mem[i], s.data), off, src)
  {
    hide BytesSet, OthersKept, SlotsKept, Content, Extent;
    WriteSplices(s, t, i, off, src);
  }

  lemma ContentLength(d: Dinode, data: seq<Block>)
    requires d.size <= MAXBYTES
    ensures |Content(d, data)| == d.size
  {
  }

  /** From s to t entry k of directory dp became e, and what changed was logged. */
  ghost predicate Put(sb: Super, s: Snapshot, t: Snapshot, dp: nat, k: nat, e: Dirent)
    requires Solid(s.mem, s.data) && Solid(t.mem, t.data)
  {
    && dp < |s.mem| == |t.mem| && ENTRY * k + ENTRY <= MAXBYTES
    && t.mem == s.mem[dp := s.mem[dp].(addrs := t.mem[dp].addrs, size := t.mem[dp].size)]
    && dp in Space(s) && k <= |Space(s)[dp].entries|
    && Space(t) == Space(s)[dp := LinkCounts.Entered(Space(s)[dp], k, e)]
    && Changes(sb, Disk(s), Disk(t), t.logged) && SlotsKept(s.mem, s.data, t.mem, t.data)
    && t.logged == s.logged + Logs(sb, dp, t.mem[dp], t.data, s.mem[dp].size, ENTRY * k, ENTRY)
  }

  /** An entry written into a directory's bytes, as the name space sees it. */
  lemma EntryPut(s: Snapshot, t: Snapshot, dp: nat, k: nat, e: Dirent)
    requires dp < |s.mem| && s.mem[dp].kind == T_DIR && Tidy(s.mem) && Solid(s.mem, s.data) && Small(e)
             && k < MAXENTRIES
    requires ENTRY * k <= s.mem[dp].size && WriteDone(s, t, dp, ENTRY * k, EntryBytes(e)) && NoHoles(t.mem[dp], t.data)
    ensures Solid(t.mem, t.data) && Tidy(t.mem) && |t.mem| == |s.mem| && dp in Space(s)
    ensures k <= |Space(s)[dp].entries| && Space(t) == Space(s)[dp := LinkCounts.Entered(Space(s)[dp], k, e)]
  {
    hide BytesSet, OthersKept, SlotsKept, Content, Extent, NoHoles, EntryBytes, NodesOf, NodeOf, Spliced, Small;
    WroteElsewhere(s, t, dp, ENTRY * k, EntryBytes(e));
    OneNode(s.mem, s.data, t.mem, t.data, dp);
    ContentLength(s.mem[dp], s.data);
    NodeAt(s, dp);
    NodeWithEntry(s.mem[dp], Content(s.mem[dp], s.data), t.mem[dp], k, e);
    StillTidy(s.mem, t.mem, dp, k);
  }

  lemma NodeWithEntry(d: Dinode, c: seq<Byte>, d': Dinode, k: nat, e: Dirent)
    requires d.kind == d'.kind == T_DIR && d'.nlink == d.nlink && |c| % ENTRY == 0 && ENTRY * k <= |c| && Small(e)
    ensures k <= |NodeOf(d, c).entries|
    ensures NodeOf(d', Spliced(c, ENTRY * k, EntryBytes(e))) == LinkCounts.Entered(NodeOf(d, c), k, e)
  {
    hide EntryBytes, Small, Spliced;
    SplicedEntries(c, k, e);
  }

  lemma StillTidy(mem: Table, mem': Table, dp: nat, k: nat)
    requires Tidy(mem) && dp < |mem| == |mem'| && mem[dp].kind == T_DIR
    requires mem' == mem[dp := mem[dp].(addrs := mem'[dp].addrs, size := Max(mem[dp].size, ENTRY * k + ENTRY))]
    ensures Tidy(mem')
  {
    var n := mem[dp].size;
    assert n % ENTRY == 0 && (ENTRY * k + ENTRY) % ENTRY == 0;
  }

  lemma PutDone(sb: Super, s: Snapshot, t: Snapshot, dinodes: Table, dp: nat, k: nat, e: Dirent)
    requires Settled(sb, s) && dp < |s.mem| && s.mem[dp].kind == T_DIR && Small(e) && k < MAXENTRIES
             && ENTRY * k <= s.mem[dp].size
    requires WriteDone(s, t, dp, ENTRY * k, EntryBytes(e)) && NoHoles(t.mem[dp], t.data) && Covered(sb, s, t)
    requires Linked(sb, t.mem, t.data, t.owner) && Bits(sb, t.bitmap, t.owner.Keys) && dinodes == t.mem
    requires dinodes == s.mem || (dinodes == s.mem[dp := t.mem[dp]] && sb.InodeBlock(dp) in t.logged)
    requires t.logged == s.logged + Logs(sb, dp, t.mem[dp], t.data, s.mem[dp].size, ENTRY * k, ENTRY)
    ensures Settled(sb, t) && Put(sb, s, t, dp, k, e)
  {
    hide Linked, Bits, BytesSet, OthersKept, SlotsKept, NoHoles, Logs, Changes, Covered, EntryBytes, NodesOf, Tidy,
         FsBlock;
    EntryPut(s, t, dp, k, e);
    WroteChanges(sb, s, t, s.mem, dinodes, dp, ENTRY * k, ENTRY);
    LoggedFs(sb, Disk(s), Disk(t), t.logged);
  }

  lemma NoneNeeded(size: nat, off: nat, n: nat)
    ensures off + n <= size ==> Growth(size, off, n) == 0
  {
  }

  lemma ForFree(bitmap: seq<bool>, bitmap': seq<bool>, ok: bool)
    requires Paid(bitmap, bitmap', 0, ok)
    ensures ok
  {
  }

  lemma LoggedFs(sb: Super, s: Stored, t: Stored, logged: set<nat>)
    requires Changes(sb, s, t, logged)
    ensures forall b | b in logged :: FsBlock(sb, b)
  {
  }

  // ---------------------------------------------------------------- steps

  /** writei of one entry. False is the panic for want of a block. */
  method PutEntry(fs: FileSys, dp: nat, k: nat, e: Dirent) returns (ok: bool)
    requires Ready(fs) && dp < |fs.mem| && fs.mem[dp].kind == T_DIR && Small(e) && k < MAXENTRIES
             && ENTRY * k <= fs.mem[dp].size
    modifies fs
    ensures !ok ==> fs.Full()
    ensures ENTRY * k + ENTRY <= old(fs.mem)[dp].size ==> ok
    ensures ok ==> Ready(fs) && Put(fs.sb, old(fs.Snap()), fs.Snap(), dp, k, e)
  {
    hide Linked, Bits, BytesSet, OthersKept, SlotsKept, Logs, Changes, Covered, Paid, EntryBytes, NodesOf, Growth, Slot,
         Put, Extent, Tidy, FsBlock;
    ghost var s := fs.Snap();
    NoneNeeded(fs.mem[dp].size, ENTRY * k, ENTRY);
    var w := fs.Writei(dp, EntryBytes(e), ENTRY * k, ENTRY);
    if s.mem[dp].size >= ENTRY * k + ENTRY {
      ForFree(s.bitmap, fs.bitmap, w.Done?);
    }
    if w.Panicked? {
      return false;
    }
    PutDone(fs.sb, s, fs.Snap(), fs.dinodes, dp, k, e);
    ok := true;
  }

  /**
   * From s to t only inode i has changed, in memory and on disk, keeping its addresses and size, and its block is
   * logged.
   */
  ghost predicate Updated(sb: Super, s: Snapshot, t: Snapshot, i: nat, d: Dinode) {
    && i < |s.mem| && d.addrs == s.mem[i].addrs && d.size == s.mem[i].size
    && t == s.(mem := s.mem[i := d], logged := s.logged + {sb.InodeBlock(i)})
  }

  lemma UpdatedNodes(sb: Super, s: Snapshot, t: Snapshot, i: nat, d: Dinode)
    requires Settled(sb, s) && Updated(sb, s, t, i, d) && (d.kind == T_DIR ==> d.size % ENTRY == 0)
             && (d.kind == 0 ==> d.size == 0)
    ensures Settled(sb, t) && Changes(sb, Disk(s), Disk(t), t.logged) && SlotsKept(s.mem, s.data, t.mem, t.data)
    ensures Space(t) == if d.kind == 0 then Space(s) - {i} else Space(s)[i := NodeOf(d, Content(s.mem[i], s.data))]
  {
    SameAddrs(s.mem[i], d, s.data);
    hide Slot, Bits, NodesOf, Content;
    assert SameSlots(s.mem, s.data, t.mem, t.data);
    SameSlotsLinked(sb, s.mem, s.data, t.mem, t.data, s.owner);
    SolidStays(s.mem, t.mem, s.data, i);
    InodeIsFs(sb, i);
    OneNode(s.mem, s.data, t.mem, t.data, i);
  }

  lemma SameAddrs(d: Dinode, d': Dinode, data: seq<Block>)
    requires d'.addrs == d.addrs && d'.size == d.size
    ensures forall k | 0 <= k <= INDIRECT :: Slot(d', data, k) == Slot(d, data, k)
    ensures d.size <= MAXBYTES ==> Content(d', data) == Content(d, data)
  {
    forall p | 0 <= p < d.size && d.size <= MAXBYTES
      ensures ByteAt(d', data, p) == ByteAt(d, data, p)
    {
      assert Slot(d', data, p / BSIZE) == Slot(d, data, p / BSIZE);
    }
  }

  lemma SolidStays(mem: Table, mem': Table, data: seq<Block>, i: nat)
    requires Solid(mem, data) && |mem| == |mem'| && forall j | 0 <= j < |mem| :: mem'[j].size == mem[j].size
    requires SameSlots(mem, data, mem', data)
    ensures Solid(mem', data)
  {
    hide Slot;
    forall j | 0 <= j < |mem'|
      ensures NoHoles(mem'[j], data)
    {
      assert NoHoles(mem[j], data);
    }
  }

  /** Change an inode's link count, in memory and on disk. */
  method SetLinks(fs: FileSys, i: nat, n: Short)
    requires Ready(fs) && i < |fs.mem| && fs.mem[i].kind != 0
    modifies fs
    ensures Ready(fs) && Updated(fs.sb, old(fs.Snap()), fs.Snap(), i, old(fs.mem)[i].(nlink := n))
    ensures Changes(fs.sb, old(Disk(fs.Snap())), Disk(fs.Snap()), fs.logged) && i in old(Space(fs.Snap()))
    ensures Space(fs.Snap()) == old(Space(fs.Snap()))[i := old(Space(fs.Snap()))[i].(nlink := n)]
  {
    hide Linked, Bits, Solid, Content, Slot, Changes, NodesOf, FsBlock;
    ghost var s := fs.Snap();
    fs.mem := fs.mem[i := fs.mem[i].(nlink := n)];
    fs.Iupdate(i);
    NodeAt(s, i);
    UpdatedNodes(fs.sb, s, fs.Snap(), i, fs.mem[i]);
  }

  lemma NodeAt(s: Snapshot, i: nat)
    requires Solid(s.mem, s.data) && i < |s.mem|
    ensures i in Space(s) <==> s.mem[i].kind != 0
    ensures s.mem[i].kind != 0 ==> s.mem[i].size <= MAXBYTES
                                   && Space(s)[i] == NodeOf(s.mem[i], Content(s.mem[i], s.data))
  {
  }

  /** Take the lowest free inode: on disk its type, in memory what is on disk. None is the panic. */
  method AllocInode(fs: FileSys, kind: Short) returns (r: Option<nat>)
    requires Ready(fs) && kind != 0
    modifies fs
    ensures r.None? ==> fs.Snap() == old(fs.Snap()) && Ready(fs) && forall i | 1 <= i < |fs.mem| :: fs.mem[i].kind != 0
    ensures r.Some? ==> && Ready(fs) && 1 <= r.value < |old(fs.mem)| && old(fs.mem)[r.value].kind == 0
                        && (forall i | 1 <= i < r.value :: old(fs.mem)[i].kind != 0)
                        && Updated(fs.sb, old(fs.Snap()), fs.Snap(), r.value, Dinode(kind, 0, 0, 0, 0, NO_ADDRS))
                        && Changes(fs.sb, old(Disk(fs.Snap())), Disk(fs.Snap()), fs.logged)
                        && Space(fs.Snap()) == old(Space(fs.Snap()))[r.value := Node(kind == T_DIR, 0, [])]
  {
    hide Linked, Bits, Content, Slot, Changes, NodesOf, FsBlock, Extent;
    ghost var s := fs.Snap();
    var i := 1;
    while i < |fs.dinodes|
      invariant 1 <= i && fs.Snap() == s && fs.dinodes == s.mem && forall j | 1 <= j < i && j < |s.mem| ::
                s.mem[j].kind != 0
    {
      if fs.dinodes[i].kind == 0 {
        fs.dinodes := fs.dinodes[i := Dinode(kind, 0, 0, 0, 0, NO_ADDRS)];
        fs.logged := fs.logged + {fs.sb.InodeBlock(i)};
        fs.mem := fs.mem[i := fs.dinodes[i]];
        FreeIsEmpty(fs.sb, s, i);
        UpdatedNodes(fs.sb, s, fs.Snap(), i, fs.mem[i]);
        NoContent(s.mem[i], s.data);
        return Some(i);
      }
      i := i + 1;
    }
    r := None;
  }

  lemma FreeIsEmpty(sb: Super, s: Snapshot, i: nat)
    requires Settled(sb, s) && i < |s.mem| && s.mem[i].kind == 0
    ensures s.mem[i].size == 0 && s.mem[i].addrs == NO_ADDRS
  {
    var d := s.mem[i];
    assert NoHoles(d, s.data);
    forall k | 0 <= k <= NDIRECT
      ensures d.addrs[k] == 0
    {
      assert Slot(d, s.data, if k == NDIRECT then INDIRECT else k) == d.addrs[k];
    }
  }

  lemma NoContent(d: Dinode, data: seq<Block>)
    requires d.size == 0
    ensures Content(d, data) == [] && Entries([]) == []
  {
  }

  // ---------------------------------------------------------------- reading entries

  /** readi of one entry. */
  method GetEntry(fs: FileSys, dp: nat, k: nat) returns (e: Dirent)
    requires Ready(fs) && dp < |fs.mem| && fs.mem[dp].kind == T_DIR && ENTRY * k < fs.mem[dp].size
    modifies fs
    ensures fs.Snap() == old(fs.Snap()) && Ready(fs)
    ensures dp in Space(fs.Snap()) && k < |Space(fs.Snap())[dp].entries| && e == Space(fs.Snap())[dp].entries[k]
  {
    hide Linked, Bits, Content, Slot, NodesOf, FsBlock, SameBytes, EntryAt;
    ghost var s := fs.Snap();
    NodeAt(s, dp);
    EntryPlace(s, dp, k);
    var r, dst := fs.Readi(dp, ENTRY * k, ENTRY);
    assert r == FileSystem.Done(ENTRY);
    e := EntryAt(dst, 0);
    SameEntry(dst, 0, Content(s.mem[dp], s.data), ENTRY * k);
  }

  lemma EntryPlace(s: Snapshot, dp: nat, k: nat)
    requires Solid(s.mem, s.data) && Tidy(s.mem) && dp < |s.mem| && s.mem[dp].kind == T_DIR
             && ENTRY * k < s.mem[dp].size
    ensures ENTRY * k + ENTRY <= s.mem[dp].size <= MAXBYTES && |Content(s.mem[dp], s.data)| == s.mem[dp].size
    ensures k < |Entries(Content(s.mem[dp], s.data))|
            && Entries(Content(s.mem[dp], s.data))[k] == EntryAt(Content(s.mem[dp], s.data), ENTRY * k)
  {
    ContentLength(s.mem[dp], s.data);
  }

  /** dirlookup: the index of the entry with the name. */
  method Lookup(fs: FileSys, dp: nat, name: CString) returns (r: Option<nat>)
    requires Ready(fs) && dp < |fs.mem| && fs.mem[dp].kind == T_DIR && dp in Space(fs.Snap())
             && NamesPadded(Space(fs.Snap())[dp].entries)
    modifies fs
    ensures fs.Snap() == old(fs.Snap()) && Ready(fs)
    ensures var es := old(Space(fs.Snap()))[dp].entries;
            && (r.None? <==> forall k | Used(es, k) :: es[k].name != Pad(name))
            && (r.Some? ==> Used(es, r.value) && es[r.value].name == Pad(name))
  {
    hide Settled, NodesOf, Pad, Padded;
    ghost var s := fs.Snap();
    DirSize(fs.sb, s, dp);
    ghost var es := Space(s)[dp].entries;
    var k := 0;
    while ENTRY * k < fs.mem[dp].size
      invariant 0 <= k <= |es| && fs.Snap() == s && Ready(fs)
      invariant forall j | 0 <= j < k && Used(es, j) :: es[j].name != Pad(name)
      decreases |es| - k
    {
      var e := GetEntry(fs, dp, k);
      if e.inum != 0 {
        var c := Namecmp(name, e.name);
        if c == 0 {
          assert Used(es, k);
          return Some(k);
        }
      }
      k := k + 1;
    }
    r := None;
  }

  /** A directory of n entries has 16 * n bytes. */
  lemma DirSize(sb: Super, s: Snapshot, dp: nat)
    requires Settled(sb, s) && dp < |s.mem| && s.mem[dp].kind == T_DIR
    ensures Solid(s.mem, s.data) && dp in Space(s) && s.mem[dp].size == ENTRY * |Space(s)[dp].entries| <= MAXBYTES
            && Space(s)[dp].dir
  {
    hide Content;
    NodeAt(s, dp);
    ContentLength(s.mem[dp], s.data);
  }

  datatype Naming = Named | Present | NoRoom | NoBlock

  /** dirlink: a new entry in the first free place, or at the end. NoRoom and NoBlock are panics. */
  method EnterName(fs: FileSys, dp: nat, name: CString, inum: nat) returns (r: Naming)
    requires Ready(fs) && dp < |fs.mem| && fs.mem[dp].kind == T_DIR && 0 < inum < 0x1_0000 && Latin(name)
    requires dp in Space(fs.Snap()) && NamesPadded(Space(fs.Snap())[dp].entries)
             && Distinct(Space(fs.Snap())[dp].entries)
    modifies fs
    ensures r == NoBlock ==> fs.Full()
    ensures var es := old(Space(fs.Snap()))[dp].entries;
            && (r == Present <==> Pad(name) in Contents(es))
            && (r == NoRoom <==> Pad(name) !in Contents(es) && FirstFree(es) >= MAXENTRIES)
            && (r == Present || r == NoRoom ==> fs.Snap() == old(fs.Snap()) && Ready(fs))
            && (r == Named ==> && Ready(fs)
                               && Put(fs.sb, old(fs.Snap()), fs.Snap(), dp, FirstFree(es), Dirent(inum, Pad(name)))
                               && NewName(es, FirstFree(es), Pad(name)))
  {
    hide Settled, NodesOf, Pad, Contents, Distinct, NamesPadded, Put, Small;
    ghost var s := fs.Snap();
    DirSize(fs.sb, s, dp);
    ghost var es := Space(s)[dp].entries;
    var found := Lookup(fs, dp, name);
    ContentsAt(es, Pad(name));
    if found.Some? {
      return Present;
    }
    var k := FreePlace(fs, dp);
    var field := Strncpy(name);
    if ENTRY * k + ENTRY > MAXBYTES {
      return NoRoom;
    }
    SmallEntry(inum, name);
    var ok := PutEntry(fs, dp, k, Dirent(inum, field));
    r := if ok then Named else NoBlock;
  }

  /** The scan of dirlink. */
  method FreePlace(fs: FileSys, dp: nat) returns (k: nat)
    requires Ready(fs) && dp < |fs.mem| && fs.mem[dp].kind == T_DIR && dp in Space(fs.Snap())
    modifies fs
    ensures fs.Snap() == old(fs.Snap()) && Ready(fs) && k == FirstFree(Space(fs.Snap())[dp].entries)
            && ENTRY * k <= fs.mem[dp].size
  {
    hide Settled, NodesOf, FirstFree;
    ghost var s := fs.Snap();
    DirSize(fs.sb, s, dp);
    ghost var es := Space(s)[dp].entries;
    k := 0;
    while ENTRY * k < fs.mem[dp].size
      invariant 0 <= k <= |es| && fs.Snap() == s && Ready(fs) && forall j | 0 <= j < k :: es[j].inum != 0
      decreases |es| - k
    {
      var e := GetEntry(fs, dp, k);
      if e.inum == 0 {
        break;
      }
      k := k + 1;
    }
    FirstFreeIs(es, k);
  }

  lemma SmallEntry(inum: nat, name: CString)
    requires inum < 0x1_0000 && Latin(name)
    ensures Small(Dirent(inum, Pad(name)))
  {
  }

  // ---------------------------------------------------------------- budgets

  /** Writing an entry logs at most five blocks; over an entry that is there, one. */
  lemma EntryLogs(sb: Super, dp: nat, d: Dinode, data: seq<Block>, size: nat, k: nat)
    requires ENTRY * k <= size && ENTRY * k + ENTRY <= MAXBYTES
    ensures |Logs(sb, dp, d, data, size, ENTRY * k, ENTRY)| <= 5
    ensures ENTRY * k + ENTRY <= size ==> |Logs(sb, dp, d, data, size, ENTRY * k, ENTRY)| <= 1
  {
    LogsBound(sb, dp, d, data, size, ENTRY * k, ENTRY);
    var lo := ENTRY * k / BSIZE;
    assert Reach(ENTRY * k, ENTRY) == lo + 1;
    hide Slot;
    assert WriteLog(sb, d, data, BlockCount(size), lo, lo + 1) == BlockLog(sb, d, data, BlockCount(size), lo) by {
      assert WriteLog(sb, d, data, BlockCount(size), lo, lo) == {};
    }
  }

  lemma PutLogs(sb: Super, s: Snapshot, t: Snapshot, dp: nat, k: nat, e: Dirent)
    requires Solid(s.mem, s.data) && Solid(t.mem, t.data) && Settled(sb, s) && Put(sb, s, t, dp, k, e)
             && s.mem[dp].kind == T_DIR
    ensures |t.logged| <= |s.logged| + 5
  {
    hide Logs, Changes, SlotsKept, Content;
    NodeAt(s, dp);
    ContentLength(s.mem[dp], s.data);
    EntryLogs(sb, dp, t.mem[dp], t.data, s.mem[dp].size, k);
    UnionSize(s.logged, Logs(sb, dp, t.mem[dp], t.data, s.mem[dp].size, ENTRY * k, ENTRY));
  }

  lemma UnionSize(a: set<nat>, b: set<nat>)
    ensures |a + b| <= |a| + |b|
  {
    assert a + b == a + (b - a);
    SubsetSize(b - a, b);
  }

  // ---------------------------------------------------------------- link

  /** A disk state in which the name space obeys its laws. */
  ghost predicate Lawful(fs: FileSys)
    reads fs
  {
    Ready(fs) && Consistent(Space(fs.Snap())) && fs.sb.ninodes <= 0x1_0000
  }

  lemma InSpace(sb: Super, s: Snapshot, i: nat)
    requires Settled(sb, s) && Solid(s.mem, s.data) && i in Space(s)
    ensures i < |s.mem| == sb.ninodes && s.mem[i].kind != 0 && (Space(s)[i].dir <==> s.mem[i].kind == T_DIR)
            && Space(s)[i].nlink == s.mem[i].nlink
    ensures s.mem[i].kind != T_DIR ==> Space(s)[i] == Node(false, s.mem[i].nlink, [])
  {
    hide Content, Slot, Linked;
    assert |s.mem| == sb.ninodes by { TableSize(sb, s); }
    NodeAt(s, i);
  }

  lemma TableSize(sb: Super, s: Snapshot)
    requires Settled(sb, s)
    ensures |s.mem| == sb.ninodes && Solid(s.mem, s.data)
  {
  }

  lemma NothingChanged(sb: Super, s: Snapshot)
    requires Settled(sb, s)
    ensures Changes(sb, Disk(s), Disk(s), s.logged)
  {
    hide FsBlock, Slot;
  }

  /** A new name for a file whose count has been raised is what link promises. */
  lemma LinkOk(sb: Super, s: Snapshot, m: Snapshot, t: Snapshot, ip: nat, dp: nat, name: CString)
    requires Settled(sb, s) && Settled(sb, m) && Settled(sb, t) && Solid(s.mem, s.data) && Solid(m.mem, m.data)
             && Solid(t.mem, t.data)
    requires ip in Space(s) && dp in Space(s) && Space(s)[dp].dir && !Space(s)[ip].dir && Space(s)[ip].entries == []
             && ip != 0
    requires Space(m) == Space(s)[ip := Space(s)[ip].(nlink := Space(s)[ip].nlink + 1)]
             && Changes(sb, Disk(s), Disk(m), m.logged)
    requires NewName(Space(s)[dp].entries, FirstFree(Space(s)[dp].entries), Pad(name)) && Distinct(Space(s)[dp].entries)
    requires FirstFree(Space(s)[dp].entries) < MAXENTRIES
    requires Put(sb, m, t, dp, FirstFree(Space(s)[dp].entries), Dirent(ip, Pad(name)))
    ensures Linking(Space(s), Space(t), ip, Some(dp), Pad(name), Ok) && Changes(sb, Disk(s), Disk(t), t.logged)
  {
    hide Settled, NodesOf, Pad, Contents, Distinct, Changes, FirstFree, Logs, SlotsKept, Used;
    var es := Space(s)[dp].entries;
    LinkedName(es, FirstFree(es), Pad(name), ip);
    ChangesMore(sb, Disk(s), Disk(m), Disk(t), m.logged, t.logged);
  }

  lemma LinkedName(es: seq<Dirent>, k: nat, key: Field, ip: nat)
    requires NewName(es, k, key) && Distinct(es) && k <= |es| && ip != 0
    ensures key !in Contents(es) && Contents(WithEntry(es, k, Dirent(ip, key))) == Contents(es)[key := ip]
  {
    ContentsAt(es, key);
    LinkedContents(es, k, key, ip);
  }

  /**
   sys_link once its paths have been followed. Its effect is that of Namespace, in one transaction of
   at most six blocks. A count that would pass 32767 is left out.
   */
  method LinkCall(fs: FileSys, ip: nat, dp: Option<nat>, name: CString) returns (r: Change, ghost logged: set<nat>)
    requires Lawful(fs) && fs.logged == {} && Latin(name) && ip in Space(fs.Snap()) && fs.mem[ip].nlink < 0x7FFF
    requires dp.Some? ==> dp.value in Space(fs.Snap()) && Space(fs.Snap())[dp.value].dir
    modifies fs
    ensures r == Panic ==> fs.Full() || Linking(old(Space(fs.Snap())), old(Space(fs.Snap())), ip, dp, Pad(name), Panic)
    ensures r != Panic ==> && Ready(fs) && Linking(old(Space(fs.Snap())), Space(fs.Snap()), ip, dp, Pad(name), r)
                           && Transaction(fs.sb, old(Disk(fs.Snap())), Disk(fs.Snap()), logged) && |logged| <= 6
  {
    hide Settled, NodesOf, Pad, Contents, Distinct, NamesPadded, Put, Changes, Consistent, FirstFree, NewName, Linking,
         Super.InodeBlock, Solid;
    ghost var s := fs.Snap();
    logged := {};
    TableSize(fs.sb, s);
    InSpace(fs.sb, s, ip);
    LinkRefused(Space(s), ip, dp, Pad(name));
    NothingChanged(fs.sb, s);
    if fs.mem[ip].kind == T_DIR {
      return Change.Failed, logged;
    }
    var n := fs.mem[ip].nlink;
    FileOk(Space(s), ip);
    SetLinks(fs, ip, n + 1);
    ghost var m := fs.Snap();
    if dp.Some? {
      InSpace(fs.sb, s, dp.value);
      DirOk(Space(s), dp.value);
      var named := EnterName(fs, dp.value, name, ip);
      if named == NoRoom || named == NoBlock {
        return Panic, logged;
      }
      if named == Named {
        LinkOk(fs.sb, s, m, fs.Snap(), ip, dp.value, name);
        PutLogs(fs.sb, m, fs.Snap(), dp.value, FirstFree(Space(s)[dp.value].entries), Dirent(ip, Pad(name)));
        return Ok, fs.logged;
      }
    }
    SetLinks(fs, ip, n);
    ChangesMore(fs.sb, Disk(s), Disk(m), Disk(fs.Snap()), m.logged, fs.logged);
    assert Space(fs.Snap()) == Space(s);
    return Change.Failed, fs.logged;
  }

  lemma LinkRefused(was: Nodes, ip: nat, dp: Option<nat>, key: Field)
    requires ip in was && (dp.Some? ==> dp.value in was)
    ensures was[ip].dir || dp.None? || key in Contents(was[dp.value].entries) ==>
            Linking(was, was, ip, dp, key, Change.Failed)
    ensures !was[ip].dir && dp.Some? && key !in Contents(was[dp.value].entries)
            && FirstFree(was[dp.value].entries) >= MAXENTRIES ==>
              Linking(was, was, ip, dp, key, Panic)
  {
    hide Contents, FirstFree;
  }

  // ---------------------------------------------------------------- unlink

  /** isdirempty. */
  method IsEmpty(fs: FileSys, dp: nat) returns (empty: bool)
    requires Ready(fs) && dp < |fs.mem| && fs.mem[dp].kind == T_DIR && dp in Space(fs.Snap())
    modifies fs
    ensures fs.Snap() == old(fs.Snap()) && Ready(fs) && (empty <==> Empty(Space(fs.Snap())[dp].entries))
  {
    hide Settled, NodesOf;
    ghost var s := fs.Snap();
    DirSize(fs.sb, s, dp);
    ghost var es := Space(s)[dp].entries;
    var k := 2;
    while ENTRY * k < fs.mem[dp].size
      invariant 2 <= k && fs.Snap() == s && Ready(fs) && forall j | 2 <= j < k && j < |es| :: es[j].inum == 0
      decreases |es| - k
    {
      var e := GetEntry(fs, dp, k);
      if e.inum != 0 {
        return false;
      }
      k := k + 1;
    }
    empty := true;
  }

  lemma NoEntrySmall()
    ensures Small(NoEntry())
  {
  }

  lemma UnlinkOk(was: Nodes, now: Nodes, dp: nat, k: nat, key: Field)
    requires dp in was && was[dp].dir && Distinct(was[dp].entries) && Used(was[dp].entries, k)
             && was[dp].entries[k].name == key
    requires key != Dot() && key != DotDot() && k >= 2
    requires var ip := was[dp].entries[k].inum;
             && ip in was && ip != dp && was[ip].nlink >= 1 && (was[ip].dir ==> Empty(was[ip].entries))
             && var put := was[dp := LinkCounts.Entered(was[dp], k, NoEntry())];
             now == (if was[ip].dir then put[dp := put[dp].(nlink := put[dp].nlink - 1)]
                     else put)[ip := was[ip].(nlink := was[ip].nlink - 1)]
    ensures Unlinking(was, now, dp, key, Ok)
  {
    hide Distinct, Contents, Empty;
    var es, ip := was[dp].entries, was[dp].entries[k].inum;
    ContentsAt(es, key);
    UnlinkedContents(es, k, NoEntry());
    assert now == if was[ip].dir then DirDropped(was, dp, k, ip) else FileDropped(was, dp, k, ip);
    assert DroppedAt(was, now, dp, k, ip, key);
  }

  lemma DotsRefused(was: Nodes, dp: nat, key: Field)
    requires dp in was && (key == Dot() || key == DotDot())
    ensures Unlinking(was, was, dp, key, Change.Failed)
  {
  }

  lemma UnlinkRefused(was: Nodes, dp: nat, key: Field, found: Option<nat>)
    requires dp in was && Distinct(was[dp].entries)
    requires found.None? ==> forall k | Used(was[dp].entries, k) :: was[dp].entries[k].name != key
    requires found.Some? ==> Used(was[dp].entries, found.value) && was[dp].entries[found.value].name == key
    ensures found.None? ==> Unlinking(was, was, dp, key, Change.Failed)
    ensures found.Some? ==> var ip := was[dp].entries[found.value].inum;
                            ip in was && was[ip].dir && !Empty(was[ip].entries) ==>
                              Unlinking(was, was, dp, key, Change.Failed)
  {
    hide Distinct, Empty;
    ContentsAt(was[dp].entries, key);
    hide Contents;
  }

  /**
   sys_unlink up to its last iput, once its path has been followed. Its effect is that of Namespace, in one
   transaction of at most three blocks, and it never panics.
   */
  method UnlinkCall(fs: FileSys, dp: nat, name: CString) returns (r: Change, ip: nat)
    requires Lawful(fs) && fs.logged == {} && dp in Space(fs.Snap()) && Space(fs.Snap())[dp].dir
    modifies fs
    ensures r != Panic && Ready(fs) && Unlinking(old(Space(fs.Snap())), Space(fs.Snap()), dp, Pad(name), r)
    ensures Changes(fs.sb, old(Disk(fs.Snap())), Disk(fs.Snap()), fs.logged) && |fs.logged| <= 3
    ensures r == Ok ==> ip in Space(fs.Snap()) && fs.sb.InodeBlock(ip) in fs.logged
    ensures r == Ok ==> var m := Contents(old(Space(fs.Snap()))[dp].entries); Pad(name) in m && m[Pad(name)] == ip
  {
    hide Settled, NodesOf, Pad, Contents, Distinct, NamesPadded, Put, Changes, Consistent, Unlinking, Super.InodeBlock,
         Solid, Used, Padded, Empty, Small;
    ghost var s := fs.Snap();
    TableSize(fs.sb, s);
    InSpace(fs.sb, s, dp);
    DirOk(Space(s), dp);
    NothingChanged(fs.sb, s);
    var dot := Strncpy(".");
    var dotdot := Strncpy("..");
    var c1 := Namecmp(name, dot);
    var c2 := Namecmp(name, dotdot);
    if c1 == 0 || c2 == 0 {
      DotsRefused(Space(s), dp, Pad(name));
      return Change.Failed, 0;
    }
    var found := Lookup(fs, dp, name);
    UnlinkRefused(Space(s), dp, Pad(name), found);
    if found.None? {
      return Change.Failed, 0;
    }
    ContentsAt(Space(s)[dp].entries, Pad(name));
    r, ip := RemoveEntry(fs, dp, found.value, Pad(name));
  }

  /** The part of sys_unlink after the name has been found in entry k. */
  method RemoveEntry(fs: FileSys, dp: nat, k: nat, ghost key: Field) returns (r: Change, ip: nat)
    requires Lawful(fs) && fs.logged == {} && dp in Space(fs.Snap()) && Space(fs.Snap())[dp].dir && key != Dot()
             && key != DotDot()
    requires Used(Space(fs.Snap())[dp].entries, k) && Space(fs.Snap())[dp].entries[k].name == key
    modifies fs
    ensures r != Panic && Ready(fs) && Unlinking(old(Space(fs.Snap())), Space(fs.Snap()), dp, key, r)
    ensures Changes(fs.sb, old(Disk(fs.Snap())), Disk(fs.Snap()), fs.logged) && |fs.logged| <= 3
    ensures r == Ok ==> ip in Space(fs.Snap()) && fs.sb.InodeBlock(ip) in fs.logged
                        && ip == old(Space(fs.Snap()))[dp].entries[k].inum
  {
    hide Settled, NodesOf, Pad, Contents, Distinct, NamesPadded, Put, Changes, Consistent, Unlinking, Super.InodeBlock,
         Solid, Empty, Small, Logs, Disk, Used;
    ghost var s := fs.Snap();
    ghost var was := Space(s);
    TableSize(fs.sb, s);
    InSpace(fs.sb, s, dp);
    DirSize(fs.sb, s, dp);
    DirOk(was, dp);
    NothingChanged(fs.sb, s);
    EntryNamed(was, dp, k, key);
    UnlinkRefused(was, dp, key, Some(k));
    var e := GetEntry(fs, dp, k);
    ip := e.inum;
    InSpace(fs.sb, s, ip);
    if fs.mem[ip].nlink < 1 {
      return Panic, ip;
    }
    var dir := fs.mem[ip].kind == T_DIR;
    if dir {
      var empty := IsEmpty(fs, ip);
      if !empty {
        return Change.Failed, ip;
      }
    }
    NoEntrySmall();
    var ok := PutEntry(fs, dp, k, Dirent(0, seq(DIRSIZ, _ => NUL)));
    ghost var m := fs.Snap();
    PutMeans(fs.sb, s, m, dp, k, NoEntry());
    if dir {
      CountNotNegative(was, dp);
      SetLinks(fs, dp, fs.mem[dp].nlink - 1);
      ChangesMore(fs.sb, Disk(s), Disk(m), Disk(fs.Snap()), m.logged, fs.logged);
    }
    ghost var m2 := fs.Snap();
    SetLinks(fs, ip, fs.mem[ip].nlink - 1);
    ChangesMore(fs.sb, Disk(s), Disk(m2), Disk(fs.Snap()), m2.logged, fs.logged);
    UnlinkOk(was, Space(fs.Snap()), dp, k, key);
    r := Ok;
  }

  /** The parts of Put a caller over an existing entry needs. */
  lemma PutMeans(sb: Super, s: Snapshot, t: Snapshot, dp: nat, k: nat, e: Dirent)
    requires Solid(s.mem, s.data) && Solid(t.mem, t.data) && Put(sb, s, t, dp, k, e)
             && ENTRY * k + ENTRY <= s.mem[dp].size && s.logged == {}
    ensures dp < |s.mem| == |t.mem| && Changes(sb, Disk(s), Disk(t), t.logged) && |t.logged| <= 1
    ensures (forall j | 0 <= j < |s.mem| :: t.mem[j].kind == s.mem[j].kind && t.mem[j].nlink == s.mem[j].nlink)
    ensures dp in Space(s) && k <= |Space(s)[dp].entries|
            && Space(t) == Space(s)[dp := LinkCounts.Entered(Space(s)[dp], k, e)]
  {
    hide Logs, NodesOf, Changes, SlotsKept, Solid;
    EntryLogs(sb, dp, t.mem[dp], t.data, s.mem[dp].size, k);
    assert t.logged == Logs(sb, dp, t.mem[dp], t.data, s.mem[dp].size, ENTRY * k, ENTRY);
  }

  lemma CountNotNegative(was: Nodes, dp: nat)
    requires Consistent(was) && dp in was
    ensures was[dp].nlink >= 0
  {
    hide NodesOk, EntriesOk, TreeOk, Rooted, OrphansEmpty, Refs;
  }

  // ---------------------------------------------------------------- create

  lemma FirstEntryLogs(sb: Super, c: nat, d: Dinode, data: seq<Block>)
    ensures Logs(sb, c, d, data, 0, 0, ENTRY) == {Slot(d, data, 0), sb.BitmapBlock(Slot(d, data, 0)), sb.InodeBlock(c)}
    ensures Logs(sb, c, d, data, ENTRY, ENTRY, ENTRY) == {Slot(d, data, 0), sb.InodeBlock(c)}
  {
    hide Slot, Super.BitmapBlock, Super.InodeBlock;
    assert WriteLog(sb, d, data, 0, 0, 1) == BlockLog(sb, d, data, 0, 0)
           by { assert WriteLog(sb, d, data, 0, 0, 0) == {}; }
    assert WriteLog(sb, d, data, 1, 0, 1) == BlockLog(sb, d, data, 1, 0)
           by { assert WriteLog(sb, d, data, 1, 0, 0) == {}; }
    assert Reach(0, ENTRY) == 1 && Reach(ENTRY, ENTRY) == 1 && BlockCount(ENTRY) == 1 && BlockCount(0) == 0;
  }

  /** The two entries of a new directory take one block and its bitmap block. */
  lemma DotsLogged(sb: Super, s: Snapshot, m: Snapshot, t: Snapshot, c: nat, e1: Dirent, e2: Dirent)
    requires Settled(sb, m) && Settled(sb, t) && Solid(s.mem, s.data) && Solid(m.mem, m.data) && Solid(t.mem, t.data)
    requires Put(sb, s, m, c, 0, e1) && Put(sb, m, t, c, 1, e2) && s.mem[c].size == 0 && m.mem[c].size == ENTRY
             && sb.InodeBlock(c) in s.logged
    ensures |t.logged| <= |s.logged| + 2
  {
    hide Linked, Bits, Changes, NodesOf, Slot, Super.BitmapBlock, Super.InodeBlock, Tidy, FsBlock, Logs;
    FirstEntryLogs(sb, c, m.mem[c], m.data);
    FirstEntryLogs(sb, c, t.mem[c], t.data);
    FirstBlock(m, c);
    var a := Slot(m.mem[c], m.data, 0);
    assert Slot(t.mem[c], t.data, 0) == a;
    assert t.logged == s.logged + {a, sb.BitmapBlock(a)};
    UnionSize(s.logged, {a, sb.BitmapBlock(a)});
  }

  lemma FirstBlock(m: Snapshot, c: nat)
    requires Solid(m.mem, m.data) && c < |m.mem| && m.mem[c].size == ENTRY
    ensures Slot(m.mem[c], m.data, 0) != 0
  {
    assert NoHoles(m.mem[c], m.data);
  }

  /** The entries of a new directory. False is the panic for want of a block. */
  method MakeDots(fs: FileSys, c: nat, dp: nat) returns (ok: bool)
    requires Ready(fs) && c < |fs.mem| && fs.mem[c].kind == T_DIR && 0 < c < 0x1_0000 && 0 < dp < 0x1_0000
    requires c in Space(fs.Snap()) && Space(fs.Snap())[c].entries == [] && fs.sb.InodeBlock(c) in fs.logged
    modifies fs
    ensures !ok ==> fs.Full()
    ensures ok ==> && Ready(fs) && Space(fs.Snap()) ==
                     old(Space(fs.Snap()))[c := old(Space(fs.Snap()))[c].(entries := DotEntries(c, dp))]
                   && Changes(fs.sb, old(Disk(fs.Snap())), Disk(fs.Snap()), fs.logged)
                   && |fs.logged| <= |old(fs.logged)| + 2
                   && |fs.mem| == |old(fs.mem)| && old(fs.logged) <= fs.logged
                   && forall j | 0 <= j < |fs.mem| :: fs.mem[j].kind == old(fs.mem)[j].kind
                                                      && fs.mem[j].nlink == old(fs.mem)[j].nlink
  {
    hide Settled, NodesOf, Pad, Contents, Distinct, NamesPadded, Changes, FirstFree, Super.InodeBlock, Solid, Logs,
         SlotsKept, NewName, Padded;
    ghost var s := fs.Snap();
    DirSize(fs.sb, s, c);
    DotsDiffer();
    NoEntries(Dirent(c, Dot()), Dirent(dp, DotDot()));
    var r := EnterName(fs, c, ".", c);
    assert r != Present && r != NoRoom;
    if r == NoBlock {
      return false;
    }
    ghost var m := fs.Snap();
    assert Space(m)[c].entries == [Dirent(c, Dot())];
    DirSize(fs.sb, m, c);
    FirstFreeIs([Dirent(c, Dot())], 1);
    OneEntry(Dirent(c, Dot()));
    r := EnterName(fs, c, "..", dp);
    assert r != Present && r != NoRoom;
    if r == NoBlock {
      return false;
    }
    DotsLogged(fs.sb, s, m, fs.Snap(), c, Dirent(c, Dot()), Dirent(dp, DotDot()));
    ChangesMore(fs.sb, Disk(s), Disk(m), Disk(fs.Snap()), m.logged, fs.logged);
    ok := true;
  }

  lemma OneEntry(d: Dirent)
    requires Padded(d.name) && d.inum != 0
    ensures NamesPadded([d]) && Distinct([d]) && Contents([d]) == map[d.name := d.inum]
  {
    assert Contents([d]) == Contents([])[d.name := d.inum] by { assert [d][..0] == []; }
  }

  /** What create finds under the name. */
  lemma CreateFound(was: Nodes, ninodes: nat, dp: nat, key: Field, dir: bool, found: nat)
    requires dp in was && Distinct(was[dp].entries) && Used(was[dp].entries, found)
             && was[dp].entries[found].name == key
    ensures var i := was[dp].entries[found].inum;
            && key in Contents(was[dp].entries) && Contents(was[dp].entries)[key] == i
            && Creating(was, was, ninodes, dp, key, dir, if i !in was then Creation.Panicked
                        else if !dir && !was[i].dir then Existing(i) else Refused)
  {
    hide Distinct;
    ContentsAt(was[dp].entries, key);
    hide Contents;
  }

  lemma CreateStuck(was: Nodes, ninodes: nat, dp: nat, key: Field, dir: bool)
    requires dp in was && key !in Contents(was[dp].entries)
             && (FirstFree(was[dp].entries) >= MAXENTRIES || NoInode(was, ninodes))
    ensures Creating(was, was, ninodes, dp, key, dir, Creation.Panicked)
  {
    hide Contents, FirstFree;
  }

  lemma CreateOk(was: Nodes, now: Nodes, ninodes: nat, dp: nat, key: Field, dir: bool, c: nat)
    requires dp in was && Distinct(was[dp].entries) && NewName(was[dp].entries, FirstFree(was[dp].entries), key)
             && FirstFree(was[dp].entries) < MAXENTRIES
    requires 1 <= c < ninodes && c !in was && NoInode(was, c) && Padded(key)
    requires now == if dir then DirEntered(was, dp, FirstFree(was[dp].entries), key, c)
             else FileEntered(was, dp, FirstFree(was[dp].entries), key, c, 1)
    ensures Creating(was, now, ninodes, dp, key, dir, Created(c))
  {
    hide Distinct, Contents, FirstFree;
    var es := was[dp].entries;
    LinkedName(es, FirstFree(es), key, c);
    LinkedDistinct(es, FirstFree(es), key, c);
    assert !NoInode(was, ninodes);
  }

  /**
   create once its path has been followed. Its effect is that of Namespace, in one transaction of at most nine
   blocks; a name that stands for a device is refused. A count that would pass 32767 is left out.
   */
  method CreateCall(fs: FileSys, dp: nat, name: CString, dir: bool) returns (r: Creation)
    requires Lawful(fs) && fs.logged == {} && Latin(name) && dp in Space(fs.Snap()) && Space(fs.Snap())[dp].dir
             && fs.mem[dp].nlink < 0x7FFF
    modifies fs
    ensures r == Creation.Panicked ==>
              || fs.Full()
              || Creating(old(Space(fs.Snap())), old(Space(fs.Snap())), fs.sb.ninodes, dp, Pad(name), dir, r)
    ensures r != Creation.Panicked ==>
              && Ready(fs) && Changes(fs.sb, old(Disk(fs.Snap())), Disk(fs.Snap()), fs.logged) && |fs.logged| <= 9
              && (Creating(old(Space(fs.Snap())), Space(fs.Snap()), fs.sb.ninodes, dp, Pad(name), dir, r)
                  || (r == Refused && Device(old(fs.Snap()), dp, Pad(name)) && fs.Snap() == old(fs.Snap())))
  {
    hide Settled, NodesOf, Pad, Contents, Distinct, NamesPadded, Changes, FirstFree, Super.InodeBlock, Solid, NewName,
         Padded, Creating, Consistent, Put;
    ghost var s := fs.Snap();
    ghost var was := Space(s);
    TableSize(fs.sb, s);
    InSpace(fs.sb, s, dp);
    DirOk(was, dp);
    PadPads(name);
    NothingChanged(fs.sb, s);
    var found := Lookup(fs, dp, name);
    if found.Some? {
      CreateFound(was, fs.sb.ninodes, dp, Pad(name), dir, found.value);
      DirSize(fs.sb, s, dp);
      var e := GetEntry(fs, dp, found.value);
      var i := e.inum;
      if i >= |fs.mem| || fs.mem[i].kind == 0 {
        NotInSpace(fs.sb, s, i);
        return Creation.Panicked;
      }
      IsInSpace(fs.sb, s, i);
      return if !dir && fs.mem[i].kind == T_FILE then Existing(i) else Refused;
    }
    ContentsAt(was[dp].entries, Pad(name));
    r := MakeNew(fs, dp, name, dir);
  }

  /** The name stands for an inode that is neither a file nor a directory. */
  ghost predicate Device(s: Snapshot, dp: nat, key: Field)
    requires Solid(s.mem, s.data) && dp in Space(s)
  {
    && key in Contents(Space(s)[dp].entries)
    && var i := Contents(Space(s)[dp].entries)[key]; i < |s.mem| && s.mem[i].kind != 0 && s.mem[i].kind != T_DIR
                                                     && s.mem[i].kind != T_FILE
  }

  lemma NotInSpace(sb: Super, s: Snapshot, i: nat)
    requires Settled(sb, s) && Solid(s.mem, s.data) && (i >= |s.mem| || s.mem[i].kind == 0)
    ensures i !in Space(s)
  {
  }

  lemma IsInSpace(sb: Super, s: Snapshot, i: nat)
    requires Settled(sb, s) && Solid(s.mem, s.data) && i < |s.mem| && s.mem[i].kind != 0
    ensures i in Space(s) && (Space(s)[i].dir <==> s.mem[i].kind == T_DIR)
  {
    NodeAt(s, i);
  }

  lemma Exhausted(sb: Super, s: Snapshot, n: nat)
    requires Settled(sb, s) && Solid(s.mem, s.data) && n <= |s.mem| && forall i | 1 <= i < n :: s.mem[i].kind != 0
    ensures NoInode(Space(s), n)
  {
    hide Settled, Content, NodeOf, Solid;
  }

  /** The part of create after the name was not found. */
  method MakeNew(fs: FileSys, dp: nat, name: CString, dir: bool) returns (r: Creation)
    requires Lawful(fs) && fs.logged == {} && Latin(name) && dp in Space(fs.Snap()) && Space(fs.Snap())[dp].dir
             && fs.mem[dp].nlink < 0x7FFF
    requires Pad(name) !in Contents(Space(fs.Snap())[dp].entries)
    modifies fs
    ensures r == Creation.Panicked ==>
              || fs.Full()
              || Creating(old(Space(fs.Snap())), old(Space(fs.Snap())), fs.sb.ninodes, dp, Pad(name), dir, r)
    ensures r != Creation.Panicked ==>
              && Ready(fs) && Changes(fs.sb, old(Disk(fs.Snap())), Disk(fs.Snap()), fs.logged) && |fs.logged| <= 9
              && Creating(old(Space(fs.Snap())), Space(fs.Snap()), fs.sb.ninodes, dp, Pad(name), dir, r)
  {
    hide Settled, NodesOf, Pad, Contents, Distinct, NamesPadded, Changes, FirstFree, Super.InodeBlock, Solid, NewName,
         Padded, Creating, Consistent, Put, Logs;
    ghost var s := fs.Snap();
    ghost var was := Space(s);
    TableSize(fs.sb, s);
    InSpace(fs.sb, s, dp);
    DirOk(was, dp);
    PadPads(name);
    var got := AllocInode(fs, if dir then T_DIR else T_FILE);
    if got.None? {
      Exhausted(fs.sb, s, |s.mem|);
      CreateStuck(was, fs.sb.ninodes, dp, Pad(name), dir);
      return Creation.Panicked;
    }
    var c := got.value;
    Exhausted(fs.sb, s, c);
    NotInSpace(fs.sb, s, c);
    ghost var m := fs.Snap();
    SetLinks(fs, c, 1);
    ChangesMore(fs.sb, Disk(s), Disk(m), Disk(fs.Snap()), m.logged, fs.logged);
    ghost var m1 := fs.Snap();
    if dir {
      SetLinks(fs, dp, fs.mem[dp].nlink + 1);
      ghost var m2 := fs.Snap();
      ChangesMore(fs.sb, Disk(s), Disk(m1), Disk(m2), m1.logged, m2.logged);
      var ok := MakeDots(fs, c, dp);
      if !ok {
        return Creation.Panicked;
      }
      ChangesMore(fs.sb, Disk(s), Disk(m2), Disk(fs.Snap()), m2.logged, fs.logged);
    }
    ghost var m3 := fs.Snap();
    var named := EnterName(fs, dp, name, c);
    if named == NoBlock {
      return Creation.Panicked;
    }
    if named != Named {
      CreateStuck(was, fs.sb.ninodes, dp, Pad(name), dir);
      return Creation.Panicked;
    }
    PutLogs(fs.sb, m3, fs.Snap(), dp, FirstFree(was[dp].entries), Dirent(c, Pad(name)));
    PutStep(fs.sb, s, m3, fs.Snap(), dp, FirstFree(was[dp].entries), Dirent(c, Pad(name)));
    CreateOk(was, Space(fs.Snap()), fs.sb.ninodes, dp, Pad(name), dir, c);
    r := Created(c);
  }

  lemma PutStep(sb: Super, s: Snapshot, m: Snapshot, t: Snapshot, dp: nat, k: nat, e: Dirent)
    requires Solid(m.mem, m.data) && Solid(t.mem, t.data) && Put(sb, m, t, dp, k, e)
             && Changes(sb, Disk(s), Disk(m), m.logged)
    ensures Changes(sb, Disk(s), Disk(t), t.logged)
    ensures dp in Space(m) && k <= |Space(m)[dp].entries| && k < MAXENTRIES
            && Space(t) == Space(m)[dp := LinkCounts.Entered(Space(m)[dp], k, e)]
  {
    hide Logs, NodesOf, Changes, SlotsKept, Solid;
    ChangesMore(sb, Disk(s), Disk(m), Disk(t), m.logged, t.logged);
  }

  // ---------------------------------------------------------------- the last iput

  /** The bitmap blocks that hold bits of data blocks. */
  function DataBitmaps(sb: Super): int { (sb.size - 1) / BPB - sb.nmeta / BPB + 1 }

  lemma {:induction false} SpanSize(s: set<nat>, lo: nat, n: nat)
    requires forall x | x in s :: lo <= x < lo + n
    ensures |s| <= n
    decreases n
  {
    if n == 0 {
      assert s == {};
    } else {
      SpanSize(s - {lo + n - 1}, lo, n - 1);
    }
  }

  lemma BlockInSpan(sb: Super, b: nat)
    requires sb.Valid() && sb.nmeta <= b < sb.size
    ensures var lo := sb.bmapstart + sb.nmeta / BPB; lo <= sb.BitmapBlock(b) < lo + DataBitmaps(sb)
  {
    LessBits(sb.nmeta, b);
    LessBits(b, sb.size - 1);
  }

  lemma Spread(sb: Super)
    requires sb.Valid()
    ensures DataBitmaps(sb) >= 0
  {
    LessBits(sb.nmeta, sb.size);
    assert (sb.size - 1) / BPB >= sb.size / BPB - 1;
  }

  lemma OwnedIsData(sb: Super, t: Table, data: seq<Block>, owner: Owner, b: nat)
    requires Linked(sb, t, data, owner) && b in owner
    ensures sb.nmeta <= b < sb.size
  {
  }

  lemma FreedBound(sb: Super, t: Table, data: seq<Block>, owner: Owner, i: nat, k: nat)
    requires sb.Valid() && Linked(sb, t, data, owner)
    ensures |FreedLog(sb, owner, i, k)| <= DataBitmaps(sb) && forall b | b in FreedLog(sb, owner, i, k) ::
            FsBlock(sb, b)
  {
    hide FsBlock, Linked, Super.BitmapBlock, DataBitmaps;
    var lo := sb.bmapstart + sb.nmeta / BPB;
    forall x | x in FreedLog(sb, owner, i, k)
      ensures lo <= x < lo + DataBitmaps(sb) && FsBlock(sb, x)
    {
      var b :| b in owner && owner[b].0 == i && owner[b].1 < k && x == sb.BitmapBlock(b);
      OwnedIsData(sb, t, data, owner, b);
      BlockInSpan(sb, b);
      DataIsFs(sb, b);
    }
    Spread(sb);
    SpanSize(FreedLog(sb, owner, i, k), lo, DataBitmaps(sb));
  }

  lemma TruncBits(sb: Super, s: Snapshot, t: Snapshot, i: nat, b: nat)
    requires Bits(sb, s.bitmap, s.owner.Keys) && Bits(sb, t.bitmap, t.owner.Keys)
             && t.owner.Keys == Remaining(s.owner, i, INDIRECT + 1)
    requires b < sb.size && t.bitmap[b] != s.bitmap[b]
    ensures sb.BitmapBlock(b) in FreedLog(sb, s.owner, i, INDIRECT + 1)
  {
    hide Super.BitmapBlock;
    assert b in s.owner && b !in Remaining(s.owner, i, INDIRECT + 1);
  }

  /** Truncation changes on disk what it logs. */
  lemma TruncChanges(sb: Super, s: Snapshot, t: Snapshot, i: nat)
    requires Settled(sb, s) && Solid(s.mem, s.data) && i < |s.mem| && t.mem == s.mem[i := Emptied(s.mem[i])]
             && t.data == s.data
    requires Linked(sb, t.mem, t.data, t.owner) && Bits(sb, t.bitmap, t.owner.Keys) && Solid(t.mem, t.data)
    requires t.owner.Keys == Remaining(s.owner, i, INDIRECT + 1)
    requires t.logged == s.logged + FreedLog(sb, s.owner, i, INDIRECT + 1) + {sb.InodeBlock(i)}
    ensures Settled(sb, t) && Changes(sb, Disk(s), Disk(t), t.logged)
    ensures |t.logged| <= |s.logged + {sb.InodeBlock(i)}| + DataBitmaps(sb)
    ensures Space(t) == if s.mem[i].kind == 0 then Space(s) - {i}
            else Space(s)[i := NodeOf(t.mem[i], Content(t.mem[i], t.data))]
  {
    hide FsBlock, Slot, Content, Solid, NodesOf, NodeOf, FreedLog, Remaining, Super.BitmapBlock, Super.InodeBlock,
         DataBitmaps;
    FreedBound(sb, s.mem, s.data, s.owner, i, INDIRECT + 1);
    InodeIsFs(sb, i);
    SnapSizes(sb, s);
    SnapSizes(sb, t);
    hide Linked;
    forall b | 0 <= b < sb.size && t.bitmap[b] != s.bitmap[b]
      ensures sb.BitmapBlock(b) in t.logged
    {
      TruncBits(sb, s, t, i, b);
    }
    OthersLook(s, t, i);
    OneNode(s.mem, s.data, t.mem, t.data, i);
    assert t.logged == (s.logged + {sb.InodeBlock(i)}) + FreedLog(sb, s.owner, i, INDIRECT + 1);
    UnionSize(s.logged + {sb.InodeBlock(i)}, FreedLog(sb, s.owner, i, INDIRECT + 1));
  }

  lemma SnapSizes(sb: Super, s: Snapshot)
    requires Linked(sb, s.mem, s.data, s.owner) && Bits(sb, s.bitmap, s.owner.Keys)
    ensures |s.mem| == sb.ninodes && |s.data| == |s.bitmap| == sb.size
  {
  }

  lemma OthersLook(s: Snapshot, t: Snapshot, i: nat)
    requires Solid(s.mem, s.data) && Solid(t.mem, t.data) && i < |s.mem| && t.data == s.data
             && t.mem == s.mem[i := Emptied(s.mem[i])]
    ensures Elsewhere(s.mem, s.data, t.mem, t.data, i)
  {
  }

  /** The last reference to an inode without links: its blocks and it become free. */
  method FreeInode(fs: FileSys, i: nat)
    requires Ready(fs) && i in Space(fs.Snap())
    modifies fs
    ensures Ready(fs) && Space(fs.Snap()) == old(Space(fs.Snap())) - {i}
            && Changes(fs.sb, old(Disk(fs.Snap())), Disk(fs.Snap()), fs.logged)
    ensures |fs.logged| <= |old(fs.logged) + {fs.sb.InodeBlock(i)}| + DataBitmaps(fs.sb) && old(fs.logged) <= fs.logged
  {
    hide Linked, Bits, Content, Slot, Changes, NodesOf, NodeOf, FsBlock, Extent, FreedLog, Super.InodeBlock, Remaining;
    ghost var s := fs.Snap();
    InSpace(fs.sb, s, i);
    var panicked := fs.Itrunc(i);
    ghost var m := fs.Snap();
    TruncChanges(fs.sb, s, m, i);
    fs.mem := fs.mem[i := fs.mem[i].(kind := 0)];
    fs.Iupdate(i);
    UpdatedNodes(fs.sb, m, fs.Snap(), i, fs.mem[i]);
    ChangesMore(fs.sb, Disk(s), Disk(m), Disk(fs.Snap()), m.logged, fs.logged);
    assert fs.logged == m.logged;
  }

  /**
   The whole of sys_unlink once its path has been followed; refs is the number of references to the inode the
   call itself has, with which it may be the last to let the inode go. The transaction fits the log if
   the bits of the data blocks fill at most seven bitmap blocks.
   */
  method RemoveCall(fs: FileSys, dp: nat, name: CString, refs: nat) returns (r: Change, ghost mid: Nodes)
    requires Lawful(fs) && fs.logged == {} && dp in Space(fs.Snap()) && Space(fs.Snap())[dp].dir
    modifies fs
    ensures r != Panic && Ready(fs) && Unlinking(old(Space(fs.Snap())), mid, dp, Pad(name), r)
    ensures r != Ok ==> Space(fs.Snap()) == mid
    ensures r == Ok ==> && Pad(name) in Contents(old(Space(fs.Snap()))[dp].entries)
                        && var ip := Contents(old(Space(fs.Snap()))[dp].entries)[Pad(name)];
                           ip in mid && Space(fs.Snap()) == if refs == 1 && mid[ip].nlink == 0 then mid - {ip} else mid
    ensures Changes(fs.sb, old(Disk(fs.Snap())), Disk(fs.Snap()), fs.logged) && |fs.logged| <= 3 + DataBitmaps(fs.sb)
    ensures DataBitmaps(fs.sb) <= 7 ==> Transaction(fs.sb, old(Disk(fs.Snap())), Disk(fs.Snap()), fs.logged)
  {
    hide Settled, NodesOf, Pad, Contents, Changes, Consistent, Unlinking, Super.InodeBlock, Solid, DataBitmaps;
    ghost var s := fs.Snap();
    TableSize(fs.sb, s);
    ValidSuper(fs.sb, s);
    Spread(fs.sb);
    var ip;
    r, ip := UnlinkCall(fs, dp, name);
    ghost var m := fs.Snap();
    mid := Space(m);
    if r == Ok {
      InSpace(fs.sb, m, ip);
      if fs.mem[ip].nlink == 0 && refs == 1 {
        FreeInode(fs, ip);
        ChangesMore(fs.sb, Disk(s), Disk(m), Disk(fs.Snap()), m.logged, fs.logged);
        assert m.logged + {fs.sb.InodeBlock(ip)} == m.logged;
      }
    }
  }

  lemma ValidSuper(sb: Super, s: Snapshot)
    requires Settled(sb, s)
    ensures sb.Valid()
  {
  }

  // ---------------------------------------------------------------- crashes

  lemma SettledSound(sb: Super, s: Snapshot)
    requires Settled(sb, s)
    ensures Sound(sb, Disk(s)) && Solid(s.mem, s.data)
  {
  }

  lemma SameNodes(mem: Table, data: seq<Block>, data': seq<Block>)
    requires Solid(mem, data) && Solid(mem, data') && Files(mem, data') == Files(mem, data)
    ensures NodesOf(mem, data') == NodesOf(mem, data)
  {
    hide Content, NoHoles, NodeOf;
    forall i | 0 <= i < |mem|
      ensures Content(mem[i], data') == Content(mem[i], data)
    {
      assert Files(mem, data')[i] == Content(mem[i], data') && Files(mem, data)[i] == Content(mem[i], data);
    }
  }

  /**
   Crash safety of the calls on names. A call that takes s to t in one transaction may be cut at any disk write
   of its commit, and the recoveries may crash in turn: the name space read from the disk is then exactly the
   one before the call or the one after it. If both obey the laws of the name space, so does it.
   */
  lemma NamesCrashSafe(g: LogDisk.Geometry, sb: Super, d: LogDisk.Disk, s: Snapshot, t: Snapshot, logged: set<nat>,
                       hdr: seq<nat>, k: nat, cuts: seq<nat>)
    requires CrashSafety.Layout(g, sb) && LogDisk.Clear(g, d) && CrashSafety.Shows(sb, CrashSafety.XV6, d, Disk(s))
    requires Settled(sb, s) && Settled(sb, t) && Transaction(sb, Disk(s), Disk(t), logged)
             && CrashSafety.Lists(hdr, logged)
    requires k <= 2 * |hdr| + 2
    ensures LogDisk.Loggable(g, hdr) && (forall i | 0 <= i < |hdr| :: hdr[i] < |t.data|) && Solid(s.mem, s.data)
            && Solid(t.mem, t.data)
    ensures var c := LogDisk.CommitAfter(g, d, hdr, CrashSafety.Cached(sb, CrashSafety.XV6, Disk(t), hdr), k);
            && LogDisk.HeaderOk(g, c)
            && (LogDisk.CrashedRecoveries(g, c, cuts) ==>
                  var e := LogDisk.Recovered(g, LogDisk.AfterRecoveries(g, c, cuts));
                  var now := CrashSafety.Loaded(sb, e);
                  && Solid(now.inodes, now.data)
                  && NodesOf(now.inodes, now.data) == (if k <= |hdr| then Space(s) else Space(t))
                  && (Consistent(Space(s)) && Consistent(Space(t)) ==> Consistent(NodesOf(now.inodes, now.data))))
  {
    hide Settled, Transaction, CrashSafety.Lists, CrashSafety.Shows, LogDisk.CrashedRecoveries, CrashSafety.Loaded,
         NodesOf, Consistent, Files;
    SettledSound(sb, s);
    SettledSound(sb, t);
    CrashSafety.TransactionReadBack(g, sb, d, Disk(s), Disk(t), logged, hdr, k, cuts);
    var c := LogDisk.CommitAfter(g, d, hdr, CrashSafety.Cached(sb, CrashSafety.XV6, Disk(t), hdr), k);
    if LogDisk.CrashedRecoveries(g, c, cuts) {
      var now := CrashSafety.Loaded(sb, LogDisk.Recovered(g, LogDisk.AfterRecoveries(g, c, cuts)));
      var was := if k <= |hdr| then s else t;
      SameNodes(was.mem, was.data, now.data);
    }
  }
}
