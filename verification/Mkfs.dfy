/**
 mkfs: building the first file system image. Blocks are handed out by a counter, so
 the image starts with every invariant of the running system in place.
 */
module Mkfs {
  import opened Common
  import opened Blocks
  import opened Inodes
  import opened FileSystem
  import Directories
  import LinkCounts

  const T_DIR: nat := 1
  const T_FILE: nat := 2
  const ROOTINO := LinkCounts.ROOTINO
  const DIRSIZ := Directories.DIRSIZ

  const FREE_INODE: Dinode := Dinode(0, 0, 0, 0, 0, NO_ADDRS)

  type Name = s: seq<Byte> | |s| == DIRSIZ witness seq(DIRSIZ, _ => 0)

  /** A directory entry as mkfs writes it: a 16-bit inode number, then the padded name. */
  function DirentBytes(inum: nat, name: Name): seq<Byte> {
    [inum % 256, inum / 256 % 256] + name
  }

  /** The bytes past the end of every file are zero. */
  ghost predicate ZeroTails(t: Table, data: seq<Block>) {
    forall i, p | 0 <= i < |t| && t[i].size <= p < MAXBYTES :: ByteAt(t[i], data, p) == 0
  }

  class Image {
    const sb: Super
    var table: Table
    var data: seq<Block>
    var freeblock: nat
    var freeinode: nat
    ghost var owner: Owner

    /** Blocks from nmeta up to freeblock are in use, each by one slot; the rest are zero. */
    ghost predicate Valid()
      reads this
    {
      && sb.Valid() && Linked(sb, table, data, owner)
      && sb.nmeta <= freeblock <= sb.size == |data|
      && (forall b | b in owner :: b < freeblock)
      && (forall b | sb.nmeta <= b < freeblock :: b in owner)
      && (forall b | freeblock <= b < sb.size :: data[b] == ZeroBlock())
    }

    ghost function Snap(): Snapshot
      reads this
    {
      Snapshot([], data, table, owner, {})
    }

    /** All sectors zero. */
    constructor (sb: Super)
      requires sb.Valid() && 1 <= sb.ninodes
      ensures Valid() && this.sb == sb && freeinode == 1 && Solid(table, data) && ZeroTails(table, data)
      ensures table == seq(sb.ninodes, _ => FREE_INODE) && freeblock == sb.nmeta
    {
      this.sb := sb;
      table := seq(sb.ninodes, _ => FREE_INODE);
      data := seq(sb.size, _ => ZeroBlock());
      freeblock := sb.nmeta;
      freeinode := 1;
      owner := map[];
      new;
      forall i, k | 0 <= i < |table| && 0 <= k <= INDIRECT
        ensures Slot(table[i], data, k) == 0
      {
        EmptiedSlots(FREE_INODE, data, k);
        assert Emptied(FREE_INODE) == FREE_INODE;
      }
    }

    method MapDirectNext(inum: nat, fbn: nat) returns (r: Option<nat>)
      requires Valid() && inum < |table| && fbn < NDIRECT
      modifies `table, `freeblock, `owner
      ensures r.Some? ==> Valid() && MapDone(old(Snap()), Snap(), inum, fbn, r.value)
      ensures Counted(old(freeblock), freeblock, Missing(old(table)[inum], data, fbn), sb.size, r.Some?)
    {
      hide SameSlots, SlotSet, SameBytes, Mapped, Linked, Slot;
      DirectSlot(table[inum], data, fbn);
      var x := table[inum].addrs[fbn];
      if x == 0 {
        if freeblock == sb.size {
          return None;
        }
        x := freeblock;
        SameSlotsRefl(table, data);
        SameBytesRefl(table, data);
        FreshAddr(sb, table, data, data, owner, inum, fbn, x);
        table := table[inum := WithAddr(table[inum], fbn, x)];
        owner := owner[x := (inum, fbn)];
        freeblock := freeblock + 1;
      } else {
        AlreadyMapped(Snap(), inum, fbn);
      }
      r := Some(x);
    }

    method MapIndirectNext(inum: nat) returns (ok: bool)
      requires Valid() && inum < |table|
      modifies `table, `freeblock, `owner
      ensures ok ==> Valid() && |table| == |old(table)| && table[inum].addrs[NDIRECT] != 0
      ensures ok ==> SameBytes(old(table), old(data), table, data) && OnlyAddrs(old(table), table, inum)
      ensures ok && old(table)[inum].addrs[NDIRECT] != 0 ==> Snap() == old(Snap())
      ensures ok ==> IndirectOnly(old(table), old(data), table, data, inum)
      ensures Counted(old(freeblock), freeblock, if old(table)[inum].addrs[NDIRECT] == 0 then 1 else 0, sb.size, ok)
    {
      hide SameSlots, SlotSet, SameBytes, Linked, IndirectOnly;
      IndirectSame(table, data, inum);
      SameSlotsRefl(table, data);
      if table[inum].addrs[NDIRECT] == 0 {
        if freeblock == sb.size {
          return false;
        }
        FreshIndirect(sb, table, data, data, owner, inum, freeblock);
        table := table[inum := WithAddr(table[inum], NDIRECT, freeblock)];
        owner := owner[freeblock := (inum, INDIRECT)];
        freeblock := freeblock + 1;
      }
      ok := true;
    }

    method MapWordNext(inum: nat, fbn: nat) returns (r: Option<nat>)
      requires Valid() && inum < |table| && NDIRECT <= fbn < MAXFILE && table[inum].addrs[NDIRECT] != 0
      modifies `data, `freeblock, `owner
      ensures r.Some? ==> Valid() && MapDone(old(Snap()), Snap(), inum, fbn, r.value)
      ensures Counted(old(freeblock), freeblock, if Slot(old(table)[inum], old(data), fbn) == 0 then 1 else 0, sb.size,
                      r.Some?)
    {
      hide SameSlots, SlotSet, SameBytes, Mapped, Linked, Slot, PutWord;
      var ind := table[inum].addrs[NDIRECT];
      IndirectOwned(sb, table, data, owner, inum);
      IndirectWord(sb, table, data, owner, inum, fbn);
      var x := GetWord(data[ind], fbn - NDIRECT);
      if x == 0 {
        if freeblock == sb.size {
          return None;
        }
        x := freeblock;
        SameSlotsRefl(table, data);
        SameBytesRefl(table, data);
        FreshWord(sb, table, data, data, owner, inum, fbn, x);
        data := WithWord(data, ind, fbn - NDIRECT, x);
        owner := owner[x := (inum, fbn)];
        freeblock := freeblock + 1;
      } else {
        AlreadyMapped(Snap(), inum, fbn);
      }
      r := Some(x);
    }

    /** The block of file block fbn, taking the next free block (and one for the indirect block) if needed. */
    method MapNext(inum: nat, fbn: nat) returns (r: Option<nat>)
      requires Valid() && inum < |table| && fbn < MAXFILE
      modifies `table, `data, `freeblock, `owner
      ensures r.Some? ==> Valid() && MapDone(old(Snap()), Snap(), inum, fbn, r.value)
      ensures Counted(old(freeblock), freeblock, Missing(old(table)[inum], old(data), fbn), sb.size, r.Some?)
    {
      hide SameSlots, SlotSet, SameBytes, Mapped, Linked, IndirectOnly, Slot;
      NoIndirectSlot(table[inum], data, fbn);
      IndirectSlot(table[inum], data);
      if fbn < NDIRECT {
        r := MapDirectNext(inum, fbn);
        return;
      }
      var ok := MapIndirectNext(inum);
      if !ok {
        return None;
      }
      ghost var mid := Snap();
      WordSlotKept(old(table), old(data), table, data, inum, fbn);
      r := MapWordNext(inum, fbn);
      if r.Some? {
        MapTwice(old(Snap()), mid, Snap(), inum, fbn, r.value);
      }
    }

    /** One round of iappend's loop; false if the file or the image has no room left. */
    method AppendBlock(inum: nat, pos: nat, src: seq<Byte>) returns (ok: bool)
      requires Valid() && inum < |table| && pos % BSIZE + |src| <= BSIZE && src != []
      modifies `table, `data, `freeblock, `owner
      ensures ok <==> pos / BSIZE < MAXFILE
                      && old(freeblock) + Missing(old(table)[inum], old(data), pos / BSIZE) <= sb.size
      ensures ok ==> freeblock == old(freeblock) + Missing(old(table)[inum], old(data), pos / BSIZE)
      ensures ok ==> && Valid() && pos + |src| <= MAXBYTES
                     && Mapped(old(table), old(data), table, data, inum, pos / BSIZE)
                     && BytesSet(old(table), old(data), table, data, inum, pos, src)
                     && OnlyAddrs(old(table), table, inum)
    {
      hide SameSlots, Mapped, SameBytes, BytesSet, Linked, Slot, Missing;
      if pos / BSIZE >= MAXFILE {
        return false;
      }
      var got := MapNext(inum, pos / BSIZE);
      if got.None? {
        return false;
      }
      var x := got.value;
      WriteMapped(sb, old(Snap()), Snap(), inum, pos, src, x);
      OwnedBelow(sb, table, data, owner, inum, pos / BSIZE);
      data := data[x := Patched(data[x], pos % BSIZE, src)];
      ok := true;
    }

    /** The copy loop of iappend. */
    method AppendLoop(inum: nat, p: seq<Byte>) returns (ok: bool)
      requires Valid() && inum < |table| && table[inum].size <= MAXBYTES
               && Extent(table[inum], data, BlockCount(table[inum].size))
      modifies `table, `data, `freeblock, `owner
      ensures ok ==> && Valid() && |table| == |old(table)| && old(table)[inum].size + |p| <= MAXBYTES
                     && WriteSoFar(old(Snap()), Snap(), inum, old(table)[inum].size, p)
                     && Extent(table[inum], data, BlockCount(old(table)[inum].size + |p|))
      ensures var size := old(table)[inum].size;
              && (ok <==> RoomFor(sb.size, old(freeblock), size, |p|))
              && (ok ==> freeblock == old(freeblock) + FileBlocks(size + |p|) - FileBlocks(size))
    {
      hide Mapped, SameBytes, BytesSet, Linked, Slot, Extent, OthersKept, SlotsKept, WriteSoFar, OnlyAddrs, BlockCount,
           Min, Missing, FileBlocks;
      var off, n, tot := table[inum].size, |p|, 0;
      WriteStart(sb, Snap(), inum, off);
      assert p[..0] == [];
      while tot < n
        invariant 0 <= tot <= n && Valid() && |table| == |old(table)| && off + tot <= MAXBYTES
        invariant WriteSoFar(old(Snap()), Snap(), inum, off, p[..tot])
        invariant Extent(table[inum], data, BlockCount(off + tot))
        invariant freeblock == old(freeblock) + FileBlocks(off + tot) - FileBlocks(off)
      {
        var n1 := Min(n - tot, BSIZE - (off + tot) % BSIZE);
        NextChunk(off + tot, n - tot, n1);
        var part := p[tot..tot + n1];
        ghost var before := Snap();
        RoundBlocks(table[inum], data, off + tot, n1);
        MoreBytesMoreBlocks(off + tot + n1, off + n);
        ok := AppendBlock(inum, off + tot, part);
        if !ok {
          return;
        }
        assert p[..tot + n1] == p[..tot] + part;
        WriteRound(old(Snap()), before, Snap(), inum, off, p[..tot], part);
        AppendExtent(before, Snap(), inum, off + tot, n1);
        tot := tot + n1;
      }
      assert p[..n] == p;
      ok := true;
    }

    /** Append p to a file. */
    method Iappend(inum: nat, p: seq<Byte>) returns (ok: bool)
      requires Valid() && inum < |table| && Solid(table, data) && ZeroTails(table, data)
      modifies `table, `data, `freeblock, `owner
      ensures ok ==> Valid() && Solid(table, data) && ZeroTails(table, data)
      ensures ok ==> |table| == |old(table)| && Longer(old(table), old(data), table, data, inum, p)
      ensures ok ==> table[inum] == old(table)[inum].(addrs := table[inum].addrs, size := old(table)[inum].size + |p|)
      ensures var size := old(table)[inum].size;
              && (ok <==> RoomFor(sb.size, old(freeblock), size, |p|))
              && (ok ==> freeblock == old(freeblock) + FileBlocks(size + |p|) - FileBlocks(size))
    {
      hide Mapped, SameBytes, BytesSet, Linked, Slot, Extent, OthersKept, SlotsKept, Solid, Content, ZeroTails,
           WriteSoFar, FileBlocks, BlockCount;
      ghost var off := table[inum].size;
      SolidAt(table, data, inum);
      ok := AppendLoop(inum, p);
      if !ok {
        return;
      }
      SoFarMeans(old(Snap()), Snap(), inum, off, p);
      Resized(sb, table, data, owner, inum, off + |p|, old(table), old(data), off, p);
      table := table[inum := table[inum].(size := table[inum].size + |p|)];
      Appended(old(Snap()), Snap(), inum, p);
    }

    /** The next inode, with one link. */
    method Ialloc(kind: Short) returns (inum: nat)
      requires Valid() && Solid(table, data) && ZeroTails(table, data) && 0 < freeinode < |table|
               && table[freeinode] == FREE_INODE
      modifies `table, `freeinode
      ensures Valid() && Solid(table, data) && ZeroTails(table, data)
      ensures inum == old(freeinode) && freeinode == inum + 1
      ensures table == old(table)[inum := FREE_INODE.(kind := kind, nlink := 1)]
      ensures forall j | 0 <= j < |table| :: Content(table[j], data) == Content(old(table)[j], data)
    {
      inum := freeinode;
      freeinode := freeinode + 1;
      NewInode(sb, table, data, owner, inum, kind);
      table := table[inum := FREE_INODE.(kind := kind, nlink := 1)];
    }

    /** Append a whole host file, a block at a time. */
    method AppendFile(inum: nat, content: seq<Byte>) returns (ok: bool)
      requires Valid() && inum < |table| && Solid(table, data) && ZeroTails(table, data)
      modifies `table, `data, `freeblock, `owner
      ensures ok ==> Valid() && Solid(table, data) && ZeroTails(table, data)
      ensures ok ==> Longer(old(table), old(data), table, data, inum, content)
      ensures var size := old(table)[inum].size;
              && (ok <==> RoomFor(sb.size, old(freeblock), size, |content|))
              && (ok ==> freeblock == old(freeblock) + FileBlocks(size + |content|) - FileBlocks(size))
    {
      hide Linked, ZeroTails, Solid, FileBlocks, Min, Longer;
      SolidAt(table, data, inum);
      ghost var size := table[inum].size;
      NotLonger(table, data, inum);
      var pos := 0;
      while pos < |content|
        invariant 0 <= pos <= |content| && Valid() && Solid(table, data) && ZeroTails(table, data) && inum < |table|
        invariant Longer(old(table), old(data), table, data, inum, content[..pos])
        invariant table[inum].size == size + pos <= MAXBYTES
                  && freeblock == old(freeblock) + FileBlocks(size + pos) - FileBlocks(size)
      {
        var cc := Min(BSIZE, |content| - pos);
        LeastIs(BSIZE, |content| - pos);
        MoreBytesMoreBlocks(size + pos + cc, size + |content|);
        ghost var table1, data1 := table, data;
        ok := Iappend(inum, content[pos..pos + cc]);
        if !ok {
          return;
        }
        assert content[..pos + cc] == content[..pos] + content[pos..pos + cc];
        StillLonger(old(table), old(data), table1, data1, table, data, inum, content[..pos], content[pos..pos + cc]);
        pos := pos + cc;
      }
      assert content[..|content|] == content;
      ok := true;
    }
  }

  /** File i has grown by p, and nothing else about any file has changed. */
  ghost predicate Longer(t: Table, data: seq<Block>, t': Table, data': seq<Block>, i: nat, p: seq<Byte>)
    requires Solid(t, data) && Solid(t', data')
  {
    && |t| == |t'| && (forall j | 0 <= j < |t| && j != i :: t'[j] == t[j])
    && (forall j | 0 <= j < |t| :: Content(t'[j], data') == Content(t[j], data) + if j == i then p else [])
  }

  lemma NotLonger(t: Table, data: seq<Block>, i: nat)
    requires Solid(t, data)
    ensures Longer(t, data, t, data, i, [])
  {
  }

  lemma StillLonger(t: Table, data: seq<Block>, mid: Table, midData: seq<Block>, t': Table, data': seq<Block>, i: nat,
                    p: seq<Byte>, q: seq<Byte>)
    requires Solid(t, data) && Solid(mid, midData) && Solid(t', data') && Longer(t, data, mid, midData, i, p)
             && Longer(mid, midData, t', data', i, q)
    ensures Longer(t, data, t', data', i, p + q)
  {
    hide Content, NoHoles;
  }

  // ---------------------------------------------------------------- room

  /** Taking n blocks from the counter: done exactly if they are there. */
  ghost predicate Counted(free: nat, free': nat, n: nat, size: nat, ok: bool) {
    (ok <==> free + n <= size) && (ok ==> free' == free + n) && free <= free' <= size
  }

  /** A file of size bytes can grow by n bytes: it stays within the largest size and its new blocks are there. */
  ghost predicate RoomFor(blocks: nat, free: nat, size: nat, n: nat) {
    size + n <= MAXBYTES && free + FileBlocks(size + n) - FileBlocks(size) <= blocks
  }

  lemma LeastIs(a: nat, b: nat)
    ensures Min(a, b) == if a < b then a else b
  {
  }

  lemma RoundBlocks(d: Dinode, data: seq<Block>, pos: nat, n: nat)
    requires pos <= MAXBYTES && Extent(d, data, BlockCount(pos)) && 0 < n <= BSIZE - pos % BSIZE
    ensures pos / BSIZE >= MAXFILE <==> pos == MAXBYTES
    ensures pos / BSIZE < MAXFILE ==> FileBlocks(pos + n) == FileBlocks(pos) + Missing(d, data, pos / BSIZE)
  {
    if pos / BSIZE < MAXFILE {
      assert BlockCount(pos + n) == pos / BSIZE + 1;
      MissingNext(d, data, BlockCount(pos), pos / BSIZE);
    }
  }

  lemma NoIndirectSlot(d: Dinode, data: seq<Block>, fbn: nat)
    requires fbn < MAXFILE
    ensures fbn >= NDIRECT && d.addrs[NDIRECT] == 0 ==> Slot(d, data, fbn) == 0
  {
  }

  lemma WordSlotKept(t: Table, data: seq<Block>, t': Table, data': seq<Block>, i: nat, fbn: nat)
    requires i < |t| == |t'| && IndirectOnly(t, data, t', data', i) && NDIRECT <= fbn < MAXFILE
    ensures Slot(t'[i], data', fbn) == Slot(t[i], data, fbn)
  {
  }

  lemma SoFarMeans(s: Snapshot, t: Snapshot, i: nat, off: nat, p: seq<Byte>)
    requires i < |s.mem| && WriteSoFar(s, t, i, off, p)
    ensures BytesSet(s.mem, s.data, t.mem, t.data, i, off, p) && OthersKept(s.mem, s.data, t.mem, t.data, i)
    ensures SlotsKept(s.mem, s.data, t.mem, t.data)
    ensures OnlyAddrs(s.mem, t.mem, i)
  {
  }

  lemma SolidAt(t: Table, data: seq<Block>, i: nat)
    requires Solid(t, data) && i < |t|
    ensures t[i].size <= MAXBYTES && Extent(t[i], data, BlockCount(t[i].size))
  {
  }

  lemma AppendExtent(s: Snapshot, t: Snapshot, i: nat, pos: nat, len: nat)
    requires i < |s.mem| && pos + len <= MAXBYTES && 0 < len <= BSIZE - pos % BSIZE
    requires Mapped(s.mem, s.data, t.mem, t.data, i, pos / BSIZE) && Extent(s.mem[i], s.data, BlockCount(pos))
    ensures |t.mem| == |s.mem| && Extent(t.mem[i], t.data, BlockCount(pos + len))
  {
  }

  lemma Appended(s: Snapshot, t: Snapshot, i: nat, p: seq<Byte>)
    requires i < |s.mem| == |t.mem| && Solid(s.mem, s.data) && ZeroTails(s.mem, s.data)
    requires BytesSet(s.mem, s.data, t.mem, t.data, i, s.mem[i].size, p) && OthersKept(s.mem, s.data, t.mem, t.data, i)
    requires t.mem == s.mem[i := s.mem[i].(addrs := t.mem[i].addrs, size := s.mem[i].size + |p|)]
    requires s.mem[i].size + |p| <= MAXBYTES && Extent(t.mem[i], t.data, BlockCount(s.mem[i].size + |p|))
    ensures Solid(t.mem, t.data) && ZeroTails(t.mem, t.data)
    ensures forall j | 0 <= j < |t.mem| ::
              Content(t.mem[j], t.data) == Content(s.mem[j], s.data) + if j == i then p else []
  {
  }

  lemma IndirectOwned(sb: Super, t: Table, data: seq<Block>, owner: Owner, i: nat)
    requires Linked(sb, t, data, owner) && i < |t| && t[i].addrs[NDIRECT] != 0
    ensures t[i].addrs[NDIRECT] in owner
  {
    assert Slot(t[i], data, INDIRECT) in owner;
  }

  lemma OwnedBelow(sb: Super, t: Table, data: seq<Block>, owner: Owner, i: nat, k: nat)
    requires Linked(sb, t, data, owner) && i < |t| && k <= INDIRECT && Slot(t[i], data, k) != 0
    ensures Slot(t[i], data, k) in owner
  {
  }

  lemma SameSlotsRefl(t: Table, data: seq<Block>)
    ensures SameSlots(t, data, t, data)
  {
  }

  lemma DirectSlot(d: Dinode, data: seq<Block>, k: nat)
    requires k < NDIRECT
    ensures Slot(d, data, k) == d.addrs[k]
  {
  }

  lemma NewInode(sb: Super, t: Table, data: seq<Block>, owner: Owner, i: nat, kind: Short)
    requires Linked(sb, t, data, owner) && i < |t| && t[i] == FREE_INODE && Solid(t, data) && ZeroTails(t, data)
    ensures var t' := t[i := FREE_INODE.(kind := kind, nlink := 1)];
            && Linked(sb, t', data, owner) && Solid(t', data) && ZeroTails(t', data)
            && (forall j | 0 <= j < |t'| :: Content(t'[j], data) == Content(t[j], data))
  {
    var d := FREE_INODE.(kind := kind, nlink := 1);
    var t' := t[i := d];
    assert SameSlots(t, data, t', data);
    SameSlotsLinked(sb, t, data, t', data, owner);
    forall p | 0 <= p < MAXBYTES
      ensures ByteAt(d, data, p) == ByteAt(t[i], data, p)
    {
      assert SlotBlock(d, data, p / BSIZE) == SlotBlock(t[i], data, p / BSIZE);
    }
    forall j | 0 <= j < |t'|
      ensures NoHoles(t'[j], data)
    {
      assert NoHoles(t[j], data);
      assert forall k | 0 <= k < MAXFILE :: Slot(t'[j], data, k) == Slot(t[j], data, k);
    }
  }

  // ---------------------------------------------------------------- the whole image

  function Padded(s: seq<Byte>): Name
    requires |s| <= DIRSIZ
  {
    s + seq(DIRSIZ - |s|, _ => 0)
  }

  const DOT: Byte := 46

  /** The root directory's entries once k files have been added. */
  ghost function RootBytes(files: seq<(Name, seq<Byte>)>, k: nat): (r: seq<Byte>)
    requires k <= |files|
    ensures |r| == 16 * (k + 2)
  {
    if k == 0 then DirentBytes(ROOTINO, Padded([DOT])) + DirentBytes(ROOTINO, Padded([DOT, DOT]))
    else RootBytes(files, k - 1) + DirentBytes(ROOTINO + k, files[k - 1].0)
  }

  /** Rounding a file's size up to the next block boundary leaves no hole exactly when it was not on one. */
  lemma RoundedSize(d: Dinode, data: seq<Block>)
    requires NoHoles(d, data)
    ensures NoHoles(d.(size := (d.size / BSIZE + 1) * BSIZE), data) <==> d.size % BSIZE != 0
  {
    var d' := d.(size := (d.size / BSIZE + 1) * BSIZE);
    var n := BlockCount(d.size);
    assert forall k | 0 <= k <= INDIRECT :: Slot(d', data, k) == Slot(d, data, k);
    if d.size % BSIZE == 0 {
      assert BlockCount(d'.size) == n + 1;
      if d'.size <= MAXBYTES {
        assert Slot(d', data, n) == 0;
      }
    } else {
      assert BlockCount(d'.size) == n;
    }
  }

  lemma ResizedBytes(d: Dinode, data: seq<Block>, size: nat)
    ensures forall k | 0 <= k <= INDIRECT :: Slot(d.(size := size), data, k) == Slot(d, data, k)
    ensures forall p | 0 <= p < MAXBYTES :: ByteAt(d.(size := size), data, p) == ByteAt(d, data, p)
  {
  }

  ghost function Zeros(n: nat): seq<Byte> {
    seq(n, _ => 0)
  }

  lemma PaddedContent(d: Dinode, data: seq<Block>, size: nat)
    requires d.size <= size <= MAXBYTES && forall p | d.size <= p < MAXBYTES :: ByteAt(d, data, p) == 0
    ensures Content(d.(size := size), data) == Content(d, data) + Zeros(size - d.size)
  {
  }

  /** mkfs gives the root directory a size that is a multiple of the block size. */
  lemma RootFixed(sb: Super, t: Table, data: seq<Block>, owner: Owner, t': Table)
    requires Linked(sb, t, data, owner) && Solid(t, data) && ZeroTails(t, data) && ROOTINO < |t|
    requires t' == t[ROOTINO := t[ROOTINO].(size := (t[ROOTINO].size / BSIZE + 1) * BSIZE)]
    ensures Linked(sb, t', data, owner)
    ensures Solid(t', data) <==> t[ROOTINO].size % BSIZE != 0
    ensures t[ROOTINO].size % BSIZE != 0 ==>
              Content(t'[ROOTINO], data) == Content(t[ROOTINO], data) + Zeros(BSIZE - t[ROOTINO].size % BSIZE)
  {
    hide Linked, Slot, ByteAt, Extent;
    var d := t[ROOTINO];
    ResizedBytes(d, data, (d.size / BSIZE + 1) * BSIZE);
    assert SameSlots(t, data, t', data);
    SameSlotsLinked(sb, t, data, t', data, owner);
    assert NoHoles(d, data);
    RoundedSize(d, data);
    if d.size % BSIZE != 0 {
      assert NoHoles(t'[ROOTINO], data);
      PaddedContent(d, data, (d.size / BSIZE + 1) * BSIZE);
    } else {
      assert !NoHoles(t'[ROOTINO], data);
    }
  }

  /** Mark the first `used` blocks in use; only one bitmap block is ever written. */
  method Bitmap(size: nat, used: nat) returns (r: Option<seq<bool>>)
    requires used <= size
    ensures r.Some? <==> used < BPB
    ensures r.Some? ==> |r.value| == size && forall b | 0 <= b < size :: r.value[b] <==> b < used
  {
    if used >= BPB {
      return None;
    }
    var bitmap := seq(size, _ => false);
    var i := 0;
    while i < used
      invariant 0 <= i <= used && |bitmap| == size
      invariant forall b | 0 <= b < size :: bitmap[b] <==> b < i
    {
      bitmap := bitmap[i := true];
      i := i + 1;
    }
    r := Some(bitmap);
  }

  /** Add one host file: its entry in the root directory, and its contents. */
  method AddFile(img: Image, name: Name, content: seq<Byte>) returns (ok: bool)
    requires img.Valid() && Solid(img.table, img.data) && ZeroTails(img.table, img.data)
    requires ROOTINO < img.freeinode < |img.table| && img.table[img.freeinode] == FREE_INODE
    modifies img
    ensures ok ==> && img.Valid() && Solid(img.table, img.data) && ZeroTails(img.table, img.data)
                   && |img.table| == |old(img.table)| && img.freeinode == old(img.freeinode) + 1
                   && (forall j | 0 <= j < |img.table| && j != ROOTINO && j != old(img.freeinode) ::
                         img.table[j] == old(img.table)[j]
                         && Content(img.table[j], img.data) == Content(old(img.table)[j], old(img.data)))
                   && Content(img.table[ROOTINO], img.data) ==
                      Content(old(img.table)[ROOTINO], old(img.data)) + DirentBytes(old(img.freeinode), name)
                   && Content(img.table[old(img.freeinode)], img.data) == content
    ensures var free, size := old(img.freeblock), old(img.table)[ROOTINO].size;
            var mid := free + FileBlocks(size + 16) - FileBlocks(size);
            && (ok <==> RoomFor(img.sb.size, free, size, 16) && mid + FileBlocks(|content|) <= img.sb.size
                        && |content| <= MAXBYTES)
            && (ok ==> img.freeblock == mid + FileBlocks(|content|) && img.table[ROOTINO].size == size + 16)
  {
    hide Linked, Content, ZeroTails, NoHoles, DirentBytes, FileBlocks;
    EmptyContent(img.data);
    NoBytesNoBlocks();
    var inum := img.Ialloc(T_FILE);
    DirentSize(inum, name);
    ok := img.Iappend(ROOTINO, DirentBytes(inum, name));
    if !ok {
      return;
    }
    ok := img.AppendFile(inum, content);
    if ok {
      assert [] + [] + content == content;
    }
  }

  lemma DirentSize(inum: nat, name: Name)
    ensures |DirentBytes(inum, name)| == 16
  {
  }

  lemma NoBytesNoBlocks()
    ensures FileBlocks(0) == 0
  {
  }

  /** The blocks of the contents of the first k files. */
  function ContentBlocks(files: seq<(Name, seq<Byte>)>, k: nat): nat
    requires k <= |files|
  {
    if k == 0 then 0 else ContentBlocks(files, k - 1) + FileBlocks(|files[k - 1].1|)
  }

  /** The blocks in use after k files: the root directory's and theirs. */
  function BlocksFor(sb: Super, files: seq<(Name, seq<Byte>)>, k: nat): nat
    requires k <= |files|
  {
    sb.nmeta + FileBlocks(16 * (k + 2)) + ContentBlocks(files, k)
  }

  /** The first k files fit: none is too large, nor the root directory, and there are blocks for all of them. */
  predicate FilesFit(sb: Super, files: seq<(Name, seq<Byte>)>, k: nat)
    requires k <= |files|
  {
    && (forall m | 0 <= m < k :: |files[m].1| <= MAXBYTES)
    && 16 * (k + 2) <= MAXBYTES && BlocksFor(sb, files, k) <= sb.size
  }

  lemma {:induction false} FewerFit(sb: Super, files: seq<(Name, seq<Byte>)>, k: nat, n: nat)
    requires k <= n <= |files| && FilesFit(sb, files, n)
    ensures FilesFit(sb, files, k)
    decreases n
  {
    if k < n {
      MoreBytesMoreBlocks(16 * (n + 1), 16 * (n + 2));
      FewerFit(sb, files, k, n - 1);
    }
  }

  lemma AllFit(sb: Super, files: seq<(Name, seq<Byte>)>)
    ensures FilesFit(sb, files, |files|) ==> forall k | 0 <= k <= |files| :: FilesFit(sb, files, k)
  {
    if FilesFit(sb, files, |files|) {
      forall k | 0 <= k <= |files|
        ensures FilesFit(sb, files, k)
      {
        FewerFit(sb, files, k, |files|);
      }
    }
  }

  lemma EmptyContent(data: seq<Block>)
    ensures Content(FREE_INODE, data) == []
  {
  }

  /** Everything mkfs has put into the image after k files. */
  ghost predicate Built(img: Image, files: seq<(Name, seq<Byte>)>, k: nat)
    requires k <= |files|
    reads img
  {
    && img.Valid() && Solid(img.table, img.data) && ZeroTails(img.table, img.data)
    && |img.table| == img.sb.ninodes && img.freeinode == ROOTINO + 1 + k <= |img.table|
    && (forall j | img.freeinode <= j < |img.table| :: img.table[j] == FREE_INODE)
    && Content(img.table[ROOTINO], img.data) == RootBytes(files, k)
    && (forall m | 0 <= m < k :: Content(img.table[ROOTINO + 1 + m], img.data) == files[m].1)
    && img.table[ROOTINO].size == 16 * (k + 2) && img.freeblock == BlocksFor(img.sb, files, k)
    && FilesFit(img.sb, files, k)
  }

  method MakeRoot(img: Image, files: seq<(Name, seq<Byte>)>) returns (ok: bool)
    requires img.Valid() && Solid(img.table, img.data) && ZeroTails(img.table, img.data)
    requires img.freeinode == ROOTINO < |img.table| == img.sb.ninodes && forall j | 0 <= j < |img.table| ::
             img.table[j] == FREE_INODE
    requires img.freeblock == img.sb.nmeta
    modifies img
    ensures ok <==> FilesFit(img.sb, files, 0)
    ensures ok ==> Built(img, files, 0)
  {
    hide Linked, Content, ZeroTails, NoHoles, DirentBytes;
    EmptyContent(img.data);
    var root := img.Ialloc(T_DIR);
    DirentSize(root, Padded([DOT]));
    DirentSize(root, Padded([DOT, DOT]));
    ok := img.Iappend(root, DirentBytes(root, Padded([DOT])));
    if !ok {
      return;
    }
    ok := img.Iappend(root, DirentBytes(root, Padded([DOT, DOT])));
    if ok {
      var e1, e2 := DirentBytes(root, Padded([DOT])), DirentBytes(root, Padded([DOT, DOT]));
      assert [] + e1 + e2 == e1 + e2;
    }
  }

  method AddNext(img: Image, files: seq<(Name, seq<Byte>)>, k: nat) returns (ok: bool)
    requires k < |files| && Built(img, files, k) && ROOTINO + 1 + k < img.sb.ninodes
    modifies img
    ensures ok <==> FilesFit(img.sb, files, k + 1)
    ensures ok ==> Built(img, files, k + 1)
  {
    hide Linked, Content, ZeroTails, Solid, DirentBytes, FileBlocks;
    MoreBytesMoreBlocks(16 * (k + 2), 16 * (k + 3));
    ok := AddFile(img, files[k].0, files[k].1);
  }

  lemma EntriesOnBoundary(k: nat)
    ensures 16 * (k + 2) % BSIZE == 0 <==> (k + 2) % 32 == 0
  {
  }

  /** What the finished image promises about the files put into it. */
  ghost predicate Holds(table: Table, data: seq<Block>, files: seq<(Name, seq<Byte>)>)
    requires ROOTINO + 1 + |files| <= |table| && Solid(table, data)
  {
    && (forall m | 0 <= m < |files| :: Content(table[ROOTINO + 1 + m], data) == files[m].1)
    && var entries := RootBytes(files, |files|);
       Content(table[ROOTINO], data) == entries + Zeros(BSIZE - |entries| % BSIZE)
  }

  lemma Finished(sb: Super, t: Table, data: seq<Block>, owner: Owner, files: seq<(Name, seq<Byte>)>, t': Table)
    requires Linked(sb, t, data, owner) && Solid(t, data) && ZeroTails(t, data) && ROOTINO + 1 + |files| <= |t|
    requires t' == t[ROOTINO := t[ROOTINO].(size := (t[ROOTINO].size / BSIZE + 1) * BSIZE)]
    requires Content(t[ROOTINO], data) == RootBytes(files, |files|)
    requires forall m | 0 <= m < |files| :: Content(t[ROOTINO + 1 + m], data) == files[m].1
    ensures Linked(sb, t', data, owner)
    ensures Solid(t', data) <==> (2 + |files|) % 32 != 0
    ensures Solid(t', data) ==> Holds(t', data, files)
  {
    hide *;
    SolidAt(t, data, ROOTINO);
    ContentSize(t[ROOTINO], data);
    RootFixed(sb, t, data, owner, t');
    EntriesOnBoundary(|files|);
    if Solid(t', data) {
      FinishedHolds(t, data, files, t');
    }
  }

  lemma FinishedHolds(t: Table, data: seq<Block>, files: seq<(Name, seq<Byte>)>, t': Table)
    requires ROOTINO + 1 + |files| <= |t| == |t'| && Solid(t', data) && forall j | 0 <= j < |t| && j != ROOTINO ::
             t'[j] == t[j]
    requires forall m | 0 <= m < |files| :: Content(t[ROOTINO + 1 + m], data) == files[m].1
    requires var entries := RootBytes(files, |files|);
             Content(t'[ROOTINO], data) == entries + Zeros(BSIZE - |entries| % BSIZE)
    ensures Holds(t', data, files)
  {
    hide Content, RootBytes, Solid;
  }

  /**
   mkfs. The image it leaves satisfies every invariant of the running file system, unless
   the root directory's entries exactly fill blocks: then rounding its size up leaves a hole.
   */
  method Build(sb: Super, files: seq<(Name, seq<Byte>)>) returns (r: Option<FileSys>)
    requires sb.Valid() && ROOTINO + 1 + |files| <= sb.ninodes
    ensures r.Some? <==> FilesFit(sb, files, |files|) && BlocksFor(sb, files, |files|) < BPB
    ensures r.Some? ==> fresh(r.value) && r.value.sb == sb && r.value.Valid() && |r.value.mem| == sb.ninodes
    ensures r.Some? ==> (r.value.Clean() <==> (2 + |files|) % 32 != 0)
    ensures r.Some? && r.value.Clean() ==> Holds(r.value.mem, r.value.data, files)
  {
    hide Linked, Content, ZeroTails, Solid, RootBytes, Holds, FilesFit, BlocksFor;
    var img := new Image(sb);
    var ok := MakeRoot(img, files);
    if !ok {
      AllFit(sb, files);
      return None;
    }
    var k := 0;
    while k < |files|
      invariant 0 <= k <= |files| && img.sb == sb && Built(img, files, k)
    {
      ok := AddNext(img, files, k);
      if !ok {
        AllFit(sb, files);
        return None;
      }
      k := k + 1;
    }
    var size := img.table[ROOTINO].size;
    var table := img.table[ROOTINO := img.table[ROOTINO].(size := (size / BSIZE + 1) * BSIZE)];
    Finished(sb, img.table, img.data, img.owner, files, table);
    var bitmap := Bitmap(sb.size, img.freeblock);
    if bitmap.None? {
      return None;
    }
    var fs := new FileSys(sb, bitmap.value, table, img.data, img.owner);
    r := Some(fs);
  }

  lemma ContentSize(d: Dinode, data: seq<Block>)
    requires d.size <= MAXBYTES
    ensures |Content(d, data)| == d.size
  {
  }
}
