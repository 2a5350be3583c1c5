/**
 Directories as files: the 16-byte entries in the bytes of a directory's contents, and the
 inode table with its contents as the inodes and directories of the name space.
 */
module DirBytes {
  import opened Common
  import opened Blocks
  import opened Inodes
  import opened FileSystem
  import opened FileWrite
  import opened Directories
  import opened LinkCounts

  const T_DIR: Short := 1
  const T_FILE: Short := 2
  const ENTRY: nat := 16

  /** Characters are bytes. */
  predicate Latin(s: seq<char>) {
    forall i | 0 <= i < |s| :: s[i] as int < 256
  }

  /** An entry that a directory can hold: a 16-bit inode number and a name of bytes. */
  predicate Small(e: Dirent) {
    e.inum < 0x1_0000 && Latin(e.name)
  }

  function CharByte(c: char): Byte { c as int % 256 }

  /** struct dirent in memory. */
  function EntryBytes(e: Dirent): (s: seq<Byte>)
    ensures |s| == ENTRY
  {
    [e.inum % 256, e.inum / 256 % 256] + seq(DIRSIZ, i requires 0 <= i < DIRSIZ => CharByte(e.name[i]))
  }

  function NameAt(c: seq<Byte>, p: nat): Field
    requires p + DIRSIZ <= |c|
  {
    seq(DIRSIZ, i requires 0 <= i < DIRSIZ => c[p + i] as char)
  }

  /** The entry in the 16 bytes of c from p on. */
  function EntryAt(c: seq<Byte>, p: nat): Dirent
    requires p + ENTRY <= |c|
  {
    var lo: int, hi: int := c[p], c[p + 1];
    Dirent(lo + 256 * hi, NameAt(c, p + 2))
  }

  function Entries(c: seq<Byte>): (es: seq<Dirent>)
    ensures |es| == |c| / ENTRY
  {
    seq(|c| / ENTRY, k requires 0 <= k < |c| / ENTRY => EntryAt(c, ENTRY * k))
  }

  /** An entry's bytes, wherever they lie, are read as that entry. */
  lemma EntryBack(c: seq<Byte>, p: nat, e: Dirent)
    requires p + ENTRY <= |c| && c[p..p + ENTRY] == EntryBytes(e) && Small(e)
    ensures EntryAt(c, p) == e
  {
    var s := EntryBytes(e);
    assert forall i | 0 <= i < ENTRY :: c[p + i] == s[i];
    assert c[p + 0] == s[0] && c[p + 1] == s[1];
    forall i | 0 <= i < DIRSIZ
      ensures NameAt(c, p + 2)[i] == e.name[i]
    {
      assert c[p + (2 + i)] == s[2 + i] == CharByte(e.name[i]);
    }
  }

  lemma SameEntry(c: seq<Byte>, p: nat, c': seq<Byte>, p': nat)
    requires p + ENTRY <= |c| && p' + ENTRY <= |c'| && c[p..p + ENTRY] == c'[p'..p' + ENTRY]
    ensures EntryAt(c, p) == EntryAt(c', p')
  {
    var a, b := c[p..p + ENTRY], c'[p'..p' + ENTRY];
    assert a[0] == c[p] && a[1] == c[p + 1] && b[0] == c'[p'] && b[1] == c'[p' + 1];
    var n, n' := NameAt(c, p + 2), NameAt(c', p' + 2);
    forall i | 0 <= i < DIRSIZ
      ensures n[i] == n'[i]
    {
      assert a[2 + i] == c[p + 2 + i] && b[2 + i] == c'[p' + 2 + i];
    }
  }

  /** Writing an entry's bytes at its place, or at the end, is writing the entry. */
  lemma SplicedEntries(c: seq<Byte>, k: nat, e: Dirent)
    requires |c| % ENTRY == 0 && ENTRY * k <= |c| && Small(e)
    ensures var c' := Spliced(c, ENTRY * k, EntryBytes(e));
            |c'| % ENTRY == 0 && Entries(c') == WithEntry(Entries(c), k, e)
  {
    hide EntryBytes, EntryAt;
    var c' := Spliced(c, ENTRY * k, EntryBytes(e));
    var p := ENTRY * k;
    assert |c'| == if p < |c| then |c| else p + ENTRY;
    assert c'[p..p + ENTRY] == EntryBytes(e);
    EntryBack(c', p, e);
    forall j | 0 <= j < |c'| / ENTRY && j != k
      ensures EntryAt(c', ENTRY * j) == Entries(c)[j]
    {
      assert c'[ENTRY * j..ENTRY * j + ENTRY] == c[ENTRY * j..ENTRY * j + ENTRY];
      SameEntry(c', ENTRY * j, c, ENTRY * j);
    }
  }

  // ---------------------------------------------------------------- the name space of an inode table

  ghost function NodeOf(d: Dinode, c: seq<Byte>): Node {
    Node(d.kind == T_DIR, d.nlink, if d.kind == T_DIR then Entries(c) else [])
  }

  /** The allocated inodes as the name space sees them. */
  ghost function NodesOf(mem: Table, data: seq<Block>): Nodes
    requires Solid(mem, data)
  {
    map i: nat | i < |mem| && mem[i].kind != 0 :: NodeOf(mem[i], Content(mem[i], data))
  }

  /** Directories consist of whole entries, and a free inode has no blocks. */
  ghost predicate Tidy(mem: Table) {
    forall i | 0 <= i < |mem| :: (mem[i].kind == T_DIR ==> mem[i].size % ENTRY == 0)
                                 && (mem[i].kind == 0 ==> mem[i].size == 0)
  }
}
