/**
 Directories of fs.c. A directory is the sequence of its 16-byte entries; inode number 0
 marks a free one.
 */
module Directories {
  const DIRSIZ: nat := 14
  const NUL: char := '\0'
  const MAXENTRIES: nat := 4480     // MAXFILE * BSIZE / sizeof(struct dirent)

  /** The name bytes of a directory entry, padded with NULs and not otherwise terminated. */
  type Field = f: seq<char> | |f| == DIRSIZ witness seq(DIRSIZ, _ => '\0')

  datatype Dirent = Dirent(inum: nat, name: Field)

  /** A C string: the characters before the NUL. */
  type CString = s: string | NUL !in s

  function CharAt(s: CString, i: nat): char {
    if i < |s| then s[i] else NUL
  }

  /** The name bytes that stand for s: its first 14 characters, padded. */
  function Pad(s: CString): Field {
    seq(DIRSIZ, i requires 0 <= i => CharAt(s, i))
  }

  predicate Padded(f: Field) {
    forall i, j | 0 <= i < j < DIRSIZ && f[i] == NUL :: f[j] == NUL
  }

  /** strncpy(de.name, s, DIRSIZ). */
  method Strncpy(s: CString) returns (f: Field)
    ensures f == Pad(s) && Padded(f)
  {
    var t: seq<char> := [];
    var n, ended := DIRSIZ, false;
    while n > 0 && !ended
      invariant 0 <= n <= DIRSIZ && |t| == DIRSIZ - n
      invariant forall i | 0 <= i < |t| :: t[i] == CharAt(s, i)
      invariant ended ==> t != [] && t[|t| - 1] == NUL
      decreases n, !ended
    {
      t := t + [CharAt(s, |t|)];
      n := n - 1;
      ended := t[|t| - 1] == NUL;
    }
    while n > 0
      invariant 0 <= n <= DIRSIZ && |t| == DIRSIZ - n
      invariant forall i | 0 <= i < |t| :: t[i] == CharAt(s, i)
      invariant n > 0 ==> t != [] && t[|t| - 1] == NUL
    {
      t := t + [NUL];
      n := n - 1;
    }
    f := t;
  }

  /** namecmp: strncmp over DIRSIZ bytes. It stops at a NUL, so it needs padded names to decide equality. */
  method Namecmp(s: CString, f: Field) returns (r: int)
    requires Padded(f)
    ensures r == 0 <==> f == Pad(s)
    ensures r != 0 ==> exists i | 0 <= i < DIRSIZ :: Pad(s)[..i] == f[..i] && r == Pad(s)[i] as int - f[i] as int
  {
    var i := 0;
    while i < DIRSIZ && CharAt(s, i) != NUL && CharAt(s, i) == f[i]
      invariant 0 <= i <= DIRSIZ
      invariant forall j | 0 <= j < i :: f[j] == Pad(s)[j]
    {
      i := i + 1;
    }
    if i == DIRSIZ {
      return 0;
    }
    r := CharAt(s, i) as int - f[i] as int;
    assert Pad(s)[i] == CharAt(s, i) && Pad(s)[..i] == f[..i];
  }

  // ---------------------------------------------------------------- a directory as a map

  ghost predicate Used(es: seq<Dirent>, k: int) {
    0 <= k < |es| && es[k].inum != 0
  }

  ghost predicate NamesPadded(es: seq<Dirent>) {
    forall k | 0 <= k < |es| :: Padded(es[k].name)
  }

  ghost predicate Distinct(es: seq<Dirent>) {
    forall j, k | Used(es, j) && Used(es, k) && es[j].name == es[k].name :: j == k
  }

  /** What a directory says: a finite map from names to inode numbers. */
  ghost function Contents(es: seq<Dirent>): map<Field, nat> {
    if es == [] then map[]
    else
      var m, e := Contents(es[..|es| - 1]), es[|es| - 1];
      if e.inum == 0 then m else m[e.name := e.inum]
  }

  function WithEntry(es: seq<Dirent>, k: nat, e: Dirent): seq<Dirent>
    requires k <= |es|
  {
    if k < |es| then es[k := e] else es + [e]
  }

  lemma DistinctPrefix(es: seq<Dirent>)
    requires Distinct(es) && es != []
    ensures Distinct(es[..|es| - 1])
  {
  }

  lemma {:induction false} ContentsAt(es: seq<Dirent>, n: Field)
    requires Distinct(es)
    ensures n in Contents(es) <==> exists k :: Used(es, k) && es[k].name == n
    ensures forall k | Used(es, k) && es[k].name == n :: n in Contents(es) && Contents(es)[n] == es[k].inum
  {
    if es != [] {
      var s, last := es[..|es| - 1], |es| - 1;
      DistinctPrefix(es);
      ContentsAt(s, n);
      assert forall j | j < last :: Used(s, j) <==> Used(es, j);
      assert Used(es, last) <==> es[last].inum != 0;
      if k :| Used(s, k) && s[k].name == n {
        assert Used(es, k) && es[k].name == n;
      }
    }
  }

  lemma {:induction false} LinkedContents(es: seq<Dirent>, k: nat, name: Field, inum: nat)
    requires k <= |es| && !Used(es, k) && inum != 0 && name !in Contents(es)
    ensures Contents(WithEntry(es, k, Dirent(inum, name))) == Contents(es)[name := inum]
  {
    var e := Dirent(inum, name);
    var es' := WithEntry(es, k, e);
    if k == |es| {
      assert es'[..|es'| - 1] == es;
    } else if k == |es| - 1 {
      assert es'[..|es'| - 1] == es[..|es| - 1];
    } else {
      var s := es[..|es| - 1];
      assert Used(s, k) <==> Used(es, k);
      assert es'[..|es'| - 1] == WithEntry(s, k, e);
      LinkedContents(s, k, name, inum);
    }
  }

  lemma LastName(es: seq<Dirent>)
    requires Distinct(es) && es != [] && es[|es| - 1].inum != 0
    ensures es[|es| - 1].name !in Contents(es[..|es| - 1])
    ensures forall j | 0 <= j < |es| - 1 && es[j].inum != 0 :: es[j].name != es[|es| - 1].name
  {
    var s, last := es[..|es| - 1], |es| - 1;
    DistinctPrefix(es);
    ContentsAt(s, es[last].name);
    assert Used(es, last);
    assert forall j | Used(s, j) :: Used(es, j) && s[j] == es[j];
    assert forall j | 0 <= j < last && es[j].inum != 0 :: Used(es, j);
  }

  lemma {:induction false} UnlinkedContents(es: seq<Dirent>, k: nat, e: Dirent)
    requires Distinct(es) && k < |es| && es[k].inum != 0 && e.inum == 0
    ensures Contents(es[k := e]) == Contents(es) - {es[k].name}
  {
    hide Distinct;
    var s, es', last := es[..|es| - 1], es[k := e], |es| - 1;
    DistinctPrefix(es);
    if es[last].inum != 0 {
      LastName(es);
    }
    if k == last {
      assert es'[..last] == s;
    } else {
      assert es'[..last] == s[k := e];
      UnlinkedContents(s, k, e);
    }
  }

  lemma LinkedDistinct(es: seq<Dirent>, k: nat, name: Field, inum: nat)
    requires Distinct(es) && k <= |es| && !Used(es, k) && forall j | Used(es, j) :: es[j].name != name
    ensures Distinct(WithEntry(es, k, Dirent(inum, name)))
  {
  }

}
