/**
 Path names of fs.c: cutting a path into elements and walking a tree of inodes along them.
 */
module Paths {
  import opened Common
  import opened Directories
  import opened LinkCounts

  /** The end of the element that starts at i. */
  function ElementEnd(path: CString, i: nat): (e: nat)
    requires i <= |path|
    ensures i <= e <= |path| && (forall j | i <= j < e :: path[j] != '/') && (e < |path| ==> path[e] == '/')
    decreases |path| - i
  {
    if i == |path| || path[i] == '/' then i else ElementEnd(path, i + 1)
  }

  /** The elements of a path from position i on: its maximal runs without slashes. */
  function Elements(path: CString, i: nat): seq<CString>
    requires i <= |path|
    decreases |path| - i
  {
    if i == |path| then []
    else if path[i] == '/' then Elements(path, i + 1)
    else var e := ElementEnd(path, i); [Part(path, i, e)] + Elements(path, e)
  }

  function Part(path: CString, i: nat, e: nat): CString
    requires i <= e <= |path|
  {
    assert forall j | i <= j < e :: path[j] in path;
    path[i..e]
  }

  lemma {:induction false} SkipSlashes(path: CString, i: nat, j: nat)
    requires i <= j <= |path| && forall k | i <= k < j :: path[k] == '/'
    ensures Elements(path, i) == Elements(path, j)
    decreases j - i
  {
    if i < j {
      SkipSlashes(path, i + 1, j);
    }
  }

  lemma EndIs(path: CString, i: nat, e: nat)
    requires i <= e <= |path| && (forall j | i <= j < e :: path[j] != '/') && (e < |path| ==> path[e] == '/')
    ensures ElementEnd(path, i) == e
    decreases e - i
  {
  }

  /** The first DIRSIZ characters of an element, which is all a lookup sees of it. */
  function Clip(s: CString): CString {
    if |s| >= DIRSIZ then Part(s, 0, DIRSIZ) else s
  }

  lemma ClipPads(s: CString)
    ensures Pad(Clip(s)) == Pad(s)
  {
  }

  /** Copy the next element, clipped, and step past it and the slashes that follow; None at the end of the path. */
  method Skipelem(path: CString, pos: nat) returns (r: Option<nat>, name: CString)
    requires pos <= |path|
    ensures r.None? <==> Elements(path, pos) == []
    ensures r.Some? ==> && pos < r.value <= |path| && (r.value < |path| ==> path[r.value] != '/')
                        && Elements(path, pos)[1..] == Elements(path, r.value) && name == Clip(Elements(path, pos)[0])
    ensures r.Some? ==> (r.value == |path| <==> Elements(path, r.value) == [])
  {
    var p := pos;
    while p < |path| && path[p] == '/'
      invariant pos <= p <= |path| && forall k | pos <= k < p :: path[k] == '/'
    {
      p := p + 1;
    }
    SkipSlashes(path, pos, p);
    if p == |path| {
      return None, "";
    }
    var s := p;
    while p < |path| && path[p] != '/'
      invariant s <= p <= |path| && forall k | s <= k < p :: path[k] != '/'
    {
      p := p + 1;
    }
    EndIs(path, s, p);
    var len := p - s;
    if len >= DIRSIZ {
      name := Part(path, s, s + DIRSIZ);
      assert Part(path, s, p)[..DIRSIZ] == path[s..s + DIRSIZ];
    } else {
      name := Part(path, s, p);
    }
    ghost var e := p;
    while p < |path| && path[p] == '/'
      invariant e <= p <= |path| && forall k | e <= k < p :: path[k] == '/'
    {
      p := p + 1;
    }
    SkipSlashes(path, e, p);
    r := Some(p);
  }

  /** Names joined by slashes. */
  function Joined(names: seq<CString>): CString {
    if names == [] then "" else names[0] + "/" + Joined(names[1..])
  }

  lemma {:induction false} ElementsShift(a: CString, b: CString, i: nat)
    requires i <= |b|
    ensures NUL !in a + b && Elements(a + b, |a| + i) == Elements(b, i)
    decreases |b| - i
  {
    var path: CString := a + b;
    if i < |b| {
      if b[i] == '/' {
        ElementsShift(a, b, i + 1);
      } else {
        var e := ElementEnd(b, i);
        EndIs(path, |a| + i, |a| + e);
        ElementsShift(a, b, e);
        assert path[|a| + i..|a| + e] == b[i..e];
      }
    }
  }

  lemma FirstElement(n: CString, rest: CString)
    requires n != "" && '/' !in n
    ensures NUL !in n + "/" + rest && Elements(n + "/" + rest, 0) == [n] + Elements(rest, 0)
  {
    var path: CString := n + "/" + rest;
    assert forall j | 0 <= j < |n| :: path[j] == n[j] && n[j] in n;
    EndIs(path, 0, |n|);
    assert path[0..|n|] == n;
    ElementsShift(n + "/", rest, 0);
  }

  /** Joining names and cutting the path gives the names back. */
  lemma {:induction false} JoinedElements(names: seq<CString>)
    requires forall n | n in names :: n != "" && '/' !in n
    ensures Elements(Joined(names), 0) == names
  {
    if names != [] {
      assert names[0] in names && forall m | m in names[1..] :: m in names;
      FirstElement(names[0], Joined(names[1..]));
      JoinedElements(names[1..]);
      assert names == [names[0]] + names[1..];
    }
  }

  // ---------------------------------------------------------------- walking

  /** Where the elements lead from inode d, if every one but the last names a directory. */
  ghost function Walk(nodes: Nodes, d: nat, elements: seq<CString>): Option<nat>
    decreases |elements|
  {
    if elements == [] then Some(d)
    else
      var next := Step(nodes, d, elements[0]);
      if next.None? then None else Walk(nodes, next.value, elements[1..])
  }

  ghost function Step(nodes: Nodes, d: nat, element: CString): Option<nat> {
    if d !in nodes || !nodes[d].dir || Pad(element) !in Contents(nodes[d].entries) then None
    else Some(Contents(nodes[d].entries)[Pad(element)])
  }

  /** The directory that is to hold the last element. */
  ghost function WalkParent(nodes: Nodes, d: nat, elements: seq<CString>): Option<nat>
    decreases |elements|
  {
    if elements == [] || d !in nodes || !nodes[d].dir then None
    else if |elements| == 1 then Some(d)
    else
      var next := Step(nodes, d, elements[0]);
      if next.None? then None else WalkParent(nodes, next.value, elements[1..])
  }

  /** The last step of a walk is a lookup in the parent. */
  lemma {:induction false} WalkThenStep(nodes: Nodes, d: nat, elements: seq<CString>)
    requires elements != []
    ensures var p := WalkParent(nodes, d, elements);
            Walk(nodes, d, elements) == if p.None? then None else Step(nodes, p.value, elements[|elements| - 1])
    decreases |elements|
  {
    if |elements| > 1 {
      var next := Step(nodes, d, elements[0]);
      if next.Some? {
        WalkThenStep(nodes, next.value, elements[1..]);
      }
    }
  }

  /** From a linked directory, a lookup leads to an inode in use, and to a linked directory if to a directory. */
  lemma StepLive(nodes: Nodes, d: nat, element: CString)
    requires Consistent(nodes) && Live(nodes, d)
    ensures var r := Step(nodes, d, element);
            r.Some? ==> r.value in nodes && (nodes[r.value].dir ==> Live(nodes, r.value))
  {
    hide TreeOk, Rooted, EntriesOk, OrphansEmpty, Counted, Pad, Contents;
    assert NodeOk(nodes[d], d);
    ContentsAt(nodes[d].entries, Pad(element));
    var r := Step(nodes, d, element);
    if r.Some? {
      var k :| Used(nodes[d].entries, k) && nodes[d].entries[k].name == Pad(element);
      if k > 0 {
        CitedExists(nodes, d, k, r.value);
        CitedCounted(nodes, d, k, r.value);
      }
    }
  }

  // ---------------------------------------------------------------- every linked directory has a path

  /** The characters of the first n name bytes up to a NUL. */
  ghost function Unpadded(f: Field, n: nat): (s: CString)
    requires n <= DIRSIZ
    ensures |s| <= n && (forall i | 0 <= i < |s| :: s[i] == f[i]) && (|s| < n ==> f[|s|] == NUL)
  {
    if n == 0 then "" else
      var s := Unpadded(f, n - 1);
      if |s| < n - 1 || f[n - 1] == NUL then s else s + [f[n - 1]]
  }

  lemma PadUnpadded(f: Field)
    requires Padded(f)
    ensures Pad(Unpadded(f, DIRSIZ)) == f
  {
  }

  lemma {:induction false} WalkSnoc(nodes: Nodes, d: nat, elements: seq<CString>, element: CString)
    requires Walk(nodes, d, elements).Some?
    ensures Walk(nodes, d, elements + [element]) == Step(nodes, Walk(nodes, d, elements).value, element)
    decreases |elements|
  {
    var all := elements + [element];
    if elements == [] {
      assert all == [element] && all[1..] == [];
    } else {
      assert all[1..] == elements[1..] + [element];
      WalkSnoc(nodes, Step(nodes, d, elements[0]).value, elements[1..], element);
    }
  }

  /** The name under which a linked directory is entered in its parent leads to it. */
  lemma StepDown(nodes: Nodes, c: nat) returns (element: CString)
    requires NodesOk(nodes) && TreeOk(nodes) && Live(nodes, c) && c != ROOTINO
    ensures |nodes[c].entries| >= 2 && Live(nodes, Parent(nodes, c))
            && Step(nodes, Parent(nodes, c), element) == Some(c)
  {
    hide Pad, Contents;
    var p := Parent(nodes, c);
    assert NamedIn(nodes, p, c);
    var k :| 2 <= k && Cites(nodes, p, k, c);
    assert NodeOk(nodes[p], p);
    var f := nodes[p].entries[k].name;
    assert Used(nodes[p].entries, k);
    element := Unpadded(f, DIRSIZ);
    PadUnpadded(f);
    ContentsAt(nodes[p].entries, f);
  }

  lemma {:induction false} PathTo(nodes: Nodes, rank: map<nat, nat>, c: nat) returns (elements: seq<CString>)
    requires NodesOk(nodes) && TreeOk(nodes) && Ranked(nodes, rank) && Live(nodes, c) && c in rank
    ensures Walk(nodes, ROOTINO, elements) == Some(c)
    decreases rank[c]
  {
    if c == ROOTINO {
      return [];
    }
    var last := StepDown(nodes, c);
    var above := PathTo(nodes, rank, Parent(nodes, c));
    WalkSnoc(nodes, ROOTINO, above, last);
    elements := above + [last];
  }

  /** From the root a path of names leads to every linked directory. */
  lemma LinkedReached(nodes: Nodes, c: nat)
    requires Consistent(nodes) && Live(nodes, c)
    ensures exists elements :: Walk(nodes, ROOTINO, elements) == Some(c)
  {
    hide EntriesOk, OrphansEmpty, Counted, NodesOk, TreeOk;
    var rank :| Ranked(nodes, rank);
    var elements := PathTo(nodes, rank, c);
  }
}
