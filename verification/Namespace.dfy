/**
 Path lookup of fs.c and the system calls of sysfile.c that change directories and link counts.
 */
module Namespace {
  import opened Common
  import opened Directories
  import opened LinkCounts
  import opened Paths

  datatype Entering = Entered | Exists | Full
  datatype Creation = Created(inum: nat) | Existing(inum: nat) | Refused | Panicked
  datatype Change = Ok | Failed | Panic

  /** A system call on absolute paths. */
  datatype Call = Make(path: CString, dir: bool) | Alias(path: CString, new_: CString) | Remove(path: CString,
      refs: nat)

  /** The first free entry, or one past the last. */
  function FirstFree(es: seq<Dirent>): (k: nat)
    ensures k <= |es| && (k < |es| ==> es[k].inum == 0) && forall j | 0 <= j < k :: es[j].inum != 0
  {
    if es == [] then 0
    else
      var k := FirstFree(es[..|es| - 1]);
      if k < |es| - 1 || es[|es| - 1].inum == 0 then k else |es|
  }

  lemma FirstFreeIs(es: seq<Dirent>, k: nat)
    requires k <= |es| && (k < |es| ==> es[k].inum == 0) && forall j | 0 <= j < k :: es[j].inum != 0
    ensures FirstFree(es) == k
  {
  }

  class Tree {
    const ninodes: nat
    var nodes: Nodes

    /** The root directory as mkfs makes it. */
    constructor (ninodes: nat)
      ensures Consistent(nodes) && this.ninodes == ninodes
              && nodes == map[ROOTINO := Node(true, 1, DotEntries(ROOTINO, ROOTINO))]
    {
      this.ninodes := ninodes;
      var dot, dotdot := Pad("."), Pad("..");
      nodes := map[ROOTINO := Node(true, 1, [Dirent(ROOTINO, dot), Dirent(ROOTINO, dotdot)])];
      new;
      RootConsistent(nodes);
    }

    /** Search a directory for a name; the index of its entry. */
    method Dirlookup(d: nat, name: CString) returns (r: Option<nat>)
      requires d in nodes && nodes[d].dir && NamesPadded(nodes[d].entries)
      ensures r.None? <==> forall k | Used(nodes[d].entries, k) :: nodes[d].entries[k].name != Pad(name)
      ensures r.Some? ==> Used(nodes[d].entries, r.value) && nodes[d].entries[r.value].name == Pad(name)
    {
      var es, k := nodes[d].entries, 0;
      while k < |es|
        invariant 0 <= k <= |es|
        invariant forall j | 0 <= j < k && Used(es, j) :: es[j].name != Pad(name)
      {
        if es[k].inum != 0 {
          var c := Namecmp(name, es[k].name);
          if c == 0 {
            assert Used(es, k);
            return Some(k);
          }
        }
        k := k + 1;
      }
      r := None;
    }

    /** Write a new entry into a directory, in the first free place. */
    method Dirlink(d: nat, name: CString, inum: nat) returns (r: Entering)
      requires d in nodes && nodes[d].dir && NamesPadded(nodes[d].entries) && Distinct(nodes[d].entries) && inum != 0
      modifies `nodes
      ensures var es := old(nodes)[d].entries;
              && (r == Exists <==> Pad(name) in Contents(es))
              && (r == Full <==> Pad(name) !in Contents(es) && FirstFree(es) >= MAXENTRIES)
              && (r != Entered ==> nodes == old(nodes))
              && (r == Entered ==>
                  && nodes == old(nodes)[d := old(nodes)[d].(entries := WithEntry(es, FirstFree(es),
                      Dirent(inum, Pad(name))))]
                                   && NewName(es, FirstFree(es), Pad(name)) && Distinct(nodes[d].entries)
                                   && NamesPadded(nodes[d].entries)
                                   && Contents(nodes[d].entries) == Contents(es)[Pad(name) := inum])
    {
      hide Contents, Distinct, Pad;
      var es := nodes[d].entries;
      var found := Dirlookup(d, name);
      ContentsAt(es, Pad(name));
      if found.Some? {
        return Exists;
      }
      var k := 0;
      while k < |es| && es[k].inum != 0
        invariant 0 <= k <= |es| && forall j | 0 <= j < k :: es[j].inum != 0
      {
        k := k + 1;
      }
      FirstFreeIs(es, k);
      var field := Strncpy(name);
      if k >= MAXENTRIES {
        return Full;
      }
      LinkedContents(es, k, field, inum);
      LinkedDistinct(es, k, field, inum);
      nodes := nodes[d := nodes[d].(entries := WithEntry(es, k, Dirent(inum, field)))];
      r := Entered;
    }

    /** Does the directory hold nothing but the dots? */
    method Isdirempty(d: nat) returns (empty: bool)
      requires d in nodes
      ensures empty <==> Empty(nodes[d].entries)
    {
      var es, k := nodes[d].entries, 2;
      while k < |es|
        invariant 2 <= k && forall j | 2 <= j < k && j < |es| :: es[j].inum == 0
      {
        if es[k].inum != 0 {
          return false;
        }
        k := k + 1;
      }
      empty := true;
    }

    /** Take the lowest free inode. */
    method Ialloc(dir: bool) returns (r: Option<nat>)
      modifies `nodes
      ensures r.None? <==> NoInode(old(nodes), ninodes)
      ensures r.None? ==> nodes == old(nodes)
      ensures r.Some? ==> && 1 <= r.value < ninodes && r.value !in old(nodes) && NoInode(old(nodes), r.value)
                          && nodes == old(nodes)[r.value := Node(dir, 0, [])]
    {
      var i := 1;
      while i < ninodes
        invariant 1 <= i && nodes == old(nodes) && forall j | 1 <= j < i && j < ninodes :: j in nodes
      {
        if i !in nodes {
          nodes := nodes[i := Node(dir, 0, [])];
          return Some(i);
        }
        i := i + 1;
      }
      r := None;
    }

    /**
     Make a file or directory, or find an existing file. After a new entry the link counts
     are right exactly when the directory is still linked.
     */
    method Create(dp: nat, name: CString, dir: bool) returns (r: Creation)
      requires Consistent(nodes) && dp in nodes && nodes[dp].dir
      modifies `nodes
      ensures Creating(old(nodes), nodes, ninodes, dp, Pad(name), dir, r)
      ensures r.Created? ==> (Consistent(nodes) <==> Live(old(nodes), dp))
      ensures r.Existing? || r.Refused? ==> nodes == old(nodes)
    {
      hide EntriesOk, TreeOk, Rooted, OrphansEmpty, Counted, NodesOk, Pad, Distinct, NamesPadded, Used, Contents,
           WithEntry;
      DirOk(nodes, dp);
      var es := nodes[dp].entries;
      var found := Dirlookup(dp, name);
      FoundMeans(es, Pad(name), found);
      if found.Some? {
        var i := es[found.value].inum;
        if i !in nodes {
          return Panicked;
        }
        return if !dir && !nodes[i].dir then Existing(i) else Refused;
      }
      var got := Ialloc(dir);
      if got.None? {
        return Panicked;
      }
      var c := got.value;
      nodes := nodes[c := Node(dir, 1, [])];
      if dir {
        nodes := nodes[dp := nodes[dp].(nlink := nodes[dp].nlink + 1)];
        var dots := Dots(c, dp);
        if !dots {
          return Panicked;
        }
      }
      var linked := Dirlink(dp, name, c);
      if linked != Entered {
        return Panicked;
      }
      r := Created(c);
      EnteredName(es, Pad(name));
      PadPads(name);
      assert nodes == if dir then DirEntered(old(nodes), dp, FirstFree(es), Pad(name), c)
                      else FileEntered(old(nodes), dp, FirstFree(es), Pad(name), c, 1);
      NewFileOrDir(old(nodes), nodes, dp, Pad(name), c, dir);
    }

    /** The two entries of a new directory. */
    method Dots(c: nat, dp: nat) returns (ok: bool)
      requires c in nodes && nodes[c].dir && nodes[c].entries == [] && c != 0 && dp != 0
      modifies `nodes
      ensures ok && nodes == old(nodes)[c := old(nodes)[c].(entries := DotEntries(c, dp))]
    {
      hide Pad, Contents, Distinct, NamesPadded, FirstFree, WithEntry, NewName, Padded;
      DotsDiffer();
      NoEntries(Dirent(c, Dot()), Dirent(dp, DotDot()));
      var r := Dirlink(c, ".", c);
      assert r == Entered && nodes[c].entries == [Dirent(c, Dot())];
      FirstFreeIs([Dirent(c, Dot())], 1);
      if r == Entered {
        r := Dirlink(c, "..", dp);
      }
      ok := r == Entered;
    }

    /** Give the file ip a second name; dp is None when the path of the new name leads nowhere. */
    method Link(ip: nat, dp: Option<nat>, name: CString) returns (r: Change)
      requires Consistent(nodes) && ip in nodes && (dp.Some? ==> dp.value in nodes && nodes[dp.value].dir)
      modifies `nodes
      ensures Linking(old(nodes), nodes, ip, dp, Pad(name), r)
      ensures r == Ok ==> (Consistent(nodes) <==> Live(old(nodes), dp.value))
    {
      hide EntriesOk, TreeOk, Rooted, OrphansEmpty, Counted, NodesOk, Pad, Distinct, NamesPadded, Used, Contents,
           WithEntry, NewName;
      if nodes[ip].dir {
        return Failed;
      }
      FileOk(nodes, ip);
      nodes := nodes[ip := nodes[ip].(nlink := nodes[ip].nlink + 1)];
      if dp.Some? {
        DirOk(old(nodes), dp.value);
        var es := nodes[dp.value].entries;
        var linked := Dirlink(dp.value, name, ip);
        if linked == Full {
          return Panic;
        }
        if linked == Entered {
          PadPads(name);
          assert nodes == FileEntered(old(nodes), dp.value, FirstFree(es), Pad(name), ip, old(nodes)[ip].nlink + 1);
          NameEntered(old(nodes), dp.value, Pad(name), ip);
          return Ok;
        }
      }
      nodes := nodes[ip := nodes[ip].(nlink := nodes[ip].nlink - 1)];
      assert nodes == old(nodes);
      r := Failed;
    }

    /** Remove a name. The link counts stay right whatever directory it is removed from. */
    method Unlink(dp: nat, name: CString) returns (r: Change)
      requires Consistent(nodes) && dp in nodes && nodes[dp].dir
      modifies `nodes
      ensures r != Panic && Consistent(nodes)
      ensures Unlinking(old(nodes), nodes, dp, Pad(name), r)
    {
      hide EntriesOk, TreeOk, Rooted, OrphansEmpty, Counted, NodesOk, Pad, Distinct, NamesPadded, Used, Contents, Empty,
           Padded;
      DotsDiffer();
      var dot := Namecmp(name, Pad("."));
      var dotdot := Namecmp(name, Pad(".."));
      if dot == 0 || dotdot == 0 {
        return Failed;
      }
      DirOk(nodes, dp);
      var es := nodes[dp].entries;
      var found := Dirlookup(dp, name);
      FoundMeans(es, Pad(name), found);
      if found.None? {
        return Failed;
      }
      var k := found.value;
      var ip := es[k].inum;
      EntryNamed(nodes, dp, k, Pad(name));
      if ip !in nodes || nodes[ip].nlink < 1 {
        return Panic;
      }
      if nodes[ip].dir {
        var empty := Isdirempty(ip);
        if !empty {
          return Failed;
        }
      }
      var none := Dirent(0, seq(DIRSIZ, _ => NUL));
      nodes := nodes[dp := nodes[dp].(entries := es[k := none])];
      UnlinkedContents(es, k, none);
      if nodes[ip].dir {
        DirDroppedConsistent(old(nodes), dp, k, ip);
        nodes := nodes[dp := nodes[dp].(nlink := nodes[dp].nlink - 1)];
      } else {
        FileDroppedConsistent(old(nodes), dp, k, ip);
      }
      nodes := nodes[ip := nodes[ip].(nlink := nodes[ip].nlink - 1)];
      assert DroppedAt(old(nodes), nodes, dp, k, ip, Pad(name));
      r := Ok;
    }

    /** The freeing half of iput: the last reference to an inode without links goes. */
    method Iput(i: nat, refs: nat) returns (freed: bool)
      requires Consistent(nodes) && i in nodes
      modifies `nodes
      ensures Consistent(nodes) && (freed <==> old(nodes)[i].nlink == 0 && refs == 1)
      ensures nodes == if freed then old(nodes) - {i} else old(nodes)
    {
      hide Consistent;
      if nodes[i].nlink == 0 && refs == 1 {
        FreedConsistent(nodes, i);
        nodes := nodes - {i};
        return true;
      }
      freed := false;
    }

    /** Follow a path from inode start; with parent, stop before the last element and return it. */
    method Namex(start: nat, path: CString, parent: bool) returns (r: Option<nat>, name: CString, panicked: bool)
      requires Consistent(nodes) && start in nodes
      ensures Live(nodes, start) ==> !panicked
                                     && (r.Some? ==> r.value in nodes && (nodes[r.value].dir ==> Live(nodes, r.value)))
      ensures !panicked ==> r == if parent then WalkParent(nodes, start, Elements(path, 0))
                            else Walk(nodes, start, Elements(path, 0))
      ensures !panicked && parent && r.Some? ==>
                && r.value in nodes && nodes[r.value].dir && Elements(path, 0) != []
                && name == Clip(Elements(path, 0)[|Elements(path, 0)| - 1])
    {
      hide Consistent, Elements, Contents, Pad, Used, Distinct, NamesPadded, Live, Clip;
      var ip := start;
      ghost var all := Elements(path, 0);
      var pos: Option<nat> := Some(0);
      var at := 0;
      pos, name := Skipelem(path, 0);
      ghost var rest := all;
      while pos.Some?
        invariant at <= |path| && rest == Elements(path, at) && (pos.None? <==> rest == [])
        invariant pos.Some? ==> && at < pos.value <= |path| && rest[1..] == Elements(path, pos.value)
                                && name == Clip(rest[0])
                                && (pos.value == |path| <==> rest[1..] == [])
        invariant Walk(nodes, start, all) == Walk(nodes, ip, rest)
        invariant parent ==> WalkParent(nodes, start, all) == WalkParent(nodes, ip, rest)
        invariant rest != [] ==> all != [] && rest[|rest| - 1] == all[|all| - 1]
        invariant Live(nodes, start) ==> ip in nodes && (nodes[ip].dir ==> Live(nodes, ip))
        decreases |path| - at
      {
        if ip !in nodes {
          return None, name, true;
        }
        if !nodes[ip].dir {
          return None, name, false;
        }
        if parent && pos.value == |path| {
          return Some(ip), name, false;
        }
        DirOk(nodes, ip);
        var found := Dirlookup(ip, name);
        ClipPads(rest[0]);
        FoundMeans(nodes[ip].entries, Pad(name), found);
        if found.None? {
          return None, name, false;
        }
        if Live(nodes, ip) {
          StepLive(nodes, ip, rest[0]);
        }
        ip := nodes[ip].entries[found.value].inum;
        at := pos.value;
        rest := rest[1..];
        pos, name := Skipelem(path, at);
      }
      if parent {
        return None, name, false;
      }
      return Some(ip), name, false;
    }

    /**
     * One call, with its paths followed from the root; it panics exactly for want of an inode or of room in a
     * directory.
     */
    method Perform(call: Call) returns (r: Change)
      requires Consistent(nodes)
      modifies `nodes
      ensures r != Panic ==> Consistent(nodes)
      ensures Performed(old(nodes), nodes, ninodes, call, r) && (r == Panic <==> Stuck(old(nodes), ninodes, call))
    {
      hide Consistent, Pad, Contents, FileEntered, DirEntered, Walk, WalkParent, Unlinking, Linking, Creating, Elements,
           FirstFree, Live;
      RootLive(nodes);
      match call
      case Make(path, dir) => r := PerformMake(path, dir);
      case Alias(path, new_) =>
        var ip, _, panicked := Namex(ROOTINO, path, false);
        if ip.None? {
          return Failed;
        }
        var dp, name, stuck := Namex(ROOTINO, new_, true);
        LastClipped(new_);
        r := Link(ip.value, dp, name);
        NoDirLinks(old(nodes), nodes, ip.value, dp, name, new_, r);
      case Remove(path, refs) => r := PerformRemove(path, refs);
    }

    /** open with O_CREATE, or mkdir. */
    method PerformMake(path: CString, dir: bool) returns (r: Change)
      requires Consistent(nodes) && ROOTINO in nodes && Live(nodes, ROOTINO)
      modifies `nodes
      ensures r != Panic ==> Consistent(nodes)
      ensures Performed(old(nodes), nodes, ninodes, Make(path, dir), r)
              && (r == Panic <==> Stuck(old(nodes), ninodes, Make(path, dir)))
    {
      hide Consistent, Pad, FileEntered, DirEntered, Walk, WalkParent, Elements, Live, Contents;
      var dp, name, panicked := Namex(ROOTINO, path, true);
      if dp.None? {
        return Failed;
      }
      LastClipped(path);
      var made := Create(dp.value, name, dir);
      FoundInUse(old(nodes), dp.value, LastKey(path), path);
      r := Report(made);
    }

    /** unlink, and the iput that follows. */
    method PerformRemove(path: CString, refs: nat) returns (r: Change)
      requires Consistent(nodes) && ROOTINO in nodes && Live(nodes, ROOTINO)
      modifies `nodes
      ensures r != Panic && Consistent(nodes) && Performed(old(nodes), nodes, ninodes, Remove(path, refs), r)
    {
      hide Consistent, Pad, Walk, WalkParent, Elements, Live, Contents, Unlinking;
      var dp, name, panicked := Namex(ROOTINO, path, true);
      if dp.None? {
        return Failed;
      }
      var ip, _, stuck := Namex(ROOTINO, path, false);
      LastClipped(path);
      r := Unlink(dp.value, name);
      ghost var mid := nodes;
      if r == Ok && ip.Some? && ip.value in nodes {
        var freed := Iput(ip.value, refs);
      }
      assert RemovedBy(old(nodes), mid, nodes, path, refs, r);
    }

    /**
     Any run of calls keeps the directories a tree of finite maps and every link count right. The trace
     is the states between the calls; the run ends early exactly at a call that wants an inode or room.
     */
    method Run(calls: seq<Call>) returns (panicked: bool, ghost trace: seq<Nodes>)
      requires Consistent(nodes)
      modifies `nodes
      ensures 0 < |trace| <= |calls| + 1 && trace[0] == old(nodes) && forall i | 0 <= i < |trace| ::
              Consistent(trace[i])
      ensures forall i | 0 <= i < |trace| - 1 :: Went(trace, calls, i, ninodes)
      ensures !panicked ==> |trace| == |calls| + 1 && trace[|calls|] == nodes
      ensures panicked ==> |trace| <= |calls| && Stuck(trace[|trace| - 1], ninodes, calls[|trace| - 1])
    {
      hide Consistent, Performed, Stuck, Completed;
      var i := 0;
      trace := [nodes];
      while i < |calls|
        invariant 0 <= i <= |calls| && |trace| == i + 1 && trace[0] == old(nodes) && trace[i] == nodes
        invariant forall k | 0 <= k < |trace| :: Consistent(trace[k])
        invariant forall k | 0 <= k < i :: Went(trace, calls, k, ninodes)
      {
        var r := Perform(calls[i]);
        if r == Panic {
          return true, trace;
        }
        ghost var before := trace;
        trace := trace + [nodes];
        forall k | 0 <= k < i
          ensures Went(trace, calls, k, ninodes)
        {
          assert Went(before, calls, k, ninodes) && trace[k] == before[k] && trace[k + 1] == before[k + 1];
        }
        CallDone(trace[i], trace[i + 1], ninodes, calls[i], r);
        i := i + 1;
      }
      panicked := false;
    }
  }

  function Report(made: Creation): Change {
    if made == Panicked then Panic else if made == Refused then Failed else Ok
  }

  /** What create does. */
  ghost predicate Creating(was: Nodes, nodes: Nodes, ninodes: nat, dp: nat, key: Field, dir: bool, r: Creation) {
    && dp in was
    && var es := was[dp].entries;
    if key in Contents(es) then
      var i := Contents(es)[key];
      && nodes == was
      && r == (if i !in was then Panicked else if !dir && !was[i].dir then Existing(i) else Refused)
    else
      && (r == Panicked <==> FirstFree(es) >= MAXENTRIES || NoInode(was, ninodes))
      && (r != Panicked ==>
            && r.Created? && 1 <= r.inum < ninodes && r.inum !in was && NoInode(was, r.inum)
            && nodes == (if dir then DirEntered(was, dp, FirstFree(es), key, r.inum)
                         else FileEntered(was, dp, FirstFree(es), key, r.inum, 1))
            && Distinct(nodes[dp].entries) && Contents(nodes[dp].entries) == Contents(es)[key := r.inum])
  }

  /** Every inode below n is in use. */
  ghost predicate NoInode(nodes: Nodes, n: nat) {
    forall i | 1 <= i < n :: i in nodes
  }

  /** The name bytes of a path's last element. */
  ghost function LastKey(path: CString): Field {
    var es := Elements(path, 0);
    if es == [] then Pad("") else Pad(es[|es| - 1])
  }

  /** The directory a new entry for the path would go to. */
  ghost function HomeOf(nodes: Nodes, path: CString): Option<nat> {
    WalkParent(nodes, ROOTINO, Elements(path, 0))
  }

  ghost function Target(nodes: Nodes, path: CString): Option<nat> {
    Walk(nodes, ROOTINO, Elements(path, 0))
  }

  /** What one call does, from state to state. */
  ghost predicate Performed(was: Nodes, nodes: Nodes, ninodes: nat, call: Call, r: Change) {
    match call
    case Make(path, dir) =>
      if HomeOf(was, path).None? then r == Failed && nodes == was
      else exists made :: Creating(was, nodes, ninodes, HomeOf(was, path).value, LastKey(path), dir, made)
                          && r == Report(made)
    case Alias(path, new_) =>
      if Target(was, path).None? then r == Failed && nodes == was
      else Linking(was, nodes, Target(was, path).value, HomeOf(was, new_), LastKey(new_), r)
    case Remove(path, refs) =>
      if HomeOf(was, path).None? then r == Failed && nodes == was
      else exists mid :: RemovedBy(was, mid, nodes, path, refs, r)
  }

  /** unlink leads to mid; iput then frees the inode if that was the last of it. */
  ghost predicate RemovedBy(was: Nodes, mid: Nodes, nodes: Nodes, path: CString, refs: nat, r: Change) {
    && HomeOf(was, path).Some? && Unlinking(was, mid, HomeOf(was, path).value, LastKey(path), r)
    && var t := Target(was, path);
    nodes == if r == Ok && refs == 1 && t.Some? && t.value in mid && mid[t.value].nlink == 0 then mid - {t.value}
    else mid
  }

  /** When a call panics: there is no inode for what it makes, or no room for the name. */
  ghost predicate Stuck(was: Nodes, ninodes: nat, call: Call) {
    match call
    case Make(path, _) =>
      && var dp := HomeOf(was, path);
      && dp.Some? && dp.value in was && LastKey(path) !in Contents(was[dp.value].entries)
      && (FirstFree(was[dp.value].entries) >= MAXENTRIES || NoInode(was, ninodes))
    case Alias(path, new_) =>
      && var ip, dp := Target(was, path), HomeOf(was, new_);
      && ip.Some? && ip.value in was && !was[ip.value].dir && dp.Some? && dp.value in was
      && LastKey(new_) !in Contents(was[dp.value].entries) && FirstFree(was[dp.value].entries) >= MAXENTRIES
    case Remove(_, _) => false
  }

  ghost predicate Went(trace: seq<Nodes>, calls: seq<Call>, i: nat, ninodes: nat) {
    i + 1 < |trace| && i < |calls| && Completed(trace[i], trace[i + 1], ninodes, calls[i])
  }

  ghost predicate Completed(was: Nodes, nodes: Nodes, ninodes: nat, call: Call) {
    exists r :: Performed(was, nodes, ninodes, call, r) && r != Panic
  }

  lemma CallDone(was: Nodes, nodes: Nodes, ninodes: nat, call: Call, r: Change)
    requires Performed(was, nodes, ninodes, call, r) && r != Panic
    ensures Completed(was, nodes, ninodes, call)
  {
  }

  lemma RootLive(nodes: Nodes)
    requires Consistent(nodes)
    ensures Live(nodes, ROOTINO) && ROOTINO in nodes
  {
    hide NodesOk, EntriesOk, OrphansEmpty, Counted, Rooted;
  }

  lemma LastClipped(path: CString)
    ensures var es := Elements(path, 0); es != [] ==> Pad(Clip(es[|es| - 1])) == LastKey(path)
  {
    hide Elements, Pad, Clip;
    var es := Elements(path, 0);
    if es != [] {
      ClipPads(es[|es| - 1]);
    }
  }

  /** A linked directory names only inodes in use. */
  lemma FoundInUse(nodes: Nodes, dp: nat, key: Field, path: CString)
    requires Consistent(nodes) && Live(nodes, dp) && Elements(path, 0) != [] && key == LastKey(path)
    ensures key in Contents(nodes[dp].entries) ==> Contents(nodes[dp].entries)[key] in nodes
  {
    hide Consistent, Elements, Contents, Pad;
    var es := Elements(path, 0);
    StepLive(nodes, dp, es[|es| - 1]);
  }

  lemma NoDirLinks(was: Nodes, nodes: Nodes, ip: nat, dp: Option<nat>, name: CString, path: CString, r: Change)
    requires Linking(was, nodes, ip, dp, Pad(name), r) && dp == HomeOf(was, path)
             && (dp.Some? ==> Pad(name) == LastKey(path))
    ensures Linking(was, nodes, ip, dp, LastKey(path), r) && (r == Failed ==> nodes == was) && (r == Ok ==> dp.Some?)
    ensures r == Panic <==> !was[ip].dir && dp.Some? && LastKey(path) !in Contents(was[dp.value].entries)
                            && FirstFree(was[dp.value].entries) >= MAXENTRIES
  {
    hide Pad, Contents, Elements, WalkParent, FileEntered;
  }

  /** What link does: it fails without a trace, or adds the name and counts it. */
  ghost predicate Linking(was: Nodes, nodes: Nodes, ip: nat, dp: Option<nat>, key: Field, r: Change) {
    && ip in was && (dp.Some? ==> dp.value in was)
    && (r == Failed <==> was[ip].dir || dp.None? || key in Contents(was[dp.value].entries))
    && (r == Failed ==> nodes == was)
    && (r == Panic <==> && !was[ip].dir && dp.Some? && key !in Contents(was[dp.value].entries)
                        && FirstFree(was[dp.value].entries) >= MAXENTRIES)
    && (r == Ok ==> && dp.Some? && nodes == FileEntered(was, dp.value, FirstFree(was[dp.value].entries), key, ip,
                                                        was[ip].nlink + 1)
                    && Contents(nodes[dp.value].entries) == Contents(was[dp.value].entries)[key := ip])
  }

  /**
   * What unlink does: it refuses the dots, missing names and directories in use; else the name goes and is no longer
   * counted.
   */
  ghost predicate Unlinking(was: Nodes, nodes: Nodes, dp: nat, key: Field, r: Change) {
    && dp in was
    && var m := Contents(was[dp].entries);
    && (r == Failed ==> nodes == was)
    && (r == Ok <==> && key != Dot() && key != DotDot() && key in m
                     && (m[key] in was && was[m[key]].dir ==> Empty(was[m[key]].entries)))
    && (r == Ok ==> m[key] in was && was[m[key]].nlink >= 1 && (exists k :: DroppedAt(was, nodes, dp, k, m[key], key))
                    && dp in nodes && Contents(nodes[dp].entries) == m - {key})
  }

  /** Entry k of dp, which named ip, is free, and ip and the parent of a directory have a link less. */
  ghost predicate DroppedAt(was: Nodes, nodes: Nodes, dp: nat, k: nat, ip: nat, key: Field) {
    && Names(was, dp, k, ip) && was[dp].entries[k].name == key && ip in was
    && nodes == if was[ip].dir then DirDropped(was, dp, k, ip) else FileDropped(was, dp, k, ip)
  }

  lemma FileOk(nodes: Nodes, ip: nat)
    requires Consistent(nodes) && ip in nodes && !nodes[ip].dir
    ensures nodes[ip].entries == [] && ip != 0 && nodes[ip] == Node(false, |Refs(nodes, ip)|, [])
  {
    hide EntriesOk, TreeOk, Rooted, OrphansEmpty;
    assert NodeOk(nodes[ip], ip);
  }

  lemma NameEntered(was: Nodes, dp: nat, name: Field, ip: nat)
    requires Consistent(was) && dp in was && was[dp].dir && ip in was && !was[ip].dir && Padded(name)
    requires NewName(was[dp].entries, FirstFree(was[dp].entries), name) && FirstFree(was[dp].entries) < MAXENTRIES
    ensures Consistent(FileEntered(was, dp, FirstFree(was[dp].entries), name, ip, was[ip].nlink + 1)) <==> Live(was, dp)
  {
    hide EntriesOk, TreeOk, Rooted, OrphansEmpty, Counted, Live, FileEntered, Refs;
    FileOk(was, ip);
    FileEnteredConsistent(was, dp, FirstFree(was[dp].entries), name, ip);
  }

  /** An entry with a name that is no dot is not one of the first two. */
  lemma EntryNamed(nodes: Nodes, dp: nat, k: nat, name: Field)
    requires Consistent(nodes) && dp in nodes && nodes[dp].dir && Used(nodes[dp].entries, k)
             && nodes[dp].entries[k].name == name
    requires name != Dot() && name != DotDot()
    ensures k >= 2 && Names(nodes, dp, k, nodes[dp].entries[k].inum)
    ensures var ip := nodes[dp].entries[k].inum; ip in nodes && nodes[ip].nlink >= 1 && ip != dp
  {
    hide EntriesOk, TreeOk, Rooted, OrphansEmpty, Counted, Pad;
    assert NodeOk(nodes[dp], dp);
    NamingIsLinked(nodes, dp, k, nodes[dp].entries[k].inum);
  }

  lemma NoEntries(d: Dirent, e: Dirent)
    ensures Distinct([]) && NamesPadded([]) && Contents([]) == map[] && FirstFree([]) == 0
    ensures WithEntry([], 0, d) == [d] && WithEntry([d], 1, e) == [d, e]
  {
  }

  lemma PadPads(name: CString)
    ensures Padded(Pad(name))
  {
  }

  ghost predicate NewName(es: seq<Dirent>, k: nat, name: Field) {
    !Used(es, k) && forall j | Used(es, j) :: es[j].name != name
  }

  lemma RootConsistent(nodes: Nodes)
    requires nodes == map[ROOTINO := Node(true, 1, DotEntries(ROOTINO, ROOTINO))]
    ensures Consistent(nodes)
  {
    hide Pad;
    DotsDiffer();
    assert NodesOk(nodes);
    assert forall p: nat, k: nat :: Cites(nodes, p, k, ROOTINO) <==> p == ROOTINO && k == 1;
    forall q: nat, j: nat
      ensures (q, j) in Refs(nodes, ROOTINO) <==> (q, j) in {(ROOTINO, 1)}
    {
      RefsAre(nodes, ROOTINO, q, j);
    }
    assert Refs(nodes, ROOTINO) == {(ROOTINO, 1)};
    assert Ranked(nodes, map[ROOTINO := 0]);
  }

  lemma DirOk(nodes: Nodes, dp: nat)
    requires Consistent(nodes) && dp in nodes && nodes[dp].dir
    ensures NodeOk(nodes[dp], dp) && NamesPadded(nodes[dp].entries) && Distinct(nodes[dp].entries) && dp != 0
  {
  }

  lemma FoundMeans(es: seq<Dirent>, name: Field, found: Option<nat>)
    requires Distinct(es)
    requires found.None? <==> forall k | Used(es, k) :: es[k].name != name
    requires found.Some? ==> Used(es, found.value) && es[found.value].name == name
    ensures found.Some? <==> name in Contents(es)
    ensures found.Some? ==> found.value < |es| && Contents(es)[name] == es[found.value].inum
  {
    ContentsAt(es, name);
  }

  lemma EnteredName(es: seq<Dirent>, name: Field)
    requires Distinct(es) && name !in Contents(es)
    ensures NewName(es, FirstFree(es), name)
  {
  }

  lemma NewFileOrDir(was: Nodes, nodes: Nodes, dp: nat, name: Field, c: nat, dir: bool)
    requires Consistent(was) && dp in was && was[dp].dir && c !in was && c != 0 && Padded(name)
    requires NewName(was[dp].entries, FirstFree(was[dp].entries), name) && FirstFree(was[dp].entries) < MAXENTRIES
    requires var k := FirstFree(was[dp].entries);
             nodes == if dir then DirEntered(was, dp, k, name, c) else FileEntered(was, dp, k, name, c, 1)
    ensures Consistent(nodes) <==> Live(was, dp)
  {
    hide EntriesOk, TreeOk, Rooted, OrphansEmpty, Counted, Live, DirEntered, FileEntered;
    var k := FirstFree(was[dp].entries);
    FreshUncited(was, c);
    if dir {
      DirEnteredConsistent(was, dp, k, name, c);
    } else {
      FileEnteredConsistent(was, dp, k, name, c);
    }
  }

  /**
   * A new file system, mkdir d, unlink d by someone else, create a in the orphan: the file's count is 1 and nothing
   * linked names it.
   */
  method UnlinkedParentRun() returns (t: Tree)
    ensures fresh(t) && 3 in t.nodes && t.nodes[3].nlink == 1 && Refs(t.nodes, 3) == {} && !Consistent(t.nodes)
  {
    hide Consistent, Pad, Live, Refs, Counted, Contents;
    t := new Tree(10);
    ghost var n0 := t.nodes;
    DotsOnly(ROOTINO, ROOTINO);
    ShortName('d');
    var made := t.Create(ROOTINO, "d", true);
    ghost var n1 := t.nodes;
    FirstMade(n0, n1, Pad("d"), made);
    var gone := t.Unlink(ROOTINO, "d");
    ghost var n2 := t.nodes;
    FirstGone(n1, n2, Pad("d"), gone);
    DotsOnly(2, ROOTINO);
    ShortName('a');
    made := t.Create(2, "a", false);
    SecondMade(n2, t.nodes, Pad("a"), made);
    assert !Live(n2, 2) by { Unlinked(n2, 2); }
    PadPads("a");
    Miscounted(n2, t.nodes, Pad("a"));
  }

  lemma Unlinked(nodes: Nodes, p: nat)
    requires p in nodes && nodes[p].nlink == 0
    ensures !Live(nodes, p)
  {
  }

  lemma DotsOnly(c: nat, dp: nat)
    requires c != 0 && dp != 0
    ensures var es := DotEntries(c, dp);
            Contents(es) == map[Dot() := c, DotDot() := dp] && FirstFree(es) == 2 && Empty(es)
  {
    hide Pad;
    var es := DotEntries(c, dp);
    assert es[..1] == [Dirent(c, Dot())] && es[..1][..0] == [];
    assert Contents(es[..1]) == map[Dot() := c];
    FirstFreeIs(es, 2);
  }

  lemma FirstMade(n0: Nodes, n1: Nodes, key: Field, made: Creation)
    requires n0 == map[ROOTINO := Node(true, 1, DotEntries(ROOTINO, ROOTINO))] && key != Dot() && key != DotDot()
    requires Contents(n0[ROOTINO].entries) == map[Dot() := ROOTINO, DotDot() := ROOTINO]
             && FirstFree(n0[ROOTINO].entries) == 2
    requires Creating(n0, n1, 10, ROOTINO, key, true, made)
    ensures made == Created(2) && n1 == DirEntered(n0, ROOTINO, 2, key, 2) && Live(n0, ROOTINO)
    ensures ROOTINO in n1 && n1[ROOTINO].dir
            && Contents(n1[ROOTINO].entries) == map[Dot() := ROOTINO, DotDot() := ROOTINO, key := 2]
    ensures 2 in n1 && n1[2] == Node(true, 1, DotEntries(2, ROOTINO)) && n1.Keys == {ROOTINO, 2}
  {
    hide Contents, Pad;
    assert 2 !in n0;
    assert !NoInode(n0, 10);
  }

  lemma FirstGone(n1: Nodes, n2: Nodes, key: Field, gone: Change)
    requires ROOTINO in n1 && Contents(n1[ROOTINO].entries) == map[Dot() := ROOTINO, DotDot() := ROOTINO, key := 2]
    requires 2 in n1 && n1[2] == Node(true, 1, DotEntries(2, ROOTINO)) && n1.Keys == {ROOTINO, 2} && key != Dot()
             && key != DotDot()
    requires Unlinking(n1, n2, ROOTINO, key, gone)
    ensures 2 in n2 && n2[2] == Node(true, 0, DotEntries(2, ROOTINO)) && n2.Keys == {ROOTINO, 2}
  {
    hide Contents, Pad;
  }

  lemma SecondMade(n2: Nodes, n3: Nodes, key: Field, made: Creation)
    requires 2 in n2 && n2[2] == Node(true, 0, DotEntries(2, ROOTINO)) && n2.Keys == {ROOTINO, 2} && key != Dot()
             && key != DotDot()
    requires Contents(n2[2].entries) == map[Dot() := 2, DotDot() := ROOTINO] && FirstFree(n2[2].entries) == 2
    requires Creating(n2, n3, 10, 2, key, false, made)
    ensures made == Created(3) && n3 == FileEntered(n2, 2, 2, key, 3, 1) && 3 in n3 && n3[3].nlink == 1
  {
    hide Contents, Pad;
    assert 3 !in n2;
    assert !NoInode(n2, 10);
  }

  lemma Miscounted(n2: Nodes, n3: Nodes, key: Field)
    requires Consistent(n2) && n2.Keys == {ROOTINO, 2} && n2[2] == Node(true, 0, DotEntries(2, ROOTINO))
    requires key != Dot() && key != DotDot() && Padded(key) && n3 == FileEntered(n2, 2, 2, key, 3, 1) && !Live(n2, 2)
    ensures Refs(n3, 3) == {}
  {
    hide EntriesOk, TreeOk, Rooted, OrphansEmpty, Counted, Refs, Pad;
    FreshNone(n2, 3);
    FileEnteredCites(n2, 2, 2, key, 3, 1);
    RefsGrow(n2, n3, 3, 2, 2, false);
  }

  lemma ShortName(c: char)
    requires c != NUL && c != '.'
    ensures Pad([c]) != Dot() && Pad([c]) != DotDot()
  {
    assert Pad([c])[0] == c && Dot()[0] == '.' && DotDot()[0] == '.';
  }

  lemma FreshNone(nodes: Nodes, c: nat)
    requires Consistent(nodes) && c !in nodes && c != 0
    ensures |Refs(nodes, c)| == 0
  {
    hide TreeOk, Rooted, EntriesOk, OrphansEmpty, Counted, NodesOk;
    FreshUncited(nodes, c);
  }
}
