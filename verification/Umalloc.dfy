/**
 The K&R storage allocator of umalloc.c. Memory is a sequence of header-sized units;
 a pointer is an index into it and 0 is the null pointer. The free blocks form one
 circular list in address order that starts at the static header `base`.
 */
module Umalloc {
  const HEADER_BYTES: nat := 8
  const MIN_GROW: nat := 4096

  datatype Header = Header(ptr: nat, size: nat)

  /** A run of n units starting at a. */
  datatype Chunk = Chunk(a: nat, n: nat)

  // ---------------------------------------------------------------- the free list as a sequence

  /** Address order above lo and below hi, with no two chunks touching. */
  ghost predicate Sorted(lo: nat, chunks: seq<Chunk>, hi: nat) {
    && (forall i | 0 <= i < |chunks| :: lo < chunks[i].a && 0 < chunks[i].n && chunks[i].a + chunks[i].n <= hi)
    && (forall i, j | 0 <= i < j < |chunks| :: chunks[i].a + chunks[i].n < chunks[j].a)
  }

  ghost predicate InFree(chunks: seq<Chunk>, u: nat) {
    exists i | 0 <= i < |chunks| :: chunks[i].a <= u < chunks[i].a + chunks[i].n
  }

  ghost predicate InLive(live: map<nat, nat>, u: nat) {
    exists a | a in live :: a <= u < a + live[a]
  }

  /** How many chunks lie below address a. */
  ghost function Below(chunks: seq<Chunk>, a: nat): (j: nat)
    ensures j <= |chunks|
    ensures forall i | 0 <= i < j :: chunks[i].a < a
    ensures j < |chunks| ==> chunks[j].a >= a
  {
    if chunks == [] || chunks[0].a >= a then 0 else 1 + Below(chunks[1..], a)
  }

  ghost predicate TouchesUp(chunks: seq<Chunk>, j: nat, a: nat, n: nat) {
    j < |chunks| && a + n == chunks[j].a
  }

  ghost predicate TouchesDown(chunks: seq<Chunk>, j: nat, a: nat) {
    0 < j <= |chunks| && chunks[j - 1].a + chunks[j - 1].n == a
  }

  /** Chunks k up to m-1 replaced by c. */
  ghost function Replaced(chunks: seq<Chunk>, k: nat, m: nat, c: Chunk): (r: seq<Chunk>)
    requires k <= m <= |chunks|
    ensures |r| == |chunks| - (m - k) + 1
    ensures forall i | 0 <= i < |r| :: r[i] == if i < k then chunks[i] else if i == k then c else chunks[i - k - 1 + m]
  {
    chunks[..k] + [c] + chunks[m..]
  }

  /** The run [a, a+n) together with the neighbours it touches at position j. */
  ghost function Merged(chunks: seq<Chunk>, j: nat, a: nat, n: nat): Chunk
    requires j <= |chunks|
  {
    var c := if TouchesUp(chunks, j, a, n) then Chunk(a, n + chunks[j].n) else Chunk(a, n);
    if TouchesDown(chunks, j, a) then Chunk(chunks[j - 1].a, chunks[j - 1].n + c.n) else c
  }

  /** The run [a, a+n) put back at position j, merged with the neighbours it touches. */
  ghost function Insert(chunks: seq<Chunk>, j: nat, a: nat, n: nat): seq<Chunk>
    requires j <= |chunks|
  {
    Replaced(chunks, if TouchesDown(chunks, j, a) then j - 1 else j,
             if TouchesUp(chunks, j, a, n) then j + 1 else j, Merged(chunks, j, a, n))
  }

  /** The run [a, a+n) fits between chunk j-1 and chunk j. */
  ghost predicate Gap(lo: nat, chunks: seq<Chunk>, hi: nat, j: nat, a: nat, n: nat) {
    && j <= |chunks| && lo < a && 0 < n && a + n <= hi
    && (j > 0 ==> chunks[j - 1].a + chunks[j - 1].n <= a)
    && (j < |chunks| ==> a + n <= chunks[j].a)
  }

  /** r is chunks with the part from k up to m-1 replaced by c. */
  ghost predicate IsReplaced(chunks: seq<Chunk>, k: nat, m: nat, c: Chunk, r: seq<Chunk>) {
    && k <= m <= |chunks| && |r| == |chunks| - (m - k) + 1 && r[k] == c
    && (forall i | 0 <= i < k :: r[i] == chunks[i])
    && (forall i | k < i < |r| :: r[i] == chunks[i - k - 1 + m])
  }

  lemma ReplacedSorted(lo: nat, chunks: seq<Chunk>, hi: nat, k: nat, m: nat, c: Chunk, r: seq<Chunk>)
    requires Sorted(lo, chunks, hi) && IsReplaced(chunks, k, m, c, r)
    requires lo < c.a && 0 < c.n && c.a + c.n <= hi
    requires k > 0 ==> chunks[k - 1].a + chunks[k - 1].n < c.a
    requires m < |chunks| ==> c.a + c.n < chunks[m].a
    ensures Sorted(lo, r, hi)
  {
    forall i | 0 <= i < |r|
      ensures lo < r[i].a && 0 < r[i].n && r[i].a + r[i].n <= hi
    {
      assert i < k ==> r[i] == chunks[i];
      assert i > k ==> r[i] == chunks[i - k - 1 + m];
    }
    forall i, j | 0 <= i < j < |r|
      ensures r[i].a + r[i].n < r[j].a
    {
      PairOrder(lo, chunks, hi, k, m, c, r, i, j);
    }
  }

  lemma PairOrder(lo: nat, chunks: seq<Chunk>, hi: nat, k: nat, m: nat, c: Chunk, r: seq<Chunk>, i: nat, j: nat)
    requires Sorted(lo, chunks, hi) && IsReplaced(chunks, k, m, c, r) && i < j < |r|
    requires k > 0 ==> chunks[k - 1].a + chunks[k - 1].n < c.a
    requires m < |chunks| ==> c.a + c.n < chunks[m].a && 0 < c.n
    ensures r[i].a + r[i].n < r[j].a
  {
  }

  /** A unit is in the new list if it is in c or in one of the chunks that stayed. */
  lemma ReplacedUnits(chunks: seq<Chunk>, k: nat, m: nat, c: Chunk, r: seq<Chunk>, u: nat)
    requires IsReplaced(chunks, k, m, c, r)
    ensures InFree(r, u) <==>
            || c.a <= u < c.a + c.n
            || (exists i | 0 <= i < |chunks| && !(k <= i < m) :: chunks[i].a <= u < chunks[i].a + chunks[i].n)
  {
    if InFree(r, u) {
      var i :| 0 <= i < |r| && r[i].a <= u < r[i].a + r[i].n;
      if i != k {
        var i' := if i < k then i else i - k - 1 + m;
        assert r[i] == chunks[i'];
      }
    }
    if c.a <= u < c.a + c.n {
      assert r[k].a <= u < r[k].a + r[k].n;
    }
    if i :| 0 <= i < |chunks| && !(k <= i < m) && chunks[i].a <= u < chunks[i].a + chunks[i].n {
      var i' := if i < k then i else i - m + k + 1;
      assert r[i'] == chunks[i];
    }
  }

  lemma ReplacedUnique(chunks: seq<Chunk>, k: nat, m: nat, c: Chunk, r: seq<Chunk>, r': seq<Chunk>)
    requires IsReplaced(chunks, k, m, c, r) && IsReplaced(chunks, k, m, c, r')
    ensures r == r'
  {
  }

  lemma InsertIsReplaced(chunks: seq<Chunk>, j: nat, a: nat, n: nat)
    requires j <= |chunks|
    ensures IsReplaced(chunks, if TouchesDown(chunks, j, a) then j - 1 else j,
                       if TouchesUp(chunks, j, a, n) then j + 1 else j, Merged(chunks, j, a, n),
                         Insert(chunks, j, a, n))
  {
    hide IsReplaced, Replaced, Merged;
    ReplacedIs(chunks, if TouchesDown(chunks, j, a) then j - 1 else j, if TouchesUp(chunks, j, a, n) then j + 1 else j,
               Merged(chunks, j, a, n));
  }

  lemma ReplacedIs(chunks: seq<Chunk>, k: nat, m: nat, c: Chunk)
    requires k <= m <= |chunks|
    ensures IsReplaced(chunks, k, m, c, Replaced(chunks, k, m, c))
  {
  }

  lemma InsertSorted(lo: nat, chunks: seq<Chunk>, hi: nat, j: nat, a: nat, n: nat)
    requires Sorted(lo, chunks, hi) && Gap(lo, chunks, hi, j, a, n)
    ensures Sorted(lo, Insert(chunks, j, a, n), hi)
  {
    hide Insert, IsReplaced;
    InsertIsReplaced(chunks, j, a, n);
    var k := if TouchesDown(chunks, j, a) then j - 1 else j;
    var m := if TouchesUp(chunks, j, a, n) then j + 1 else j;
    ReplacedSorted(lo, chunks, hi, k, m, Merged(chunks, j, a, n), Insert(chunks, j, a, n));
  }

  /** Freeing a run adds exactly its units to the free ones. */
  lemma InsertUnits(lo: nat, chunks: seq<Chunk>, hi: nat, j: nat, a: nat, n: nat, u: nat)
    requires Sorted(lo, chunks, hi) && Gap(lo, chunks, hi, j, a, n)
    ensures InFree(Insert(chunks, j, a, n), u) <==> InFree(chunks, u) || a <= u < a + n
  {
    hide Insert, IsReplaced, Sorted;
    InsertIsReplaced(chunks, j, a, n);
    var k := if TouchesDown(chunks, j, a) then j - 1 else j;
    var m := if TouchesUp(chunks, j, a, n) then j + 1 else j;
    var c := Merged(chunks, j, a, n);
    ReplacedUnits(chunks, k, m, c, Insert(chunks, j, a, n), u);
    if c.a <= u < c.a + c.n && !(a <= u < a + n) {
      var i := if u < a then j - 1 else j;
      assert chunks[i].a <= u < chunks[i].a + chunks[i].n;
    }
  }

  /** The list after n units have been taken from the end of chunk k. */
  ghost function Carve(chunks: seq<Chunk>, k: nat, n: nat): seq<Chunk>
    requires k < |chunks| && n <= chunks[k].n
  {
    if chunks[k].n == n then chunks[..k] + chunks[k + 1..]
    else chunks[k := Chunk(chunks[k].a, chunks[k].n - n)]
  }

  ghost function CarvedAt(chunks: seq<Chunk>, k: nat, n: nat): nat
    requires k < |chunks| && n <= chunks[k].n
  {
    chunks[k].a + chunks[k].n - n
  }

  lemma CarveShrinks(chunks: seq<Chunk>, k: nat, n: nat)
    requires k < |chunks| && 0 < n < chunks[k].n
    ensures IsReplaced(chunks, k, k + 1, Chunk(chunks[k].a, chunks[k].n - n), Carve(chunks, k, n))
  {
  }

  lemma CarveRemoves(chunks: seq<Chunk>, k: nat, u: nat)
    requires k < |chunks| && 0 < chunks[k].n
    ensures InFree(Carve(chunks, k, chunks[k].n), u) <==>
            exists i | 0 <= i < |chunks| && i != k :: chunks[i].a <= u < chunks[i].a + chunks[i].n
  {
    var r := chunks[..k] + chunks[k + 1..];
    if InFree(r, u) {
      var i :| 0 <= i < |r| && r[i].a <= u < r[i].a + r[i].n;
      var i' := if i < k then i else i + 1;
      assert r[i] == chunks[i'];
    }
    if i :| 0 <= i < |chunks| && i != k && chunks[i].a <= u < chunks[i].a + chunks[i].n {
      var i' := if i < k then i else i - 1;
      assert r[i'] == chunks[i];
    }
  }

  lemma OneChunk(lo: nat, chunks: seq<Chunk>, hi: nat, u: nat, i: nat, k: nat)
    requires Sorted(lo, chunks, hi) && i < |chunks| && k < |chunks|
    requires chunks[i].a <= u < chunks[i].a + chunks[i].n && chunks[k].a <= u < chunks[k].a + chunks[k].n
    ensures i == k
  {
  }

  /** Taking n units removes exactly those units from the free ones. */
  lemma CarveUnits(lo: nat, chunks: seq<Chunk>, hi: nat, k: nat, n: nat, u: nat)
    requires Sorted(lo, chunks, hi) && k < |chunks| && 0 < n <= chunks[k].n
    ensures var a := CarvedAt(chunks, k, n);
            InFree(Carve(chunks, k, n), u) <==> InFree(chunks, u) && !(a <= u < a + n)
  {
    hide Carve, IsReplaced, Sorted;
    if chunks[k].n == n {
      CarveRemoves(chunks, k, u);
    } else {
      CarveShrinks(chunks, k, n);
      ReplacedUnits(chunks, k, k + 1, Chunk(chunks[k].a, chunks[k].n - n), Carve(chunks, k, n), u);
    }
    forall i | 0 <= i < |chunks| && chunks[i].a <= u < chunks[i].a + chunks[i].n && chunks[k].a <= u < chunks[k].a
      + chunks[k].n
      ensures i == k
    {
      OneChunk(lo, chunks, hi, u, i, k);
    }
  }

  lemma CarveSorted(lo: nat, chunks: seq<Chunk>, hi: nat, k: nat, n: nat)
    requires Sorted(lo, chunks, hi) && k < |chunks| && 0 < n <= chunks[k].n
    ensures Sorted(lo, Carve(chunks, k, n), hi)
  {
  }

  lemma BelowIs(lo: nat, chunks: seq<Chunk>, hi: nat, a: nat, j: nat)
    requires Sorted(lo, chunks, hi) && j <= |chunks|
    requires j > 0 ==> chunks[j - 1].a < a
    requires j < |chunks| ==> a <= chunks[j].a
    ensures Below(chunks, a) == j
  {
  }

  lemma WholeShape(chunks: seq<Chunk>, k: nat)
    requires k < |chunks| && 0 < chunks[k].n
    ensures IsReplaced(Carve(chunks, k, chunks[k].n), k, k, chunks[k], chunks)
  {
  }

  lemma WholeTouches(lo: nat, chunks: seq<Chunk>, hi: nat, k: nat, left: seq<Chunk>)
    requires Sorted(lo, chunks, hi) && k < |chunks| && |left| == |chunks| - 1
    requires k < |left| ==> left[k] == chunks[k + 1]
    requires k > 0 ==> left[k - 1] == chunks[k - 1]
    ensures !TouchesUp(left, k, chunks[k].a, chunks[k].n) && !TouchesDown(left, k, chunks[k].a)
    ensures k > 0 ==> left[k - 1].a < chunks[k].a
    ensures k < |left| ==> chunks[k].a <= left[k].a
  {
  }

  lemma PartShape(chunks: seq<Chunk>, k: nat, n: nat)
    requires k < |chunks| && 0 < n < chunks[k].n
    ensures IsReplaced(Carve(chunks, k, n), k, k + 1, chunks[k], chunks)
  {
  }

  lemma PartTouches(lo: nat, chunks: seq<Chunk>, hi: nat, k: nat, n: nat, left: seq<Chunk>)
    requires Sorted(lo, chunks, hi) && k < |chunks| && 0 < n < chunks[k].n && |left| == |chunks|
    requires left[k] == Chunk(chunks[k].a, chunks[k].n - n) && (k + 1 < |chunks| ==> left[k + 1] == chunks[k + 1])
    ensures var a := CarvedAt(chunks, k, n);
            && !TouchesUp(left, k + 1, a, n) && TouchesDown(left, k + 1, a) && left[k].a < a
            && (k + 1 < |left| ==> a <= left[k + 1].a)
  {
  }

  /** Freeing a block that malloc has just taken restores the free list exactly. */
  lemma FreeUndoesMalloc(lo: nat, chunks: seq<Chunk>, hi: nat, k: nat, n: nat)
    requires Sorted(lo, chunks, hi) && k < |chunks| && 0 < n <= chunks[k].n
    ensures var left, a := Carve(chunks, k, n), CarvedAt(chunks, k, n);
            Insert(left, Below(left, a), a, n) == chunks
  {
    if chunks[k].n == n {
      FreeUndoesWhole(lo, chunks, hi, k);
    } else {
      FreeUndoesPart(lo, chunks, hi, k, n);
    }
  }

  /** Free undoes the removal of a whole chunk. */
  lemma FreeUndoesWhole(lo: nat, chunks: seq<Chunk>, hi: nat, k: nat)
    requires Sorted(lo, chunks, hi) && k < |chunks| && 0 < chunks[k].n
    ensures var n := chunks[k].n;
            var left, a := Carve(chunks, k, n), CarvedAt(chunks, k, n);
            Insert(left, Below(left, a), a, n) == chunks
  {
    hide Sorted, Insert, IsReplaced;
    var n := chunks[k].n;
    var left, a := Carve(chunks, k, n), CarvedAt(chunks, k, n);
    CarveSorted(lo, chunks, hi, k, n);
    WholeShape(chunks, k);
    WholeTouches(lo, chunks, hi, k, left);
    BelowIs(lo, left, hi, a, k);
    InsertIsReplaced(left, k, a, n);
    ReplacedUnique(left, k, k, chunks[k], Insert(left, k, a, n), chunks);
  }

  /** Free undoes the carving of a chunk's tail. */
  lemma FreeUndoesPart(lo: nat, chunks: seq<Chunk>, hi: nat, k: nat, n: nat)
    requires Sorted(lo, chunks, hi) && k < |chunks| && 0 < n < chunks[k].n
    ensures var left, a := Carve(chunks, k, n), CarvedAt(chunks, k, n);
            Insert(left, Below(left, a), a, n) == chunks
  {
    hide Sorted, Insert, IsReplaced;
    var left, a := Carve(chunks, k, n), CarvedAt(chunks, k, n);
    CarveSorted(lo, chunks, hi, k, n);
    PartShape(chunks, k, n);
    PartTouches(lo, chunks, hi, k, n, left);
    BelowIs(lo, left, hi, a, k + 1);
    InsertIsReplaced(left, k + 1, a, n);
    ReplacedUnique(left, k, k + 1, chunks[k], Insert(left, k + 1, a, n), chunks);
  }

  // ---------------------------------------------------------------- the free list in memory

  /** Node 0 is base, node i is the i-th chunk; the last node points back to base. */
  ghost function Node(base: nat, chunks: seq<Chunk>, i: nat): nat
    requires i <= |chunks|
  {
    if i == 0 then base else chunks[i - 1].a
  }

  ghost function NodeSize(chunks: seq<Chunk>, i: nat): nat
    requires i <= |chunks|
  {
    if i == 0 then 0 else chunks[i - 1].n
  }

  ghost function Next(chunks: seq<Chunk>, i: nat): (r: nat)
    requires i <= |chunks|
    ensures r <= |chunks|
  {
    if i == |chunks| then 0 else i + 1
  }

  ghost predicate NodeOk(mem: seq<Header>, base: nat, chunks: seq<Chunk>, i: nat)
    requires i <= |chunks|
  {
    && Node(base, chunks, i) < |mem|
    && mem[Node(base, chunks, i)] == Header(Node(base, chunks, Next(chunks, i)), NodeSize(chunks, i))
  }

  ghost predicate Ring(mem: seq<Header>, base: nat, chunks: seq<Chunk>) {
    forall i | 0 <= i <= |chunks| :: NodeOk(mem, base, chunks, i)
  }

  /** Free and live blocks are disjoint, and together they are exactly the memory obtained from sbrk. */
  ghost predicate Books(base: nat, chunks: seq<Chunk>, live: map<nat, nat>, owned: set<nat>, hi: nat) {
    && Sorted(base, chunks, hi)
    && (forall a | a in live :: base < a && 0 < live[a] && a + live[a] <= hi)
    && (forall a, b | a in live && b in live && a < b :: a + live[a] <= b)
    && (forall u | InFree(chunks, u) :: !InLive(live, u))
    && (forall u | u in owned :: InFree(chunks, u) || InLive(live, u))
    && (forall u | InFree(chunks, u) :: u in owned)
    && (forall u | InLive(live, u) :: u in owned)
  }

  lemma ReplacedNode(base: nat, chunks: seq<Chunk>, k: nat, m: nat, c: Chunk, r: seq<Chunk>, i: nat)
    requires IsReplaced(chunks, k, m, c, r) && i <= |r|
    ensures i <= k ==> i <= |chunks| && Node(base, r, i) == Node(base, chunks, i)
                       && NodeSize(r, i) == NodeSize(chunks, i)
    ensures i == k + 1 ==> Node(base, r, i) == c.a && NodeSize(r, i) == c.n
    ensures i > k + 1 ==> var j := i - k - 1 + m;
                          m < j <= |chunks| && Node(base, r, i) == Node(base, chunks, j)
                          && NodeSize(r, i) == NodeSize(chunks, j)
                          && (i == |r| <==> j == |chunks|)
    ensures i == |r| && i == k + 1 ==> m == |chunks|
  {
  }

  /** The list stays a ring when nodes k+1..m give way to one node c, linked in after node k. */
  lemma RingReplaced(mem: seq<Header>, mem': seq<Header>, base: nat, chunks: seq<Chunk>, k: nat, m: nat, c: Chunk,
                     r: seq<Chunk>)
    requires Ring(mem, base, chunks) && IsReplaced(chunks, k, m, c, r) && |mem'| == |mem| && c.a < |mem|
    requires NodeOk(mem, base, chunks, k) && mem'[Node(base, chunks, k)] == Header(c.a, NodeSize(chunks, k))
    requires mem'[c.a] == Header(Node(base, chunks, Next(chunks, m)), c.n)
    requires forall i | (0 <= i < k || m < i <= |chunks|) && NodeOk(mem, base, chunks, i) ::
               mem'[Node(base, chunks, i)] == mem[Node(base, chunks, i)]
    ensures Ring(mem', base, r)
  {
    assert k < |r| && k <= m <= |chunks|;
    hide Node, NodeSize, IsReplaced;
    forall i | 0 <= i <= |r|
      ensures NodeOk(mem', base, r, i)
    {
      ReplacedNode(base, chunks, k, m, c, r, i);
      ReplacedNode(base, chunks, k, m, c, r, Next(r, i));
      if i <= k {
        assert NodeOk(mem, base, chunks, i);
      } else if i > k + 1 {
        assert NodeOk(mem, base, chunks, i - k - 1 + m);
        assert Next(r, i) == 0 || Next(r, i) == i + 1;
      }
    }
  }

  lemma RingRemoved(mem: seq<Header>, mem': seq<Header>, base: nat, chunks: seq<Chunk>, k: nat)
    requires Ring(mem, base, chunks) && k < |chunks| && |mem'| == |mem|
    requires NodeOk(mem, base, chunks, k)
             && mem'[Node(base, chunks, k)] == Header(Node(base, chunks, Next(chunks, k + 1)), NodeSize(chunks, k))
    requires forall i | (0 <= i < k || k + 1 < i <= |chunks|) && NodeOk(mem, base, chunks, i) ::
               mem'[Node(base, chunks, i)] == mem[Node(base, chunks, i)]
    ensures Ring(mem', base, chunks[..k] + chunks[k + 1..])
  {
    var r := chunks[..k] + chunks[k + 1..];
    forall i | 0 <= i <= |r|
      ensures NodeOk(mem', base, r, i)
    {
      var i' := if i <= k then i else i + 1;
      assert NodeOk(mem, base, chunks, i');
      assert Node(base, r, i) == Node(base, chunks, i') && NodeSize(r, i) == NodeSize(chunks, i');
      if i < |r| && i != k {
        assert Node(base, r, i + 1) == Node(base, chunks, i' + 1);
      }
    }
  }

  // ---------------------------------------------------------------- free

  /** A live block lies in the gap between two neighbouring free ones. */
  lemma LiveGap(base: nat, chunks: seq<Chunk>, live: map<nat, nat>, owned: set<nat>, hi: nat, bp: nat)
    requires Books(base, chunks, live, owned, hi) && bp in live
    ensures Gap(base, chunks, hi, Below(chunks, bp), bp, live[bp])
  {
    var j := Below(chunks, bp);
    assert InLive(live, bp);
    assert j > 0 && bp < chunks[j - 1].a + chunks[j - 1].n ==> InFree(chunks, bp);
    assert j < |chunks| ==> InFree(chunks, chunks[j].a);
    assert j < |chunks| && chunks[j].a < bp + live[bp] ==> InLive(live, chunks[j].a);
  }

  /** The search of free stops exactly at the node below bp. */
  lemma SearchStops(base: nat, chunks: seq<Chunk>, hi: nat, j: nat, bp: nat, n: nat, i: nat)
    requires Sorted(base, chunks, hi) && Gap(base, chunks, hi, j, bp, n) && i <= |chunks|
    ensures var p, q := Node(base, chunks, i), Node(base, chunks, Next(chunks, i));
            && (i == j < |chunks| ==> p < bp < q)
            && (i == j == |chunks| ==> q <= p < bp)
            && (i != j ==> !(p < bp < q) && !(q <= p && (p < bp || bp < q)))
  {
  }

  ghost predicate IsNode(base: nat, chunks: seq<Chunk>, p: nat) {
    exists i | 0 <= i <= |chunks| :: p == Node(base, chunks, i)
  }

  ghost predicate LiveHeaders(mem: seq<Header>, live: map<nat, nat>) {
    forall a | a in live :: a < |mem| && mem[a].size == live[a]
  }

  /** Different nodes are different addresses, and none is a live block's. */
  lemma NodesDiffer(base: nat, chunks: seq<Chunk>, hi: nat, i: nat, j: nat)
    requires Sorted(base, chunks, hi) && i <= |chunks| && j <= |chunks| && i != j
    ensures Node(base, chunks, i) != Node(base, chunks, j)
  {
  }

  lemma LiveNotNode(base: nat, chunks: seq<Chunk>, live: map<nat, nat>, owned: set<nat>, hi: nat, a: nat, i: nat)
    requires Books(base, chunks, live, owned, hi) && a in live && i <= |chunks|
    ensures Node(base, chunks, i) != a
  {
    assert InLive(live, a);
    assert i > 0 ==> InFree(chunks, chunks[i - 1].a);
  }

  /** What free finds in memory around the node below bp. */
  lemma NodeFacts(mem: seq<Header>, base: nat, chunks: seq<Chunk>, live: map<nat, nat>, owned: set<nat>, j: nat,
                  bp: nat)
    requires Ring(mem, base, chunks) && Books(base, chunks, live, owned, |mem|) && bp in live
    requires Gap(base, chunks, |mem|, j, bp, live[bp])
    ensures var p := Node(base, chunks, j);
            && base <= p < |mem| && p != bp
            && mem[p] == Header(Node(base, chunks, Next(chunks, j)), NodeSize(chunks, j))
            && (bp + live[bp] == mem[p].ptr <==> TouchesUp(chunks, j, bp, live[bp]))
            && (p + mem[p].size == bp <==> TouchesDown(chunks, j, bp))
            && mem[p].ptr < |mem| && mem[p].ptr != bp
            && (TouchesUp(chunks, j, bp, live[bp]) ==>
                  mem[mem[p].ptr] == Header(Node(base, chunks, Next(chunks, j + 1)), chunks[j].n))
  {
    assert NodeOk(mem, base, chunks, j);
    assert NodeOk(mem, base, chunks, Next(chunks, j));
    LiveNotNode(base, chunks, live, owned, |mem|, bp, j);
    LiveNotNode(base, chunks, live, owned, |mem|, bp, Next(chunks, j));
  }

  /** The two header updates of free, with bp inserted after node p. */
  ghost function Relinked(mem: seq<Header>, p: nat, bp: nat, up: bool, down: bool): seq<Header>
    requires p < |mem| && bp < |mem| && mem[p].ptr < |mem|
  {
    var q := mem[p].ptr;
    var b := if up then Header(mem[q].ptr, mem[bp].size + mem[q].size) else Header(q, mem[bp].size);
    var mem1 := mem[bp := b];
    if down then mem1[p := Header(b.ptr, mem1[p].size + b.size)] else mem1[p := Header(bp, mem1[p].size)]
  }

  lemma RelinkedAt(mem: seq<Header>, p: nat, bp: nat, up: bool, down: bool, b: Header)
    requires p < |mem| && bp < |mem| && mem[p].ptr < |mem| && p != bp
    requires b == var q := mem[p].ptr; if up then Header(mem[q].ptr, mem[bp].size + mem[q].size)
                                       else Header(q, mem[bp].size)
    ensures var mem' := Relinked(mem, p, bp, up, down);
            && |mem'| == |mem|
            && (forall a | 0 <= a < |mem| && a != p && a != bp :: mem'[a] == mem[a])
            && mem'[p] == (if down then Header(b.ptr, mem[p].size + b.size) else Header(bp, mem[p].size))
            && mem'[bp] == b
  {
  }

  lemma OtherNodes(base: nat, chunks: seq<Chunk>, live: map<nat, nat>, owned: set<nat>, hi: nat, j: nat, bp: nat)
    requires Books(base, chunks, live, owned, hi) && bp in live && j <= |chunks|
    ensures forall i | 0 <= i <= |chunks| && i != j ::
              Node(base, chunks, i) != Node(base, chunks, j) && Node(base, chunks, i) != bp
  {
    forall i | 0 <= i <= |chunks| && i != j
      ensures Node(base, chunks, i) != Node(base, chunks, j) && Node(base, chunks, i) != bp
    {
      NodesDiffer(base, chunks, hi, i, j);
      LiveNotNode(base, chunks, live, owned, hi, bp, i);
    }
  }

  /** Relinking in memory is insertion in the list. */
  lemma FreeRing(mem: seq<Header>, base: nat, chunks: seq<Chunk>, live: map<nat, nat>, owned: set<nat>, j: nat, bp: nat)
    requires Ring(mem, base, chunks) && Books(base, chunks, live, owned, |mem|) && bp in live && LiveHeaders(mem, live)
    requires Gap(base, chunks, |mem|, j, bp, live[bp])
    ensures Node(base, chunks, j) < |mem| && mem[Node(base, chunks, j)].ptr < |mem|
    ensures Ring(Relinked(mem, Node(base, chunks, j), bp, TouchesUp(chunks, j, bp, live[bp]),
                          TouchesDown(chunks, j, bp)),
                 base, Insert(chunks, j, bp, live[bp]))
  {
    hide Insert, IsReplaced, Books, Relinked, Ring;
    var n := live[bp];
    var up, down := TouchesUp(chunks, j, bp, n), TouchesDown(chunks, j, bp);
    NodeFacts(mem, base, chunks, live, owned, j, bp);
    InsertIsReplaced(chunks, j, bp, n);
    OtherNodes(base, chunks, live, owned, |mem|, j, bp);
    var p := Node(base, chunks, j);
    var mem' := Relinked(mem, p, bp, up, down);
    var k, m := if down then j - 1 else j, if up then j + 1 else j;
    var b := Header(Node(base, chunks, Next(chunks, m)), n + if up then chunks[j].n else 0);
    RelinkedAt(mem, p, bp, up, down, b);
    RingNode(mem, base, chunks, k);
    RingReplaced(mem, mem', base, chunks, k, m, Merged(chunks, j, bp, n), Insert(chunks, j, bp, n));
  }

  lemma RingNode(mem: seq<Header>, base: nat, chunks: seq<Chunk>, i: nat)
    requires Ring(mem, base, chunks) && i <= |chunks|
    ensures NodeOk(mem, base, chunks, i)
  {
  }

  /** Freeing moves units from live to free and loses none. */
  lemma FreeBooks(base: nat, chunks: seq<Chunk>, live: map<nat, nat>, owned: set<nat>, hi: nat, j: nat, bp: nat)
    requires Books(base, chunks, live, owned, hi) && bp in live && Gap(base, chunks, hi, j, bp, live[bp])
    ensures Books(base, Insert(chunks, j, bp, live[bp]), live - {bp}, owned, hi)
  {
    var r, rest := Insert(chunks, j, bp, live[bp]), live - {bp};
    InsertSorted(base, chunks, hi, j, bp, live[bp]);
    hide Insert, Sorted, Gap;
    forall u: nat
      ensures InFree(r, u) <==> InFree(chunks, u) || bp <= u < bp + live[bp]
      ensures InLive(live, u) <==> InLive(rest, u) || bp <= u < bp + live[bp]
      ensures InLive(rest, u) ==> !(bp <= u < bp + live[bp])
    {
      InsertUnits(base, chunks, hi, j, bp, live[bp], u);
      LiveSplit(live, bp, u);
    }
  }

  lemma LiveSplit(live: map<nat, nat>, bp: nat, u: nat)
    requires bp in live && forall a, b | a in live && b in live && a < b :: a + live[a] <= b
    ensures InLive(live, u) <==> InLive(live - {bp}, u) || bp <= u < bp + live[bp]
    ensures InLive(live - {bp}, u) ==> !(bp <= u < bp + live[bp])
  {
    var rest := live - {bp};
    if InLive(live, u) {
      var a :| a in live && a <= u < a + live[a];
      assert a != bp ==> a in rest && a <= u < a + rest[a];
    }
    if InLive(rest, u) {
      var a :| a in rest && a <= u < a + rest[a];
      assert a in live && a <= u < a + live[a];
    }
  }

  lemma FreedNode(base: nat, chunks: seq<Chunk>, j: nat, a: nat, n: nat)
    requires j <= |chunks|
    ensures IsNode(base, Insert(chunks, j, a, n), Node(base, chunks, j))
  {
    var r := Insert(chunks, j, a, n);
    var i := j;
    assert |r| >= j;
    assert Node(base, r, i) == Node(base, chunks, j);
  }

  lemma RelinkedIs(mem: seq<Header>, mem': seq<Header>, p: nat, bp: nat, up: bool, down: bool)
    requires p < |mem| && bp < |mem| && mem[p].ptr < |mem| && p != bp
    requires mem' == (var q := mem[p].ptr;
                      var b := if up then Header(mem[q].ptr, mem[bp].size + mem[q].size) else Header(q, mem[bp].size);
                      mem[bp := b][p := if down then Header(b.ptr, mem[p].size + b.size) else Header(bp, mem[p].size)])
    ensures mem' == Relinked(mem, p, bp, up, down)
  {
  }

  lemma HeadersKept(mem: seq<Header>, mem': seq<Header>, base: nat, chunks: seq<Chunk>, live: map<nat, nat>,
                    owned: set<nat>, j: nat, bp: nat)
    requires Books(base, chunks, live, owned, |mem|) && LiveHeaders(mem, live) && j <= |chunks| && |mem'| == |mem|
    requires forall a | 0 <= a < |mem| && a != bp && a != Node(base, chunks, j) :: mem'[a] == mem[a]
    ensures LiveHeaders(mem', live - {bp})
  {
    forall a | a in live
      ensures a != Node(base, chunks, j)
    {
      LiveNotNode(base, chunks, live, owned, |mem|, a, j);
    }
  }

  // ---------------------------------------------------------------- growing

  ghost predicate InRun(a: nat, n: nat, u: nat) {
    a <= u < a + n
  }

  ghost function Run(a: nat, n: nat): set<nat> {
    set u | 0 <= u < a + n && InRun(a, n, u)
  }

  ghost function Granted(nu: nat): nat {
    if nu < MIN_GROW then MIN_GROW else nu
  }

  lemma GrowRing(mem: seq<Header>, base: nat, chunks: seq<Chunk>, more: nat)
    requires Ring(mem, base, chunks)
    ensures Ring(mem + seq(more, _ => Header(0, 0)), base, chunks)
  {
    var mem' := mem + seq(more, _ => Header(0, 0));
    forall i | 0 <= i <= |chunks|
      ensures NodeOk(mem', base, chunks, i)
    {
      assert NodeOk(mem, base, chunks, i);
    }
  }

  /** A run above everything is a new live block. */
  lemma GrowBooks(base: nat, chunks: seq<Chunk>, live: map<nat, nat>, owned: set<nat>, hi: nat, gap: nat, n: nat)
    requires Books(base, chunks, live, owned, hi) && base < hi && 0 < n
    ensures Books(base, chunks, live[hi + gap := n], owned + Run(hi + gap, n), hi + gap + n)
  {
    var hp := hi + gap;
    var live' := live[hp := n];
    forall u: nat
      ensures InFree(chunks, u) ==> u < hi
      ensures InLive(live', u) <==> InLive(live, u) || hp <= u < hp + n
      ensures InLive(live, u) ==> u < hi
    {
      GrowLive(live, hp, n, u);
    }
  }

  lemma GrowLive(live: map<nat, nat>, hp: nat, n: nat, u: nat)
    requires hp !in live
    ensures InLive(live[hp := n], u) <==> InLive(live, u) || hp <= u < hp + n
  {
    var live' := live[hp := n];
    if InLive(live, u) {
      var a :| a in live && a <= u < a + live[a];
      assert a in live' && a <= u < a + live'[a];
    }
    if hp <= u < hp + n {
      assert hp in live' && hp <= u < hp + live'[hp];
    }
  }

  /** The header of the new run disturbs nobody. */
  lemma StoreOutside(mem: seq<Header>, mem0: seq<Header>, base: nat, chunks: seq<Chunk>, live: map<nat, nat>,
                     owned: set<nat>, hp: nat, n: nat)
    requires Books(base, chunks, live, owned, |mem0|) && LiveHeaders(mem0, live) && Ring(mem0, base, chunks)
    requires |mem0| <= hp < |mem| && mem[hp].size == n && forall a | 0 <= a < |mem0| :: mem[a] == mem0[a]
    ensures LiveHeaders(mem, live[hp := n]) && Ring(mem, base, chunks)
  {
    forall i | 0 <= i <= |chunks|
      ensures NodeOk(mem, base, chunks, i)
    {
      assert NodeOk(mem0, base, chunks, i);
    }
  }

  // ---------------------------------------------------------------- taking

  lemma TakeFacts(mem: seq<Header>, base: nat, chunks: seq<Chunk>, live: map<nat, nat>, owned: set<nat>, k: nat, n: nat)
    requires Ring(mem, base, chunks) && Books(base, chunks, live, owned, |mem|) && k < |chunks| && 0 < n <= chunks[k].n
    ensures Node(base, chunks, k) < |mem| && base <= Node(base, chunks, k) < chunks[k].a < |mem|
    ensures chunks[k].a + chunks[k].n <= |mem|
    ensures mem[Node(base, chunks, k)] == Header(chunks[k].a, NodeSize(chunks, k))
    ensures mem[chunks[k].a] == Header(Node(base, chunks, Next(chunks, k + 1)), chunks[k].n)
    ensures CarvedAt(chunks, k, n) !in live && IsNode(base, Carve(chunks, k, n), Node(base, chunks, k))
  {
    assert NodeOk(mem, base, chunks, k) && NodeOk(mem, base, chunks, k + 1);
    var a := CarvedAt(chunks, k, n);
    assert InFree(chunks, a);
    assert a in live ==> InLive(live, a);
    assert Node(base, Carve(chunks, k, n), k) == Node(base, chunks, k);
  }

  /** Taking moves units from free to live and loses none. */
  lemma TakeBooks(base: nat, chunks: seq<Chunk>, live: map<nat, nat>, owned: set<nat>, hi: nat, k: nat, n: nat)
    requires Books(base, chunks, live, owned, hi) && k < |chunks| && 0 < n <= chunks[k].n
    ensures Books(base, Carve(chunks, k, n), live[CarvedAt(chunks, k, n) := n], owned, hi)
  {
    var a := CarvedAt(chunks, k, n);
    var live' := live[a := n];
    CarveSorted(base, chunks, hi, k, n);
    forall u: nat | a <= u < a + n
      ensures InFree(chunks, u) && !InLive(live, u)
    {
    }
    LiveOutside(base, chunks, live, owned, hi, a, n);
    hide Carve, Sorted;
    forall u: nat
      ensures InFree(Carve(chunks, k, n), u) <==> InFree(chunks, u) && !(a <= u < a + n)
      ensures InLive(live', u) <==> InLive(live, u) || a <= u < a + n
    {
      CarveUnits(base, chunks, hi, k, n, u);
      GrowLive(live, a, n, u);
    }
  }

  lemma LiveOutside(base: nat, chunks: seq<Chunk>, live: map<nat, nat>, owned: set<nat>, hi: nat, a: nat, n: nat)
    requires Books(base, chunks, live, owned, hi) && 0 < n
    requires forall u: nat | a <= u < a + n :: InFree(chunks, u)
    ensures a !in live
    ensures forall b | b in live :: b + live[b] <= a || a + n <= b
  {
    forall b | b in live
      ensures b + live[b] <= a || a + n <= b
    {
      var u := if a <= b then b else a;
      assert b < a + n && a < b + live[b] ==> InLive(live, u);
      assert a <= u < a + n ==> InFree(chunks, u);
    }
  }

  lemma TakeWhole(mem: seq<Header>, mem': seq<Header>, base: nat, chunks: seq<Chunk>, live: map<nat, nat>,
                  owned: set<nat>, k: nat)
    requires Ring(mem, base, chunks) && Books(base, chunks, live, owned, |mem|) && LiveHeaders(mem, live)
             && k < |chunks|
    requires Node(base, chunks, k) < |mem| && chunks[k].a < |mem|
             && mem[chunks[k].a] == Header(Node(base, chunks, Next(chunks, k + 1)), chunks[k].n)
    requires mem' == mem[Node(base, chunks, k) := Header(mem[chunks[k].a].ptr, mem[Node(base, chunks, k)].size)]
    ensures Ring(mem', base, Carve(chunks, k, chunks[k].n)) && LiveHeaders(mem', live[chunks[k].a := chunks[k].n])
  {
    RingNode(mem, base, chunks, k);
    forall i | 0 <= i <= |chunks| && i != k
      ensures Node(base, chunks, i) != Node(base, chunks, k)
    {
      NodesDiffer(base, chunks, |mem|, i, k);
    }
    RingRemoved(mem, mem', base, chunks, k);
    NodesDiffer(base, chunks, |mem|, k + 1, k);
    forall a | a in live
      ensures a != Node(base, chunks, k)
    {
      LiveNotNode(base, chunks, live, owned, |mem|, a, k);
    }
  }

  lemma TakePart(mem: seq<Header>, mem': seq<Header>, base: nat, chunks: seq<Chunk>, live: map<nat, nat>,
                 owned: set<nat>, k: nat, n: nat)
    requires Ring(mem, base, chunks) && Books(base, chunks, live, owned, |mem|) && LiveHeaders(mem, live)
    requires k < |chunks| && 0 < n < chunks[k].n && chunks[k].a + chunks[k].n <= |mem|
    requires mem[chunks[k].a] == Header(Node(base, chunks, Next(chunks, k + 1)), chunks[k].n)
    requires var c, a := chunks[k].a, CarvedAt(chunks, k, n);
             mem' == mem[c := Header(mem[c].ptr, chunks[k].n - n)][a := Header(mem[a].ptr, n)]
    ensures Ring(mem', base, Carve(chunks, k, n)) && LiveHeaders(mem', live[CarvedAt(chunks, k, n) := n])
  {
    var c, a := chunks[k].a, CarvedAt(chunks, k, n);
    CarveShrinks(chunks, k, n);
    RingNode(mem, base, chunks, k);
    NodesClear(base, chunks, |mem|, k, a);
    LiveClear(base, chunks, live, owned, |mem|, k, a);
    hide Ring, IsReplaced, Books, Carve;
    RingReplaced(mem, mem', base, chunks, k, k + 1, Chunk(c, chunks[k].n - n), Carve(chunks, k, n));
  }

  lemma NodesClear(base: nat, chunks: seq<Chunk>, hi: nat, k: nat, a: nat)
    requires Sorted(base, chunks, hi) && k < |chunks| && chunks[k].a < a < chunks[k].a + chunks[k].n
    ensures forall i | 0 <= i <= |chunks| :: Node(base, chunks, i) != a
                                             && (i != k + 1 ==> Node(base, chunks, i) != chunks[k].a)
  {
  }

  lemma LiveClear(base: nat, chunks: seq<Chunk>, live: map<nat, nat>, owned: set<nat>, hi: nat, k: nat, a: nat)
    requires Books(base, chunks, live, owned, hi) && k < |chunks| && chunks[k].a < a < chunks[k].a + chunks[k].n
    ensures forall b | b in live :: b != chunks[k].a && b != a
  {
    assert InFree(chunks, chunks[k].a) && InFree(chunks, a);
    forall b | b in live
      ensures InLive(live, b)
    {
    }
  }

  // ---------------------------------------------------------------- the search of malloc

  /** Requests above this make the unit count or the argument of sbrk overflow (see RequestFits). */
  const MAX_REQUEST: nat := 0x8000_0000 - 2 * HEADER_BYTES

  /** Units for nbytes and a header, in the source's 32-bit arithmetic. */
  function UnitsFor(nbytes: nat): (n: nat)
    ensures n > 0
  {
    (nbytes + HEADER_BYTES - 1) % 0x1_0000_0000 / HEADER_BYTES + 1
  }

  /** A block is big enough, and sbrk is asked for a positive amount, exactly up to MAX_REQUEST. */
  lemma RequestFits(nbytes: nat)
    requires nbytes < 0x1_0000_0000
    ensures (nbytes <= (UnitsFor(nbytes) - 1) * HEADER_BYTES && UnitsFor(nbytes) * HEADER_BYTES < 0x8000_0000)
            <==> nbytes <= MAX_REQUEST
  {
  }

  ghost predicate SomeFits(chunks: seq<Chunk>, n: nat) {
    exists k | 0 <= k < |chunks| :: chunks[k].n >= n
  }

  /** Going round the ring from node fi, node i comes before node pi. */
  ghost predicate Passed(fi: nat, pi: nat, i: nat) {
    if fi < pi then fi < i < pi else i > fi || i < pi
  }

  ghost predicate AllSmall(chunks: seq<Chunk>, fi: nat, pi: nat, n: nat) {
    forall i | 0 <= i <= |chunks| && Passed(fi, pi, i) :: NodeSize(chunks, i) < n
  }

  /**
   * The block came from the first chunk after the roving pointer that is big enough, and the pointer moves to the node
   * before it.
   */
  ghost predicate FirstFit(base: nat, before: seq<Chunk>, after: seq<Chunk>, roving: nat, roving': nat, n: nat,
                           r: nat) {
    exists fi, k :: FitAt(base, before, after, roving, roving', n, r, fi, k)
  }

  ghost predicate FitAt(base: nat, before: seq<Chunk>, after: seq<Chunk>, roving: nat, roving': nat, n: nat, r: nat,
                        fi: nat, k: nat) {
    && fi <= |before| && k < |before| && roving' == Node(base, before, k)
    && (roving == Node(base, before, fi) || roving == 0)
    && n <= before[k].n && AllSmall(before, fi, k + 1, n)
    && after == Carve(before, k, n) && r == CarvedAt(before, k, n)
  }

  lemma TookFit(base: nat, before: seq<Chunk>, after: seq<Chunk>, fi: nat, roving: nat, roving': nat, pi: nat, n: nat,
                r: nat)
    requires fi <= |before| && 1 <= pi <= |before| && n <= before[pi - 1].n && AllSmall(before, fi, pi, n)
    requires after == Carve(before, pi - 1, n) && r == CarvedAt(before, pi - 1, n)
             && roving' == Node(base, before, pi - 1)
    requires roving == Node(base, before, fi) || roving == 0
    ensures FirstFit(base, before, after, roving, roving', n, r) && SomeFits(before, n)
  {
    hide Carve, AllSmall;
    var k := pi - 1;
    assert pi == k + 1;
    assert FitAt(base, before, after, roving, roving', n, r, fi, k);
  }

  ghost function NodeIndex(base: nat, chunks: seq<Chunk>, p: nat): (i: nat)
    requires IsNode(base, chunks, p)
    ensures i <= |chunks| && p == Node(base, chunks, i)
  {
    var i :| 0 <= i <= |chunks| && p == Node(base, chunks, i);
    i
  }

  lemma NonePassed(chunks: seq<Chunk>, fi: nat, n: nat)
    requires fi <= |chunks|
    ensures AllSmall(chunks, fi, Next(chunks, fi), n)
  {
  }

  lemma NoneFits(chunks: seq<Chunk>, fi: nat, n: nat)
    requires fi <= |chunks| && AllSmall(chunks, fi, fi, n) && NodeSize(chunks, fi) < n
    ensures !SomeFits(chunks, n)
  {
    forall k | 0 <= k < |chunks|
      ensures chunks[k].n < n
    {
      assert NodeSize(chunks, k + 1) == chunks[k].n;
      assert k + 1 == fi || Passed(fi, fi, k + 1);
    }
  }

  lemma AllSmallNext(base: nat, chunks: seq<Chunk>, fi: nat, pi: nat, n: nat)
    requires fi <= |chunks| && pi <= |chunks| && AllSmall(chunks, fi, pi, n) && NodeSize(chunks, pi) < n && fi != pi
    ensures AllSmall(chunks, fi, Next(chunks, pi), n)
  {
  }

  lemma SameNode(mem: seq<Header>, base: nat, chunks: seq<Chunk>, live: map<nat, nat>, owned: set<nat>, i: nat, j: nat)
    requires Books(base, chunks, live, owned, |mem|) && i <= |chunks| && j <= |chunks|
    requires Node(base, chunks, i) == Node(base, chunks, j)
    ensures i == j
  {
  }

  lemma GrownFits(chunks: seq<Chunk>, j: nat, hp: nat, n: nat, nunits: nat)
    requires j <= |chunks| && nunits <= n
    ensures SomeFits(Insert(chunks, j, hp, n), nunits)
  {
    var r := Insert(chunks, j, hp, n);
    var k := if TouchesDown(chunks, j, hp) then j - 1 else j;
    assert r[k] == Merged(chunks, j, hp, n);
  }

  lemma UserWriteHarmless(mem: seq<Header>, base: nat, chunks: seq<Chunk>, live: map<nat, nat>, owned: set<nat>, a: nat,
                          u: nat, x: Header)
    requires Books(base, chunks, live, owned, |mem|) && LiveHeaders(mem, live) && a in live && a < u < a + live[a]
    ensures u < |mem| && u != base && LiveHeaders(mem[u := x], live)
    ensures Ring(mem, base, chunks) ==> Ring(mem[u := x], base, chunks)
  {
    assert InLive(live, u);
    var mem' := mem[u := x];
    if Ring(mem, base, chunks) {
      forall i | 0 <= i <= |chunks|
        ensures NodeOk(mem', base, chunks, i)
      {
        assert NodeOk(mem, base, chunks, i);
        assert i > 0 ==> InFree(chunks, chunks[i - 1].a);
      }
    }
  }

  class Heap {
    const base: nat
    var mem: seq<Header>
    var freep: nat
    ghost var chunks: seq<Chunk>
    ghost var live: map<nat, nat>
    ghost var owned: set<nat>

    ghost predicate Valid()
      reads this
    {
      && 0 < base < |mem|
      && Books(base, chunks, live, owned, |mem|)
      && LiveHeaders(mem, live)
      && (freep == 0 ==> chunks == [] && live == map[])
      && (freep != 0 ==> Ring(mem, base, chunks) && IsNode(base, chunks, freep))
    }

    /** The search loop of free: the free-list node just below bp. */
    method FindSlot(bp: nat) returns (p: nat)
      requires Valid() && freep != 0 && bp in live
      ensures p == Node(base, chunks, Below(chunks, bp))
    {
      ghost var j := Below(chunks, bp);
      LiveGap(base, chunks, live, owned, |mem|, bp);
      p := freep;
      ghost var i :| 0 <= i <= |chunks| && p == Node(base, chunks, i);
      while true
        invariant 0 <= i <= |chunks| && p == Node(base, chunks, i)
        decreases if i <= j then j - i else j + |chunks| + 1 - i
      {
        assert NodeOk(mem, base, chunks, i);
        SearchStops(base, chunks, |mem|, j, bp, live[bp], i);
        if bp > p && bp < mem[p].ptr {
          return;
        }
        if p >= mem[p].ptr && (bp > p || bp < mem[p].ptr) {
          return;
        }
        p := mem[p].ptr;
        i := Next(chunks, i);
      }
    }

    /** Return a block to the free list, merging it with its neighbours. */
    method Free(bp: nat)
      requires Valid() && bp in live
      modifies `mem, `freep, `chunks, `live
      ensures Valid() && freep != 0 && |mem| == |old(mem)|
      ensures chunks == Insert(old(chunks), Below(old(chunks), bp), bp, old(live)[bp])
      ensures live == old(live) - {bp}
      ensures freep == Node(base, old(chunks), Below(old(chunks), bp))
    {
      hide Ring, Sorted, Books, Insert, Relinked, IsNode;
      ghost var j, n := Below(chunks, bp), live[bp];
      var p := FindSlot(bp);
      LiveGap(base, chunks, live, owned, |mem|, bp);
      NodeFacts(mem, base, chunks, live, owned, j, bp);
      FreeRing(mem, base, chunks, live, owned, j, bp);
      FreeBooks(base, chunks, live, owned, |mem|, j, bp);
      FreedNode(base, chunks, j, bp, n);
      if bp + mem[bp].size == mem[p].ptr {
        var q := mem[p].ptr;
        mem := mem[bp := Header(mem[q].ptr, mem[bp].size + mem[q].size)];
      } else {
        mem := mem[bp := Header(mem[p].ptr, mem[bp].size)];
      }
      if p + mem[p].size == bp {
        mem := mem[p := Header(mem[bp].ptr, mem[p].size + mem[bp].size)];
      } else {
        mem := mem[p := Header(bp, mem[p].size)];
      }
      freep := p;
      RelinkedIs(old(mem), mem, p, bp, TouchesUp(chunks, j, bp, n), TouchesDown(chunks, j, bp));
      HeadersKept(old(mem), mem, base, chunks, live, owned, j, bp);
      chunks := Insert(chunks, j, bp, n);
      live := live - {bp};
    }

    /** Ask the system for at least nu more units; `gap` units were taken by others in between. */
    method Morecore(nu: nat, fail: bool, gap: nat) returns (p: nat)
      requires Valid() && freep != 0 && 0 < nu
      modifies `mem, `freep, `chunks, `live, `owned
      ensures Valid() && freep != 0 && live == old(live)
      ensures fail ==> p == 0 && mem == old(mem) && freep == old(freep) && chunks == old(chunks) && owned == old(owned)
      ensures !fail ==>
                var n, hp := Granted(nu), |old(mem)| + gap;
                && p == freep == Node(base, old(chunks), Below(old(chunks), hp))
                && chunks == Insert(old(chunks), Below(old(chunks), hp), hp, n)
                && owned == old(owned) + Run(hp, n)
    {
      hide Ring, Sorted, Books, Insert;
      var n := if nu < MIN_GROW then MIN_GROW else nu;
      if fail {
        return 0;
      }
      var hp := |mem| + gap;
      GrowRing(mem, base, chunks, gap + n);
      GrowBooks(base, chunks, live, owned, |mem|, gap, n);
      mem := mem + seq(gap + n, _ => Header(0, 0));
      mem := mem[hp := Header(mem[hp].ptr, n)];
      StoreOutside(mem, old(mem), base, chunks, live, owned, hp, n);
      live := live[hp := n];
      owned := owned + Run(hp, n);
      Free(hp);
      assert live == old(live);
      p := freep;
    }

    /** Morecore when no chunk is big enough: afterwards one is. */
    method Grow(nunits: nat, fail: bool, gap: nat) returns (p: nat)
      requires Valid() && freep != 0 && 0 < nunits && !SomeFits(chunks, nunits)
      modifies `mem, `freep, `chunks, `live, `owned
      ensures Valid() && freep != 0 && live == old(live) && (p == 0 <==> fail)
      ensures fail ==> mem == old(mem) && freep == old(freep) && chunks == old(chunks) && owned == old(owned)
      ensures !fail ==> p == freep == Node(base, old(chunks), Below(old(chunks), |old(mem)| + gap))
      ensures !fail ==> AfterGrowth(old(chunks), chunks, old(owned), owned, |old(mem)| + gap, nunits)
    {
      hide Ring, Sorted, Books, Insert, Run, SomeFits;
      p := Morecore(nunits, fail, gap);
      GrownFits(old(chunks), Below(old(chunks), |old(mem)| + gap), |old(mem)| + gap, Granted(nunits), nunits);
    }

    /** Take the block out of chunk k, the one after node k; free-list surgery of malloc. */
    method Take(ghost k: nat, prevp: nat, p0: nat, nunits: nat) returns (p: nat)
      requires Valid() && freep != 0 && k < |chunks| && 0 < nunits <= chunks[k].n
      requires prevp == Node(base, chunks, k) && p0 == chunks[k].a
      modifies `mem, `freep, `chunks, `live
      ensures Valid() && freep == prevp && |mem| == |old(mem)|
      ensures chunks == Carve(old(chunks), k, nunits)
      ensures p == CarvedAt(old(chunks), k, nunits) > 0 && p !in old(live) && live == old(live)[p := nunits]
    {
      hide Ring, Sorted, Books, Carve, Insert;
      p := p0;
      TakeFacts(mem, base, chunks, live, owned, k, nunits);
      TakeBooks(base, chunks, live, owned, |mem|, k, nunits);
      if mem[p].size == nunits {
        mem := mem[prevp := Header(mem[p].ptr, mem[prevp].size)];
        TakeWhole(old(mem), mem, base, chunks, live, owned, k);
      } else {
        mem := mem[p := Header(mem[p].ptr, mem[p].size - nunits)];
        p := p + mem[p].size;
        mem := mem[p := Header(mem[p].ptr, nunits)];
        TakePart(old(mem), mem, base, chunks, live, owned, k, nunits);
      }
      freep := prevp;
      chunks := Carve(chunks, k, nunits);
      live := live[p := nunits];
    }

    /** The program before its first allocation; `base` is a static variable below the heap. */
    constructor (base: nat, below: nat)
      requires 0 < base < below
      ensures Valid() && freep == 0 && this.base == base && |mem| == below && live == map[] && owned == {}
    {
      this.base := base;
      mem := seq(below, _ => Header(0, 0));
      freep := 0;
      chunks, live, owned := [], map[], {};
    }

    /** The first call of malloc makes a list of the one empty node `base`. */
    method Start()
      requires Valid()
      modifies `mem, `freep
      ensures Valid() && freep != 0 && |mem| == |old(mem)|
      ensures old(freep) != 0 ==> mem == old(mem) && freep == old(freep)
    {
      if freep == 0 {
        freep := base;
        mem := mem[base := Header(base, 0)];
        assert NodeOk(mem, base, chunks, 0);
        assert freep == Node(base, chunks, 0);
      }
    }

    /**
     Allocate. The result is the block's header (the caller gets the unit after it), or 0 if
     nothing fits and the system gives no more. The search is first fit from the roving
     pointer, and asks for more memory at most once.
     */
    method Malloc(nbytes: nat, fail: bool, gap: nat) returns (r: nat)
      requires Valid() && nbytes < 0x1_0000_0000
               && (SomeFits(chunks, UnitsFor(nbytes)) || UnitsFor(nbytes) * HEADER_BYTES < 0x8000_0000)
      modifies `mem, `freep, `chunks, `live, `owned
      ensures Valid()
      ensures r == 0 <==> fail && !SomeFits(old(chunks), UnitsFor(nbytes))
      ensures r == 0 ==> chunks == old(chunks) && live == old(live) && owned == old(owned)
      ensures r != 0 ==> r !in old(live) && live == old(live)[r := UnitsFor(nbytes)]
      ensures SomeFits(old(chunks), UnitsFor(nbytes)) ==>
                owned == old(owned) && FirstFit(base, old(chunks), chunks, old(freep), freep, UnitsFor(nbytes), r)
      ensures r != 0 && !SomeFits(old(chunks), UnitsFor(nbytes)) ==>
                var n, hp := Granted(UnitsFor(nbytes)), |old(mem)| + gap;
                var grown := Insert(old(chunks), Below(old(chunks), hp), hp, n);
                && owned == old(owned) + Run(hp, n)
                && FirstFit(base, grown, chunks, Node(base, old(chunks), Below(old(chunks), hp)), freep,
                            UnitsFor(nbytes), r)
    {
      hide Ring, Sorted, Books, Carve, Insert, AllSmall, FirstFit, SomeFits, LiveHeaders, UnitsFor, IsNode, Run,
           AfterGrowth;
      var nunits := UnitsFor(nbytes);
      Start();
      var prevp := freep;
      ghost var fi := NodeIndex(base, chunks, freep);
      ghost var qi, grown := fi, false;
      ghost var roving := old(freep);
      NonePassed(chunks, fi, nunits);
      RingNode(mem, base, chunks, qi);
      var p := mem[prevp].ptr;
      while true
        invariant Valid() && freep != 0 && live == old(live)
        invariant 0 <= fi <= |chunks| && freep == Node(base, chunks, fi)
        invariant 0 <= qi <= |chunks| && prevp == Node(base, chunks, qi) && p == Node(base, chunks, Next(chunks, qi))
        invariant AllSmall(chunks, fi, Next(chunks, qi), nunits)
        invariant !grown ==> chunks == old(chunks) && owned == old(owned) && roving == old(freep)
                             && (roving == freep || roving == 0) && |mem| == |old(mem)|
        invariant grown ==> !fail && AfterGrowth(old(chunks), chunks, old(owned), owned, |old(mem)| + gap, nunits)
                            && roving == freep == Node(base, old(chunks), Below(old(chunks), |old(mem)| + gap))
        decreases !grown, if Next(chunks, qi) <= fi then fi - Next(chunks, qi) else fi + |chunks| + 1 - Next(chunks, qi)
      {
        ghost var pi := Next(chunks, qi);
        RingNode(mem, base, chunks, pi);
        if mem[p].size >= nunits {
          ghost var c0 := chunks;
          if grown {
            GrowthMeans(old(chunks), chunks, old(owned), owned, |old(mem)| + gap, nunits);
          }
          r := Take(pi - 1, prevp, p, nunits);
          TookFit(base, c0, chunks, fi, roving, freep, pi, nunits, r);
          return;
        }
        if p == freep {
          SameNode(mem, base, chunks, live, owned, fi, pi);
          NoneFits(chunks, fi, nunits);
          if grown {
            GrowthMeans(old(chunks), chunks, old(owned), owned, |old(mem)| + gap, nunits);
          }
          p := Grow(nunits, fail, gap);
          if p == 0 {
            return 0;
          }
          grown, roving := true, freep;
          fi := NodeIndex(base, chunks, freep);
          NonePassed(chunks, fi, nunits);
          pi := fi;
          RingNode(mem, base, chunks, pi);
        } else {
          AllSmallNext(base, chunks, fi, pi, nunits);
        }
        prevp := p;
        p := mem[p].ptr;
        qi := pi;
      }
    }

    /** A program may write anywhere in its blocks except the headers, without disturbing the allocator. */
    method UserWrite(a: nat, u: nat, x: Header)
      requires Valid() && a in live && a < u < a + live[a]
      modifies `mem
      ensures Valid() && mem == old(mem)[u := x]
    {
      UserWriteHarmless(mem, base, chunks, live, owned, a, u, x);
      mem := mem[u := x];
    }
  }

  /** No chunk was big enough; the break moved to top and the new units were freed into the list. */
  ghost predicate AfterGrowth(chunks0: seq<Chunk>, chunks: seq<Chunk>, owned0: set<nat>, owned: set<nat>, top: nat,
                              nunits: nat) {
    && !SomeFits(chunks0, nunits) && SomeFits(chunks, nunits)
    && chunks == Insert(chunks0, Below(chunks0, top), top, Granted(nunits))
    && owned == owned0 + Run(top, Granted(nunits))
  }

  lemma GrowthMeans(chunks0: seq<Chunk>, chunks: seq<Chunk>, owned0: set<nat>, owned: set<nat>, top: nat, nunits: nat)
    requires AfterGrowth(chunks0, chunks, owned0, owned, top, nunits)
    ensures !SomeFits(chunks0, nunits) && SomeFits(chunks, nunits)
    ensures chunks == Insert(chunks0, Below(chunks0, top), top, Granted(nunits))
            && owned == owned0 + Run(top, Granted(nunits))
  {
  }
}
