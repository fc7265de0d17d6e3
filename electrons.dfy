/** The spatial hash grid of electrons and the neighbourhood rule of the
    inter-electron repulsion. */
module Electrons {
  import opened Structs

  /** Edge length of a grid cell. */
  const CellSize: real := 10.0

  /** Integer cell coordinates. */
  datatype IVec3 = IVec3(x: int, y: int, z: int)

  const Origin: IVec3 := IVec3(0, 0, 0)

  function CellAdd(a: IVec3, b: IVec3): IVec3
  {
    IVec3(a.x + b.x, a.y + b.y, a.z + b.z)
  }

  function CellNeg(a: IVec3): IVec3
  {
    IVec3(-a.x, -a.y, -a.z)
  }

  lemma CellAddNeg(a: IVec3, o: IVec3)
    ensures CellAdd(CellAdd(a, o), CellNeg(o)) == a
  {
  }

  /** Two cells that differ by at most one in every axis. */
  predicate Adjacent(a: IVec3, b: IVec3)
  {
    -1 <= b.x - a.x <= 1 && -1 <= b.y - a.y <= 1 && -1 <= b.z - a.z <= 1
  }

  /** What the grid stores of an electron: its position and its entity id. */
  datatype ElectronRepr = ElectronRepr(position: Vec3, id: nat)

  /** The grid: sparse map from cell to the electrons in it. */
  type Chunks = map<IVec3, seq<ElectronRepr>>

  // ---------------------------------------------------------------------
  // Cell of a position

  /** Euclidean division of one coordinate by the cell size. */
  function DivEuclid(p: real): int
  {
    (p / CellSize).Floor
  }

  /** For the positive cell size, Euclidean division is the floor of the
      quotient, also for negative `p`: the cell index `c` of `p` satisfies
      c * 10 <= p < (c + 1) * 10. */
  lemma DivEuclidBounds(p: real)
    ensures DivEuclid(p) as real * CellSize <= p < (DivEuclid(p) + 1) as real * CellSize
  {
  }

  /** The cell index is the only integer whose cell contains `p`. */
  lemma DivEuclidUnique(p: real, c: int)
    requires c as real * CellSize <= p < (c + 1) as real * CellSize
    ensures c == DivEuclid(p)
  {
    DivEuclidBounds(p);
    var f := DivEuclid(p);
    assert c < f + 1 && f < c + 1;
  }

  /** The cell of a position, axis by axis. */
  function WorldPosToChunkPos(pos: Vec3): IVec3
  {
    IVec3(DivEuclid(pos.x), DivEuclid(pos.y), DivEuclid(pos.z))
  }

  /** A position lies inside the cube of its cell, on every axis. */
  lemma ChunkPosBounds(pos: Vec3)
    ensures var c := WorldPosToChunkPos(pos);
      c.x as real * CellSize <= pos.x < (c.x + 1) as real * CellSize &&
      c.y as real * CellSize <= pos.y < (c.y + 1) as real * CellSize &&
      c.z as real * CellSize <= pos.z < (c.z + 1) as real * CellSize
  {
    DivEuclidBounds(pos.x);
    DivEuclidBounds(pos.y);
    DivEuclidBounds(pos.z);
  }

  function CellOf(e: ElectronRepr): IVec3
  {
    WorldPosToChunkPos(e.position)
  }

  // ---------------------------------------------------------------------
  // Rebuilding the grid

  /** The grid a rebuild produces from the electrons `es`, taken in iteration
      order: each one appended to the bucket of its own cell. */
  function Bucketed(es: seq<ElectronRepr>): Chunks
    decreases |es|
  {
    if es == [] then map[]
    else
      var m := Bucketed(es[..|es| - 1]);
      var e := es[|es| - 1];
      var c := CellOf(e);
      m[c := (if c in m then m[c] else []) + [e]]
  }

  /** The electrons of `es` whose cell is `c`, in their order in `es`. */
  function InCell(es: seq<ElectronRepr>, c: IVec3): seq<ElectronRepr>
    decreases |es|
  {
    if es == [] then []
    else InCell(es[..|es| - 1], c) + (if CellOf(es[|es| - 1]) == c then [es[|es| - 1]] else [])
  }

  lemma {:induction false} InCellMembership(es: seq<ElectronRepr>, c: IVec3)
    ensures forall x :: x in InCell(es, c) <==> x in es && CellOf(x) == c
  {
    if es != [] {
      InCellMembership(es[..|es| - 1], c);
      assert es == es[..|es| - 1] + [es[|es| - 1]];
    }
  }

  /** The bucket of cell `c` in a rebuilt grid holds exactly the electrons
      of that cell, in iteration order, and is never empty; a cell with no
      electron has no bucket. */
  lemma {:induction false} BucketedContents(es: seq<ElectronRepr>, c: IVec3)
    ensures c in Bucketed(es) ==> Bucketed(es)[c] == InCell(es, c) && Bucketed(es)[c] != []
    ensures c !in Bucketed(es) ==> InCell(es, c) == []
  {
    if es != [] {
      BucketedContents(es[..|es| - 1], c);
    }
  }

  /** Sum of the bucket lengths of a grid. */
  ghost function TotalEntries(chunks: Chunks): nat
    decreases chunks.Keys
  {
    if chunks.Keys == {} then 0
    else
      var k :| k in chunks;
      |chunks[k]| + TotalEntries(chunks - {k})
  }

  lemma {:induction false} TotalEntriesRemove(chunks: Chunks, k: IVec3)
    requires k in chunks
    ensures TotalEntries(chunks) == |chunks[k]| + TotalEntries(chunks - {k})
    decreases chunks.Keys
  {
    var j :| j in chunks && TotalEntries(chunks) == |chunks[j]| + TotalEntries(chunks - {j});
    if j != k {
      var rest := chunks - {j};
      TotalEntriesRemove(rest, k);
      TotalEntriesRemove(chunks - {k}, j);
      assert rest - {k} == (chunks - {k}) - {j};
    }
  }

  lemma TotalEntriesPush(chunks: Chunks, c: IVec3, e: ElectronRepr)
    ensures TotalEntries(chunks[c := (if c in chunks then chunks[c] else []) + [e]]) == TotalEntries(chunks) + 1
  {
    var m := chunks[c := (if c in chunks then chunks[c] else []) + [e]];
    TotalEntriesRemove(m, c);
    if c in chunks {
      TotalEntriesRemove(chunks, c);
      assert m - {c} == chunks - {c};
    } else {
      assert m - {c} == chunks;
    }
  }

  /** A rebuild neither loses nor duplicates entries: the bucket lengths add up
      to the number of electrons. */
  lemma {:induction false} BucketedTotal(es: seq<ElectronRepr>)
    ensures TotalEntries(Bucketed(es)) == |es|
  {
    if es != [] {
      BucketedTotal(es[..|es| - 1]);
      TotalEntriesPush(Bucketed(es[..|es| - 1]), CellOf(es[|es| - 1]), es[|es| - 1]);
    }
  }

  lemma BucketedKeyAt(es: seq<ElectronRepr>, c: IVec3)
    ensures c in Bucketed(es) <==> exists i :: 0 <= i < |es| && CellOf(es[i]) == c
  {
    BucketedContents(es, c);
    InCellMembership(es, c);
    if c in Bucketed(es) {
      var x := InCell(es, c)[0];
      assert x in InCell(es, c);
      var i :| 0 <= i < |es| && es[i] == x;
    } else {
      forall i | 0 <= i < |es| ensures CellOf(es[i]) != c {
        assert es[i] in es;
      }
    }
  }

  lemma BucketedMemberAt(es: seq<ElectronRepr>, c: IVec3, x: ElectronRepr)
    requires c in Bucketed(es)
    ensures Bucketed(es)[c] != []
    ensures x in Bucketed(es)[c] <==> x in es && CellOf(x) == c
  {
    BucketedContents(es, c);
    InCellMembership(es, c);
  }

  /** After a rebuild: a cell has a bucket iff some electron lies in it (no
      key of an earlier grid survives), every bucket is non-empty, every entry
      is an electron of the query lying in the bucket's cell. */
  lemma RebuildPartition(es: seq<ElectronRepr>)
    ensures forall c :: c in Bucketed(es) <==> exists i :: 0 <= i < |es| && CellOf(es[i]) == c
    ensures forall c :: c in Bucketed(es) ==> Bucketed(es)[c] != []
    ensures forall c, x :: c in Bucketed(es) && x in Bucketed(es)[c] ==> x in es && CellOf(x) == c
  {
    forall c ensures c in Bucketed(es) <==> exists i :: 0 <= i < |es| && CellOf(es[i]) == c {
      BucketedKeyAt(es, c);
    }
    forall c | c in Bucketed(es) ensures Bucketed(es)[c] != [] {
      BucketedMemberAt(es, c, es[0]);
    }
    forall c, x | c in Bucketed(es) && x in Bucketed(es)[c] ensures x in es && CellOf(x) == c {
      BucketedMemberAt(es, c, x);
    }
  }

  /** After a rebuild every electron of the query is in the bucket of its own
      cell (and, by RebuildPartition, in no other). */
  lemma BucketedHas(es: seq<ElectronRepr>, x: ElectronRepr)
    requires x in es
    ensures CellOf(x) in Bucketed(es) && x in Bucketed(es)[CellOf(x)]
  {
    var i :| 0 <= i < |es| && es[i] == x;
    BucketedKeyAt(es, CellOf(x));
    BucketedMemberAt(es, CellOf(x), x);
  }

  /** The grid resource, rebuilt in place every tick. */
  class ElectronChunks {
    var buckets: Chunks

    constructor ()
      ensures buckets == map[]
    {
      buckets := map[];
    }

    /** Clears the grid, then appends every electron of the query, in
        iteration order, to the bucket of its cell. */
    method Update(electrons: seq<ElectronRepr>)
      modifies this
      ensures buckets == Bucketed(electrons)
    {
      buckets := map[];
      for i := 0 to |electrons|
        invariant buckets == Bucketed(electrons[..i])
      {
        var e := electrons[i];
        var c := WorldPosToChunkPos(e.position);
        var bucket := if c in buckets then buckets[c] else [];
        buckets := buckets[c := bucket + [e]];
        assert electrons[..i + 1][..i] == electrons[..i];
      }
      assert electrons[..|electrons|] == electrons;
    }
  }

  // ---------------------------------------------------------------------
  // Neighbour cells

  function ZRun(x: int, y: int): seq<IVec3>
  {
    [IVec3(x, y, -1), IVec3(x, y, 0), IVec3(x, y, 1)]
  }

  function YRun(x: int): seq<IVec3>
  {
    ZRun(x, -1) + ZRun(x, 0) + ZRun(x, 1)
  }

  /** The 27 triples over {-1, 0, 1}, x outermost and z innermost. */
  function Cube(): seq<IVec3>
  {
    YRun(-1) + YRun(0) + YRun(1)
  }

  function WithoutOrigin(s: seq<IVec3>): seq<IVec3>
  {
    if s == [] then [] else (if s[0] == Origin then [] else [s[0]]) + WithoutOrigin(s[1..])
  }

  /** The offsets of the neighbouring cells, in the order they are generated. */
  function NeighborOffsets(): seq<IVec3>
  {
    WithoutOrigin(Cube())
  }

  lemma {:induction false} WithoutOriginAppend(a: seq<IVec3>, b: seq<IVec3>)
    ensures WithoutOrigin(a + b) == WithoutOrigin(a) + WithoutOrigin(b)
  {
    if a != [] {
      WithoutOriginAppend(a[1..], b);
      assert (a + b)[0] == a[0];
      assert (a + b)[1..] == a[1..] + b;
    } else {
      assert a + b == b;
    }
  }

  lemma {:induction false} WithoutOriginMembership(s: seq<IVec3>)
    ensures forall o :: o in WithoutOrigin(s) <==> o in s && o != Origin
  {
    if s != [] {
      WithoutOriginMembership(s[1..]);
      assert s == [s[0]] + s[1..];
    }
  }

  lemma WithoutOriginZRun(x: int, y: int)
    ensures WithoutOrigin(ZRun(x, y)) == if x == 0 && y == 0 then [IVec3(0, 0, -1), IVec3(0, 0, 1)] else ZRun(x, y)
  {
    var s := ZRun(x, y);
    assert s[1..][1..][1..] == [];
    assert WithoutOrigin(s[1..][1..]) == (if s[2] == Origin then [] else [s[2]]);
  }

  lemma WithoutOriginYRun(x: int)
    ensures |WithoutOrigin(YRun(x))| == if x == 0 then 8 else 9
  {
    WithoutOriginAppend(ZRun(x, -1) + ZRun(x, 0), ZRun(x, 1));
    WithoutOriginAppend(ZRun(x, -1), ZRun(x, 0));
    WithoutOriginZRun(x, -1);
    WithoutOriginZRun(x, 0);
    WithoutOriginZRun(x, 1);
  }

  lemma NeighborOffsetsLength()
    ensures |NeighborOffsets()| == 26
  {
    WithoutOriginAppend(YRun(-1) + YRun(0), YRun(1));
    WithoutOriginAppend(YRun(-1), YRun(0));
    WithoutOriginYRun(-1);
    WithoutOriginYRun(0);
    WithoutOriginYRun(1);
  }

  lemma CubeMembership(o: IVec3)
    ensures o in Cube() <==> -1 <= o.x <= 1 && -1 <= o.y <= 1 && -1 <= o.z <= 1
  {
    if -1 <= o.x <= 1 && -1 <= o.y <= 1 && -1 <= o.z <= 1 {
      assert o in ZRun(o.x, o.y);
      assert o in YRun(o.x);
    }
  }

  lemma NeighborOffsetAt(o: IVec3)
    ensures o in NeighborOffsets() <==> -1 <= o.x <= 1 && -1 <= o.y <= 1 && -1 <= o.z <= 1 && o != Origin
  {
    WithoutOriginMembership(Cube());
    CubeMembership(o);
  }

  /** The neighbour offsets are exactly the 26 triples over {-1, 0, 1} other
      than the origin, and they are closed under negation. */
  lemma NeighborOffsetsExact()
    ensures |NeighborOffsets()| == 26
    ensures forall o :: o in NeighborOffsets() <==> -1 <= o.x <= 1 && -1 <= o.y <= 1 && -1 <= o.z <= 1 && o != Origin
    ensures forall o :: o in NeighborOffsets() ==> CellNeg(o) in NeighborOffsets()
  {
    NeighborOffsetsLength();
    forall o: IVec3 ensures o in NeighborOffsets() <==> -1 <= o.x <= 1 && -1 <= o.y <= 1 && -1 <= o.z <= 1 && o != Origin {
      NeighborOffsetAt(o);
    }
    forall o | o in NeighborOffsets() ensures CellNeg(o) in NeighborOffsets() {
      NeighborOffsetAt(o);
      NeighborOffsetAt(CellNeg(o));
    }
  }

  /** The buckets of the existing neighbour cells of `c`, in offset order. */
  function NeighborBuckets(chunks: Chunks, c: IVec3, offsets: seq<IVec3>): seq<seq<ElectronRepr>>
  {
    if offsets == [] then []
    else
      var n := CellAdd(c, offsets[0]);
      (if n in chunks then [chunks[n]] else []) + NeighborBuckets(chunks, c, offsets[1..])
  }

  /** The neighbour list holds only buckets that exist in the grid: one per
      offset whose cell has a bucket. */
  lemma {:induction false} NeighborBucketsExisting(chunks: Chunks, c: IVec3, offsets: seq<IVec3>)
    ensures forall b :: b in NeighborBuckets(chunks, c, offsets) <==>
      exists o :: o in offsets && CellAdd(c, o) in chunks && chunks[CellAdd(c, o)] == b
  {
    if offsets != [] {
      NeighborBucketsExisting(chunks, c, offsets[1..]);
      assert offsets == [offsets[0]] + offsets[1..];
    }
  }

  function Flatten(bs: seq<seq<ElectronRepr>>): seq<ElectronRepr>
  {
    if bs == [] then [] else bs[0] + Flatten(bs[1..])
  }

  lemma {:induction false} FlattenMembership(bs: seq<seq<ElectronRepr>>)
    ensures forall x :: x in Flatten(bs) <==> exists b :: b in bs && x in b
  {
    if bs != [] {
      FlattenMembership(bs[1..]);
      assert bs == [bs[0]] + bs[1..];
    }
  }

  /** The entries of `bucket` whose id differs from `id`, in order. */
  function OthersInBucket(bucket: seq<ElectronRepr>, id: nat): seq<ElectronRepr>
  {
    if bucket == [] then []
    else (if bucket[0].id != id then [bucket[0]] else []) + OthersInBucket(bucket[1..], id)
  }

  lemma {:induction false} OthersInBucketMembership(bucket: seq<ElectronRepr>, id: nat)
    ensures forall x :: x in OthersInBucket(bucket, id) <==> x in bucket && x.id != id
  {
    if bucket != [] {
      OthersInBucketMembership(bucket[1..], id);
      assert bucket == [bucket[0]] + bucket[1..];
    }
  }

  /** The partners of electron `e` of cell `c`, in the order the repulsion
      visits them: every entry of the existing neighbour buckets, then the
      entries of the own bucket with another id. */
  function Candidates(chunks: Chunks, c: IVec3, e: ElectronRepr): seq<ElectronRepr>
    requires c in chunks
  {
    Flatten(NeighborBuckets(chunks, c, NeighborOffsets())) + OthersInBucket(chunks[c], e.id)
  }

  /** A partner is an entry of an existing neighbour bucket, or an entry of
      the own bucket with another id, and nothing else. */
  lemma CandidatesMembership(chunks: Chunks, c: IVec3, e: ElectronRepr)
    requires c in chunks
    ensures forall x :: x in Candidates(chunks, c, e) <==>
      InNeighborBucket(chunks, c, x) || (x in chunks[c] && x.id != e.id)
  {
    forall x ensures x in Candidates(chunks, c, e) <==> InNeighborBucket(chunks, c, x) || (x in chunks[c] && x.id != e.id) {
      CandidateAt(chunks, c, e, x);
    }
  }

  /** `x` is an entry of the bucket of one of the 26 neighbour cells of `c`. */
  ghost predicate InNeighborBucket(chunks: Chunks, c: IVec3, x: ElectronRepr)
  {
    exists o :: o in NeighborOffsets() && CellAdd(c, o) in chunks && x in chunks[CellAdd(c, o)]
  }

  lemma CandidateAt(chunks: Chunks, c: IVec3, e: ElectronRepr, x: ElectronRepr)
    requires c in chunks
    ensures x in Candidates(chunks, c, e) <==> InNeighborBucket(chunks, c, x) || (x in chunks[c] && x.id != e.id)
  {
    var bs := NeighborBuckets(chunks, c, NeighborOffsets());
    FlattenMembership(bs);
    NeighborBucketsExisting(chunks, c, NeighborOffsets());
    OthersInBucketMembership(chunks[c], e.id);
    if x in Flatten(bs) {
      var b :| b in bs && x in b;
      var o :| o in NeighborOffsets() && CellAdd(c, o) in chunks && chunks[CellAdd(c, o)] == b;
    }
    if InNeighborBucket(chunks, c, x) {
      var o :| o in NeighborOffsets() && CellAdd(c, o) in chunks && x in chunks[CellAdd(c, o)];
      assert chunks[CellAdd(c, o)] in bs;
    }
  }

  /** Every entry sits in the bucket of its own cell. */
  ghost predicate WellKeyed(chunks: Chunks)
  {
    forall c, x :: c in chunks && x in chunks[c] ==> CellOf(x) == c
  }

  /** An id occurs at most once in the whole grid. */
  ghost predicate GridIdsUnique(chunks: Chunks)
  {
    forall k1, k2, i, j ::
      (k1 in chunks && k2 in chunks && 0 <= i < |chunks[k1]| && 0 <= j < |chunks[k2]| &&
       chunks[k1][i].id == chunks[k2][j].id) ==> k1 == k2 && i == j
  }

  /** Distinct entities have distinct ids. */
  ghost predicate UniqueIds(es: seq<ElectronRepr>)
  {
    forall i, j :: 0 <= i < j < |es| ==> es[i].id != es[j].id
  }

  /** With distinct ids, an id identifies the electron. */
  lemma SameIdSameElectron(es: seq<ElectronRepr>, x: ElectronRepr, y: ElectronRepr)
    requires UniqueIds(es)
    requires x in es && y in es && x.id == y.id
    ensures x == y
  {
    var p :| 0 <= p < |es| && es[p] == x;
    var q :| 0 <= q < |es| && es[q] == y;
  }

  lemma {:induction false} InCellUniqueIds(es: seq<ElectronRepr>, c: IVec3)
    requires UniqueIds(es)
    ensures UniqueIds(InCell(es, c))
  {
    if es != [] {
      var p := es[..|es| - 1];
      InCellUniqueIds(p, c);
      InCellMembership(p, c);
      if CellOf(es[|es| - 1]) == c {
        var q := InCell(p, c);
        forall i | 0 <= i < |q| ensures q[i].id != es[|es| - 1].id {
          assert q[i] in q;
          var k :| 0 <= k < |p| && p[k] == q[i];
        }
      }
    }
  }

  /** A grid rebuilt from electrons with distinct ids keys each entry by its
      cell and holds each id once. */
  lemma BucketedWellFormed(es: seq<ElectronRepr>)
    requires UniqueIds(es)
    ensures WellKeyed(Bucketed(es))
    ensures GridIdsUnique(Bucketed(es))
  {
    var chunks: Chunks := Bucketed(es);
    RebuildPartition(es);
    forall k1: IVec3, k2: IVec3, i: int, j: int |
      k1 in chunks && k2 in chunks && 0 <= i < |chunks[k1]| && 0 <= j < |chunks[k2]| &&
      chunks[k1][i].id == chunks[k2][j].id
      ensures k1 == k2 && i == j
    {
      var x, y := chunks[k1][i], chunks[k2][j];
      assert x in chunks[k1] && y in chunks[k2];
      SameIdSameElectron(es, x, y);
      BucketedContents(es, k1);
      InCellUniqueIds(es, k1);
    }
  }

  lemma CandidateSound(es: seq<ElectronRepr>, e: ElectronRepr, x: ElectronRepr)
    requires UniqueIds(es) && e in es
    requires CellOf(e) in Bucketed(es) && x in Candidates(Bucketed(es), CellOf(e), e)
    ensures x in es && x.id != e.id && Adjacent(CellOf(e), CellOf(x))
  {
    var chunks: Chunks := Bucketed(es);
    var c := CellOf(e);
    CandidateAt(chunks, c, e, x);
    if x in chunks[c] && x.id != e.id {
      BucketedMemberAt(es, c, x);
    } else {
      var o :| o in NeighborOffsets() && CellAdd(c, o) in chunks && x in chunks[CellAdd(c, o)];
      NeighborEntrySound(es, e, o, x);
    }
  }

  /** An entry of a neighbour bucket of a rebuilt grid is another electron of
      the query, in a cell adjacent to the electron's own. */
  lemma NeighborEntrySound(es: seq<ElectronRepr>, e: ElectronRepr, o: IVec3, x: ElectronRepr)
    requires UniqueIds(es) && e in es
    requires o in NeighborOffsets()
    requires CellAdd(CellOf(e), o) in Bucketed(es) && x in Bucketed(es)[CellAdd(CellOf(e), o)]
    ensures x in es && x.id != e.id && Adjacent(CellOf(e), CellOf(x))
  {
    var d := CellAdd(CellOf(e), o);
    NeighborOffsetAt(o);
    BucketedMemberAt(es, d, x);
    assert CellOf(x) == d;
    if x.id == e.id {
      SameIdSameElectron(es, x, e);
      assert false;
    }
  }

  lemma CandidateComplete(es: seq<ElectronRepr>, e: ElectronRepr, x: ElectronRepr)
    requires UniqueIds(es) && e in es
    requires x in es && x.id != e.id && Adjacent(CellOf(e), CellOf(x))
    ensures CellOf(e) in Bucketed(es) && x in Candidates(Bucketed(es), CellOf(e), e)
  {
    var chunks: Chunks := Bucketed(es);
    var c := CellOf(e);
    BucketedHas(es, e);
    BucketedHas(es, x);
    CandidateAt(chunks, c, e, x);
    if CellOf(x) != c {
      AdjacentBucket(chunks, c, CellOf(x), x);
    }
  }

  /** Two coordinates at most one cell width apart have cell indices that
      differ by at most one. */
  lemma CloseAdjacentAxis(p: real, q: real)
    requires -CellSize <= q - p <= CellSize
    ensures -1 <= DivEuclid(q) - DivEuclid(p) <= 1
  {
    DivEuclidBounds(p);
    DivEuclidBounds(q);
  }

  /** Coordinates in cells that differ by at most one are less than two cell
      widths apart. */
  lemma AdjacentCloseAxis(p: real, q: real)
    requires -1 <= DivEuclid(q) - DivEuclid(p) <= 1
    ensures -2.0 * CellSize < q - p < 2.0 * CellSize
  {
    DivEuclidBounds(p);
    DivEuclidBounds(q);
  }

  /** Grid completeness in terms of distance: on a rebuilt grid, every other
      electron at most one cell width away on every axis is a partner. */
  lemma CloseIsPartner(es: seq<ElectronRepr>, e: ElectronRepr, x: ElectronRepr)
    requires UniqueIds(es) && e in es
    requires x in es && x.id != e.id
    requires -CellSize <= x.position.x - e.position.x <= CellSize
    requires -CellSize <= x.position.y - e.position.y <= CellSize
    requires -CellSize <= x.position.z - e.position.z <= CellSize
    ensures CellOf(e) in Bucketed(es) && x in Candidates(Bucketed(es), CellOf(e), e)
  {
    CloseAdjacentAxis(e.position.x, x.position.x);
    CloseAdjacentAxis(e.position.y, x.position.y);
    CloseAdjacentAxis(e.position.z, x.position.z);
    CandidateComplete(es, e, x);
  }

  /** Grid soundness in terms of distance: on a rebuilt grid, every partner
      is less than two cell widths away on every axis. */
  lemma PartnerIsNear(es: seq<ElectronRepr>, e: ElectronRepr, x: ElectronRepr)
    requires UniqueIds(es) && e in es
    requires CellOf(e) in Bucketed(es) && x in Candidates(Bucketed(es), CellOf(e), e)
    ensures -2.0 * CellSize < x.position.x - e.position.x < 2.0 * CellSize
    ensures -2.0 * CellSize < x.position.y - e.position.y < 2.0 * CellSize
    ensures -2.0 * CellSize < x.position.z - e.position.z < 2.0 * CellSize
  {
    CandidateSound(es, e, x);
    AdjacentCloseAxis(e.position.x, x.position.x);
    AdjacentCloseAxis(e.position.y, x.position.y);
    AdjacentCloseAxis(e.position.z, x.position.z);
  }

  /** An entry of the bucket of an adjacent cell is in a neighbour bucket. */
  lemma AdjacentBucket(chunks: Chunks, c: IVec3, d: IVec3, x: ElectronRepr)
    requires d in chunks && x in chunks[d]
    requires Adjacent(c, d) && d != c
    ensures InNeighborBucket(chunks, c, x)
  {
    var o := IVec3(d.x - c.x, d.y - c.y, d.z - c.z);
    assert CellAdd(c, o) == d;
    NeighborOffsetAt(o);
  }

  /** With a rebuilt grid, the partners of an electron are exactly the other
      electrons whose cell is its own cell or one of the 26 around it: the
      electron itself is never its partner, and no electron in reach is
      missed. */
  lemma CandidatesExact(es: seq<ElectronRepr>, e: ElectronRepr)
    requires UniqueIds(es)
    requires e in es
    ensures CellOf(e) in Bucketed(es)
    ensures forall x :: x in Candidates(Bucketed(es), CellOf(e), e) <==>
      x in es && x.id != e.id && Adjacent(CellOf(e), CellOf(x))
  {
    BucketedHas(es, e);
    forall x
      ensures x in Candidates(Bucketed(es), CellOf(e), e) <==> x in es && x.id != e.id && Adjacent(CellOf(e), CellOf(x))
    {
      if x in Candidates(Bucketed(es), CellOf(e), e) {
        CandidateSound(es, e, x);
      }
      if x in es && x.id != e.id && Adjacent(CellOf(e), CellOf(x)) {
        CandidateComplete(es, e, x);
      }
    }
  }

  /** Partnership is symmetric: the offsets are closed under negation and the
      own-bucket rule only compares ids. */
  lemma CandidateSymmetry(chunks: Chunks, a: ElectronRepr, b: ElectronRepr)
    requires WellKeyed(chunks)
    requires CellOf(a) in chunks && a in chunks[CellOf(a)]
    requires CellOf(b) in chunks && b in chunks[CellOf(b)]
    requires b in Candidates(chunks, CellOf(a), a)
    ensures a in Candidates(chunks, CellOf(b), b)
  {
    var ca, cb := CellOf(a), CellOf(b);
    CandidateAt(chunks, ca, a, b);
    CandidateAt(chunks, cb, b, a);
    if !(b in chunks[ca] && b.id != a.id) {
      var o :| o in NeighborOffsets() && CellAdd(ca, o) in chunks && b in chunks[CellAdd(ca, o)];
      assert cb == CellAdd(ca, o);
      NeighborBack(chunks, ca, o, a);
    }
  }

  /** If cell `c + o` is a neighbour of `c`, then `c` is a neighbour of `c + o`. */
  lemma NeighborBack(chunks: Chunks, c: IVec3, o: IVec3, a: ElectronRepr)
    requires o in NeighborOffsets()
    requires c in chunks && a in chunks[c]
    ensures InNeighborBucket(chunks, CellAdd(c, o), a)
  {
    var back := CellNeg(o);
    NeighborOffsetAt(o);
    NeighborOffsetAt(back);
    CellAddNeg(c, o);
    assert CellAdd(CellAdd(c, o), back) == c;
  }

  // ---------------------------------------------------------------------
  // Each partner once

  /** No element occurs twice. */
  predicate Distinct(s: seq<IVec3>)
  {
    forall i, j :: 0 <= i < j < |s| ==> s[i] != s[j]
  }

  lemma DistinctConcat(a: seq<IVec3>, b: seq<IVec3>)
    requires Distinct(a) && Distinct(b)
    requires forall o :: o in a ==> o !in b
    ensures Distinct(a + b)
  {
    forall i, j | 0 <= i < j < |a + b| ensures (a + b)[i] != (a + b)[j] {
      if j < |a| {
        assert (a + b)[i] == a[i] && (a + b)[j] == a[j];
      } else if |a| <= i {
        assert (a + b)[i] == b[i - |a|] && (a + b)[j] == b[j - |a|];
      } else {
        assert (a + b)[i] == a[i] && a[i] in a;
        assert (a + b)[j] == b[j - |a|] && b[j - |a|] in b;
      }
    }
  }

  lemma YRunDistinct(x: int)
    ensures Distinct(YRun(x))
    ensures forall o :: o in YRun(x) ==> o.x == x
  {
    DistinctConcat(ZRun(x, -1), ZRun(x, 0));
    DistinctConcat(ZRun(x, -1) + ZRun(x, 0), ZRun(x, 1));
  }

  lemma CubeDistinct()
    ensures Distinct(Cube())
  {
    YRunDistinct(-1);
    YRunDistinct(0);
    YRunDistinct(1);
    DistinctConcat(YRun(-1), YRun(0));
    DistinctConcat(YRun(-1) + YRun(0), YRun(1));
  }

  lemma {:induction false} WithoutOriginDistinct(s: seq<IVec3>)
    requires Distinct(s)
    ensures Distinct(WithoutOrigin(s))
  {
    if s != [] {
      var rest := s[1..];
      assert Distinct(rest) by {
        forall i, j | 0 <= i < j < |rest| ensures rest[i] != rest[j] {
          assert rest[i] == s[i + 1] && rest[j] == s[j + 1];
        }
      }
      WithoutOriginDistinct(rest);
      WithoutOriginMembership(rest);
      forall o | o in rest ensures o != s[0] {
        var k :| 0 <= k < |rest| && rest[k] == o;
        assert s[k + 1] == o;
      }
      DistinctConcat(if s[0] == Origin then [] else [s[0]], WithoutOrigin(rest));
    }
  }

  /** The generated offsets are pairwise different, so no neighbour bucket is
      listed twice. */
  lemma NeighborOffsetsDistinct()
    ensures Distinct(NeighborOffsets())
  {
    CubeDistinct();
    WithoutOriginDistinct(Cube());
  }

  lemma UniqueIdsConcat(a: seq<ElectronRepr>, b: seq<ElectronRepr>)
    requires UniqueIds(a) && UniqueIds(b)
    requires forall x, y :: x in a && y in b ==> x.id != y.id
    ensures UniqueIds(a + b)
  {
    forall i, j | 0 <= i < j < |a + b| ensures (a + b)[i].id != (a + b)[j].id {
      if j < |a| {
        assert (a + b)[i] == a[i] && (a + b)[j] == a[j];
      } else if |a| <= i {
        assert (a + b)[i] == b[i - |a|] && (a + b)[j] == b[j - |a|];
      } else {
        assert (a + b)[i] == a[i] && a[i] in a;
        assert (a + b)[j] == b[j - |a|] && b[j - |a|] in b;
      }
    }
  }

  /** Entries of the buckets of two different cells have different ids. */
  lemma GridOtherEntry(chunks: Chunks, k1: IVec3, k2: IVec3, x: ElectronRepr, y: ElectronRepr)
    requires GridIdsUnique(chunks) && k1 in chunks && k2 in chunks && k1 != k2
    requires x in chunks[k1] && y in chunks[k2]
    ensures x.id != y.id
  {
    var i :| 0 <= i < |chunks[k1]| && chunks[k1][i] == x;
    var j :| 0 <= j < |chunks[k2]| && chunks[k2][j] == y;
    GridOtherBucketOtherId(chunks, k1, k2, i, j);
  }

  lemma {:induction false} OthersInBucketUniqueIds(bucket: seq<ElectronRepr>, id: nat)
    requires UniqueIds(bucket)
    ensures UniqueIds(OthersInBucket(bucket, id))
  {
    if bucket != [] {
      var rest := bucket[1..];
      assert UniqueIds(rest) by {
        forall i, j | 0 <= i < j < |rest| ensures rest[i].id != rest[j].id {
          assert rest[i] == bucket[i + 1] && rest[j] == bucket[j + 1];
        }
      }
      OthersInBucketUniqueIds(rest, id);
      OthersInBucketMembership(rest, id);
      forall x, y | x in (if bucket[0].id != id then [bucket[0]] else []) && y in OthersInBucket(rest, id)
        ensures x.id != y.id
      {
        var k :| 0 <= k < |rest| && rest[k] == y;
        assert bucket[k + 1] == y;
      }
      UniqueIdsConcat(if bucket[0].id != id then [bucket[0]] else [], OthersInBucket(rest, id));
    }
  }

  /** Over distinct offsets, the entries of the listed neighbour buckets have
      distinct ids. */
  lemma {:induction false} NeighborEntriesUniqueIds(chunks: Chunks, c: IVec3, offsets: seq<IVec3>)
    requires GridIdsUnique(chunks) && Distinct(offsets)
    ensures UniqueIds(Flatten(NeighborBuckets(chunks, c, offsets)))
  {
    if offsets != [] {
      var rest := offsets[1..];
      var k := CellAdd(c, offsets[0]);
      assert Distinct(rest) by {
        forall i, j | 0 <= i < j < |rest| ensures rest[i] != rest[j] {
          assert rest[i] == offsets[i + 1] && rest[j] == offsets[j + 1];
        }
      }
      NeighborEntriesUniqueIds(chunks, c, rest);
      var tail := NeighborBuckets(chunks, c, rest);
      if k in chunks {
        assert NeighborBuckets(chunks, c, offsets) == [chunks[k]] + tail;
        assert Flatten([chunks[k]] + tail) == chunks[k] + Flatten(tail);
        GridBucketUniqueIds(chunks, k);
        FlattenMembership(tail);
        NeighborBucketsExisting(chunks, c, rest);
        forall x, y | x in chunks[k] && y in Flatten(tail) ensures x.id != y.id {
          var b :| b in tail && y in b;
          var o :| o in rest && CellAdd(c, o) in chunks && chunks[CellAdd(c, o)] == b;
          var m :| 0 <= m < |rest| && rest[m] == o;
          assert offsets[m + 1] == o && offsets[0] != o;
          GridOtherEntry(chunks, k, CellAdd(c, o), x, y);
        }
        UniqueIdsConcat(chunks[k], Flatten(tail));
      } else {
        assert NeighborBuckets(chunks, c, offsets) == tail;
      }
    }
  }

  /** On a grid where each id occurs once, an electron's partner sequence
      lists every partner exactly once, so no impulse is counted twice. */
  lemma CandidatesUniqueIds(chunks: Chunks, c: IVec3, e: ElectronRepr)
    requires GridIdsUnique(chunks) && c in chunks
    ensures UniqueIds(Candidates(chunks, c, e))
  {
    var near := Flatten(NeighborBuckets(chunks, c, NeighborOffsets()));
    NeighborOffsetsDistinct();
    NeighborEntriesUniqueIds(chunks, c, NeighborOffsets());
    GridBucketUniqueIds(chunks, c);
    OthersInBucketUniqueIds(chunks[c], e.id);
    OthersInBucketMembership(chunks[c], e.id);
    FlattenMembership(NeighborBuckets(chunks, c, NeighborOffsets()));
    NeighborBucketsExisting(chunks, c, NeighborOffsets());
    forall x, y | x in near && y in OthersInBucket(chunks[c], e.id) ensures x.id != y.id {
      var b :| b in NeighborBuckets(chunks, c, NeighborOffsets()) && x in b;
      var o :| o in NeighborOffsets() && CellAdd(c, o) in chunks && chunks[CellAdd(c, o)] == b;
      NeighborEntryElsewhere(chunks, c, x, y);
    }
    UniqueIdsConcat(near, OthersInBucket(chunks[c], e.id));
  }

  lemma NeighborEntryElsewhere(chunks: Chunks, c: IVec3, x: ElectronRepr, y: ElectronRepr)
    requires GridIdsUnique(chunks) && c in chunks
    requires InNeighborBucket(chunks, c, x) && y in chunks[c]
    ensures x.id != y.id
  {
    var o :| o in NeighborOffsets() && CellAdd(c, o) in chunks && x in chunks[CellAdd(c, o)];
    NeighborOffsetAt(o);
    GridOtherEntry(chunks, CellAdd(c, o), c, x, y);
  }

  /** After a rebuild from electrons with distinct ids, each electron's
      partner sequence holds every partner once. */
  lemma RebuiltCandidatesOnce(es: seq<ElectronRepr>, e: ElectronRepr)
    requires UniqueIds(es) && e in es
    ensures CellOf(e) in Bucketed(es) && UniqueIds(Candidates(Bucketed(es), CellOf(e), e))
  {
    BucketedHas(es, e);
    BucketedWellFormed(es);
    CandidatesUniqueIds(Bucketed(es), CellOf(e), e);
  }

  // ---------------------------------------------------------------------
  // Repulsion

  /** Velocity `v` after adding the impulse of every partner in `others`, in
      order; `force` maps the position of a partner relative to the electron
      to the force it exerts. */
  function Accumulate(v: Vec3, others: seq<ElectronRepr>, pos: Vec3, force: Vec3 -> Vec3, dt: real): Vec3
    decreases |others|
  {
    if others == [] then v
    else
      var last := others[|others| - 1];
      Add(Accumulate(v, others[..|others| - 1], pos, force, dt), Scale(force(Sub(last.position, pos)), dt))
  }

  /** The body of electron `e` of cell `c` after its repulsion step. */
  function Repelled(body: Body, chunks: Chunks, c: IVec3, e: ElectronRepr, force: Vec3 -> Vec3, dt: real): Body
    requires c in chunks
  {
    body.(velocity := Accumulate(body.velocity, Candidates(chunks, c, e), e.position, force, dt))
  }

  /** One electron's iteration: skipped when its id no longer resolves. */
  function RepelElectron(bodies: map<nat, Body>, chunks: Chunks, c: IVec3, e: ElectronRepr, force: Vec3 -> Vec3, dt: real): map<nat, Body>
    requires c in chunks
  {
    if e.id in bodies then bodies[e.id := Repelled(bodies[e.id], chunks, c, e, force, dt)] else bodies
  }

  /** The iterations over the entries of bucket `c`, in order. */
  function RepelBucket(bodies: map<nat, Body>, chunks: Chunks, c: IVec3, entries: seq<ElectronRepr>, force: Vec3 -> Vec3, dt: real): map<nat, Body>
    requires c in chunks
    decreases |entries|
  {
    if entries == [] then bodies
    else RepelElectron(RepelBucket(bodies, chunks, c, entries[..|entries| - 1], force, dt), chunks, c, entries[|entries| - 1], force, dt)
  }

  /** The iterations over the buckets keyed by `order`, in order. */
  function RepelAll(bodies: map<nat, Body>, chunks: Chunks, order: seq<IVec3>, force: Vec3 -> Vec3, dt: real): map<nat, Body>
    requires forall k :: k in order ==> k in chunks
    decreases |order|
  {
    if order == [] then bodies
    else
      var k := order[|order| - 1];
      RepelBucket(RepelAll(bodies, chunks, order[..|order| - 1], force, dt), chunks, k, chunks[k], force, dt)
  }

  /** Lists every key of `chunks` exactly once (a hash map's iteration order). */
  ghost predicate IteratesKeys(chunks: Chunks, order: seq<IVec3>)
  {
    (forall k :: k in order <==> k in chunks) &&
    (forall i, j :: 0 <= i < j < |order| ==> order[i] != order[j])
  }

  /** Within one bucket of distinct ids, the entry at index `j`, when its id
      resolves, gets exactly its own repulsion step, applied to its body as it
      was before the bucket was visited. */
  lemma {:induction false} RepelBucketAt(bodies: map<nat, Body>, chunks: Chunks, c: IVec3, entries: seq<ElectronRepr>, j: nat, force: Vec3 -> Vec3, dt: real)
    requires c in chunks
    requires UniqueIds(entries)
    requires j < |entries| && entries[j].id in bodies
    ensures var r := RepelBucket(bodies, chunks, c, entries, force, dt);
      entries[j].id in r && r[entries[j].id] == Repelled(bodies[entries[j].id], chunks, c, entries[j], force, dt)
    decreases |entries|
  {
    var n := |entries| - 1;
    var p := entries[..n];
    var id := entries[j].id;
    RepelBucketFrame(bodies, chunks, c, p, force, dt);
    if j == n {
      forall i | 0 <= i < |p| ensures p[i].id != id {
        assert p[i] == entries[i];
      }
      RepelBucketUntouched(bodies, chunks, c, p, id, force, dt);
    } else {
      assert UniqueIds(p);
      assert p[j] == entries[j];
      RepelBucketAt(bodies, chunks, c, p, j, force, dt);
      assert entries[n].id != id;
    }
  }

  /** Whether `id` is an entry of one of the buckets keyed by `order`. */
  ghost predicate InBuckets(chunks: Chunks, order: seq<IVec3>, id: nat)
    requires forall k :: k in order ==> k in chunks
  {
    exists p, j :: 0 <= p < |order| && 0 <= j < |chunks[order[p]]| && chunks[order[p]][j].id == id
  }

  lemma GridBucketUniqueIds(chunks: Chunks, k: IVec3)
    requires GridIdsUnique(chunks) && k in chunks
    ensures UniqueIds(chunks[k])
  {
  }

  lemma GridOtherBucketOtherId(chunks: Chunks, k1: IVec3, k2: IVec3, i: int, j: int)
    requires GridIdsUnique(chunks) && k1 in chunks && k2 in chunks && k1 != k2
    requires 0 <= i < |chunks[k1]| && 0 <= j < |chunks[k2]|
    ensures chunks[k1][i].id != chunks[k2][j].id
  {
  }

  /** The repulsion changes velocities only: no body is added or removed and
      no translation changes. */
  lemma {:induction false} RepelAllFrame(bodies: map<nat, Body>, chunks: Chunks, order: seq<IVec3>, force: Vec3 -> Vec3, dt: real)
    requires forall k :: k in order ==> k in chunks
    ensures var r := RepelAll(bodies, chunks, order, force, dt);
      r.Keys == bodies.Keys && forall id :: id in bodies ==> r[id].translation == bodies[id].translation
    decreases |order|
  {
    if order != [] {
      var q := order[..|order| - 1];
      var k := order[|order| - 1];
      RepelAllFrame(bodies, chunks, q, force, dt);
      RepelBucketFrame(RepelAll(bodies, chunks, q, force, dt), chunks, k, chunks[k], force, dt);
    }
  }

  lemma {:induction false} RepelBucketFrame(bodies: map<nat, Body>, chunks: Chunks, c: IVec3, entries: seq<ElectronRepr>, force: Vec3 -> Vec3, dt: real)
    requires c in chunks
    ensures var r := RepelBucket(bodies, chunks, c, entries, force, dt);
      r.Keys == bodies.Keys && forall id :: id in bodies ==> r[id].translation == bodies[id].translation
    decreases |entries|
  {
    if entries != [] {
      RepelBucketFrame(bodies, chunks, c, entries[..|entries| - 1], force, dt);
    }
  }

  /** A body whose id is in none of the visited buckets is left unchanged. */
  lemma {:induction false} RepelAllUntouched(bodies: map<nat, Body>, chunks: Chunks, order: seq<IVec3>, id: nat, force: Vec3 -> Vec3, dt: real)
    requires forall k :: k in order ==> k in chunks
    requires id in bodies && !InBuckets(chunks, order, id)
    ensures var r := RepelAll(bodies, chunks, order, force, dt);
      id in r && r[id] == bodies[id]
    decreases |order|
  {
    if order != [] {
      var n := |order| - 1;
      var q := order[..n];
      var k := order[n];
      assert !InBuckets(chunks, q, id) by {
        forall p, j | 0 <= p < |q| && 0 <= j < |chunks[q[p]]| ensures chunks[q[p]][j].id != id {
          assert q[p] == order[p];
        }
      }
      RepelAllUntouched(bodies, chunks, q, id, force, dt);
      RepelAllFrame(bodies, chunks, q, force, dt);
      var mid := RepelAll(bodies, chunks, q, force, dt);
      forall j | 0 <= j < |chunks[k]| ensures chunks[k][j].id != id {
        assert order[n] == k;
      }
      RepelBucketUntouched(mid, chunks, k, chunks[k], id, force, dt);
    }
  }

  lemma {:induction false} RepelBucketUntouched(bodies: map<nat, Body>, chunks: Chunks, c: IVec3, entries: seq<ElectronRepr>, id: nat, force: Vec3 -> Vec3, dt: real)
    requires c in chunks
    requires id in bodies && forall j :: 0 <= j < |entries| ==> entries[j].id != id
    ensures var r := RepelBucket(bodies, chunks, c, entries, force, dt);
      id in r && r[id] == bodies[id]
    decreases |entries|
  {
    if entries != [] {
      RepelBucketFrame(bodies, chunks, c, entries[..|entries| - 1], force, dt);
      RepelBucketUntouched(bodies, chunks, c, entries[..|entries| - 1], id, force, dt);
    }
  }

  /** The entries of the last visited bucket do not occur in the earlier ones. */
  lemma LastBucketNew(chunks: Chunks, order: seq<IVec3>, j: int)
    requires forall k :: k in order ==> k in chunks
    requires forall i, i' :: 0 <= i < i' < |order| ==> order[i] != order[i']
    requires GridIdsUnique(chunks)
    requires order != [] && 0 <= j < |chunks[order[|order| - 1]]|
    ensures !InBuckets(chunks, order[..|order| - 1], chunks[order[|order| - 1]][j].id)
  {
    var n := |order| - 1;
    var q := order[..n];
    forall p', j' | 0 <= p' < |q| && 0 <= j' < |chunks[q[p']]|
      ensures chunks[q[p']][j'].id != chunks[order[n]][j].id
    {
      assert q[p'] == order[p'] && order[p'] != order[n];
      GridOtherBucketOtherId(chunks, q[p'], order[n], j', j);
    }
  }

  /** The entry at index `j` of the bucket visited `p`-th gets exactly its own
      repulsion step, applied to its body as it was before the whole pass. */
  lemma {:induction false} RepelAllAt(bodies: map<nat, Body>, chunks: Chunks, order: seq<IVec3>, p: nat, j: nat, force: Vec3 -> Vec3, dt: real)
    requires forall k :: k in order ==> k in chunks
    requires forall i, i' :: 0 <= i < i' < |order| ==> order[i] != order[i']
    requires GridIdsUnique(chunks)
    requires p < |order| && j < |chunks[order[p]]| && chunks[order[p]][j].id in bodies
    ensures var r := RepelAll(bodies, chunks, order, force, dt);
      var x := chunks[order[p]][j];
      x.id in r && r[x.id] == Repelled(bodies[x.id], chunks, order[p], x, force, dt)
    decreases |order|
  {
    var n := |order| - 1;
    var q := order[..n];
    var k := order[n];
    var x := chunks[order[p]][j];
    RepelAllFrame(bodies, chunks, q, force, dt);
    var mid := RepelAll(bodies, chunks, q, force, dt);
    if p == n {
      LastBucketNew(chunks, order, j);
      RepelAllUntouched(bodies, chunks, q, x.id, force, dt);
      GridBucketUniqueIds(chunks, k);
      RepelBucketAt(mid, chunks, k, chunks[k], j, force, dt);
    } else {
      assert q[p] == order[p];
      RepelAllAt(bodies, chunks, q, p, j, force, dt);
      forall j' | 0 <= j' < |chunks[k]| ensures chunks[k][j'].id != x.id {
        GridOtherBucketOtherId(chunks, k, order[p], j', j);
      }
      RepelBucketUntouched(mid, chunks, k, chunks[k], x.id, force, dt);
    }
  }

  /** The repulsion step over a grid rebuilt from electrons with distinct
      ids: each electron whose id resolves has its velocity advanced by the
      impulses of exactly its partners, every other body and every
      translation is left unchanged, and no body is added or removed. */
  lemma RepulsionEffect(es: seq<ElectronRepr>, bodies: map<nat, Body>, order: seq<IVec3>, force: Vec3 -> Vec3, dt: real)
    requires UniqueIds(es)
    requires IteratesKeys(Bucketed(es), order)
    ensures var r := RepelAll(bodies, Bucketed(es), order, force, dt);
      r.Keys == bodies.Keys &&
      (forall id :: id in bodies ==> r[id].translation == bodies[id].translation) &&
      (forall id :: id in bodies && (forall i :: 0 <= i < |es| ==> es[i].id != id) ==> r[id] == bodies[id]) &&
      (forall i :: 0 <= i < |es| && es[i].id in bodies ==>
        CellOf(es[i]) in Bucketed(es) &&
        r[es[i].id].velocity == Accumulate(bodies[es[i].id].velocity, Candidates(Bucketed(es), CellOf(es[i]), es[i]), es[i].position, force, dt))
  {
    var chunks := Bucketed(es);
    BucketedWellFormed(es);
    RepelAllFrame(bodies, chunks, order, force, dt);
    var r := RepelAll(bodies, chunks, order, force, dt);
    forall id | id in bodies && (forall i :: 0 <= i < |es| ==> es[i].id != id)
      ensures r[id] == bodies[id]
    {
      assert !InBuckets(chunks, order, id) by {
        forall p, j | 0 <= p < |order| && 0 <= j < |chunks[order[p]]| ensures chunks[order[p]][j].id != id {
          assert chunks[order[p]][j] in chunks[order[p]];
          BucketedMemberAt(es, order[p], chunks[order[p]][j]);
        }
      }
      RepelAllUntouched(bodies, chunks, order, id, force, dt);
    }
    forall i | 0 <= i < |es| && es[i].id in bodies
      ensures CellOf(es[i]) in chunks &&
        r[es[i].id].velocity == Accumulate(bodies[es[i].id].velocity, Candidates(chunks, CellOf(es[i]), es[i]), es[i].position, force, dt)
    {
      var c := CellOf(es[i]);
      BucketedHas(es, es[i]);
      var j :| 0 <= j < |chunks[c]| && chunks[c][j] == es[i];
      var p :| 0 <= p < |order| && order[p] == c;
      RepelAllAt(bodies, chunks, order, p, j, force, dt);
    }
  }

  /** Runs the repulsion over the current grid: for every bucket, every
      electron whose id still resolves accumulates the impulses of its
      partners into its own velocity. The grid is not modified. */
  method ElectronRepulsion(world: World, grid: ElectronChunks, order: seq<IVec3>, force: Vec3 -> Vec3, dt: real)
    requires world.Valid()
    requires IteratesKeys(grid.buckets, order)
    modifies world`bodies
    ensures world.Valid() && world.bodies.Keys == old(world.bodies).Keys
    ensures world.bodies == RepelAll(old(world.bodies), grid.buckets, order, force, dt)
  {
    var chunks := grid.buckets;
    assert forall k :: k in order ==> k in chunks;
    for i := 0 to |order|
      invariant world.Valid() && world.bodies.Keys == old(world.bodies).Keys
      invariant world.bodies == RepelAll(old(world.bodies), chunks, order[..i], force, dt)
    {
      var key := order[i];
      assert order[..i + 1][..i] == order[..i] && order[..i + 1][i] == key;
      RepelBucketInPlace(world, chunks, key, force, dt);
    }
    assert order[..|order|] == order;
  }

  /** The iterations over the entries of bucket `key`. */
  method RepelBucketInPlace(world: World, chunks: Chunks, key: IVec3, force: Vec3 -> Vec3, dt: real)
    requires world.Valid()
    requires key in chunks
    modifies world`bodies
    ensures world.Valid() && world.bodies.Keys == old(world.bodies).Keys
    ensures world.bodies == RepelBucket(old(world.bodies), chunks, key, chunks[key], force, dt)
  {
    var bucket := chunks[key];
    var neighbors := Flatten(NeighborBuckets(chunks, key, NeighborOffsets()));
    for j := 0 to |bucket|
      invariant world.Valid() && world.bodies.Keys == old(world.bodies).Keys
      invariant world.bodies == RepelBucket(old(world.bodies), chunks, key, bucket[..j], force, dt)
    {
      var electron := bucket[j];
      assert bucket[..j + 1][..j] == bucket[..j];
      if electron.id in world.bodies {
        var velocity := AddImpulses(world.bodies[electron.id].velocity, neighbors + OthersInBucket(bucket, electron.id), electron.position, force, dt);
        world.bodies := world.bodies[electron.id := world.bodies[electron.id].(velocity := velocity)];
      }
    }
    assert bucket[..|bucket|] == bucket;
  }

  /** Adds the impulse of every partner in `others` to `v`, one after another. */
  method AddImpulses(v: Vec3, others: seq<ElectronRepr>, pos: Vec3, force: Vec3 -> Vec3, dt: real) returns (velocity: Vec3)
    ensures velocity == Accumulate(v, others, pos, force, dt)
  {
    velocity := v;
    for k := 0 to |others|
      invariant velocity == Accumulate(v, others[..k], pos, force, dt)
    {
      velocity := Add(velocity, Scale(force(Sub(others[k].position, pos)), dt));
      assert others[..k + 1][..k] == others[..k];
    }
    assert others[..|others|] == others;
  }
}
