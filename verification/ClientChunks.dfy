/** How the upload client cuts a file into pieces and groups them into piece sets, and why the
    server's checks let those sets through. */
module ClientChunks {
  import opened Basics
  import opened PieceSizes
  import opened SubPieceLayout

  const MAX_MEMTREE_SIZE := 0x4000_0000
  const CHUNK := MAX_MEMTREE_SIZE * 127 / 128
  const SECTOR_SIZE := 0x10_0000_0000

  /** One on-chain piece to be: its sub-pieces' padded sizes, raw sizes and CIDs. */
  datatype PieceSet = PieceSet(sizes: seq<nat>, raws: seq<nat>, cids: seq<string>)

  const EMPTY_SET := PieceSet([], [], [])

  /** preparePiece on the n bytes at an offset: the piece CID, or None when it fails. */
  type Prepare = (nat, nat) -> Option<string>

  function Raws(sets: seq<PieceSet>): seq<nat> {
    if sets == [] then [] else Raws(sets[..|sets| - 1]) + sets[|sets| - 1].raws
  }

  function AllCids(sets: seq<PieceSet>): seq<string> {
    if sets == [] then [] else AllCids(sets[..|sets| - 1]) + sets[|sets| - 1].cids
  }

  /** A set that fits a sector and is in the order the server demands. */
  ghost predicate GoodSet(s: PieceSet) {
    && |s.sizes| == |s.raws| == |s.cids|
    && (forall j :: 0 <= j < |s.sizes| ==> s.raws[j] > 0 && s.sizes[j] == Padded(s.raws[j]))
    && Descending(s.sizes) && Padding(s.sizes) && Total(s.sizes) <= SECTOR_SIZE
  }

  predicate FullChunks(raws: seq<nat>) {
    forall j :: 0 <= j < |raws| ==> raws[j] == CHUNK
  }

  /** Each piece is the chunk that starts where the ones before it end. */
  ghost predicate Chunked(prepare: Prepare, raws: seq<nat>, cids: seq<string>) {
    && |raws| == |cids|
    && forall k :: 0 <= k < |raws| ==> prepare(Prefix(raws, k), raws[k]) == Some(cids[k])
  }

  // ---------- Sizes ----------

  lemma {:induction false} FullHeight(k: nat)
    ensures Padded(127 * Pow2(k)) == 128 * Pow2(k)
  {
    if k > 0 {
      assert 127 * Pow2(k) == 2 * (127 * Pow2(k - 1));
      FullHeight(k - 1);
    }
  }

  lemma {:induction false} Pow2Sum(a: nat, b: nat)
    ensures Pow2(a + b) == Pow2(a) * Pow2(b)
    decreases b
  {
    if b > 0 {
      Pow2Sum(a, b - 1);
    }
  }

  lemma Pow2Of23()
    ensures Pow2(23) == 0x80_0000
  {
    assert Pow2(5) == 32 && Pow2(3) == 8;
    Pow2Sum(5, 5);
    Pow2Sum(10, 10);
    Pow2Sum(20, 3);
  }

  lemma FullChunkPads()
    ensures Padded(CHUNK) == MAX_MEMTREE_SIZE
  {
    Pow2Of23();
    FullHeight(23);
    assert CHUNK == 127 * 0x80_0000 && MAX_MEMTREE_SIZE == 128 * 0x80_0000;
  }

  lemma ChunkPads()
    ensures Padded(CHUNK) == MAX_MEMTREE_SIZE
    ensures forall n: nat :: n <= CHUNK ==> Padded(n) <= MAX_MEMTREE_SIZE
  {
    FullChunkPads();
    forall n: nat | n <= CHUNK ensures Padded(n) <= MAX_MEMTREE_SIZE {
      PaddedMonotone(n, CHUNK);
    }
  }

  lemma {:induction false} PrefixExtend(xs: seq<nat>, x: nat, j: nat)
    requires j <= |xs|
    ensures Prefix(xs + [x], j) == Prefix(xs, j)
    ensures j == |xs| ==> Total(xs + [x]) == Total(xs) + x
  {
    if j > 0 {
      PrefixExtend(xs, x, j - 1);
    }
  }

  // ---------- Growing the list of sets ----------

  function Appended(s: PieceSet, size: nat, raw: nat, cid: string): PieceSet {
    PieceSet(s.sizes + [size], s.raws + [raw], s.cids + [cid])
  }

  /** The list with one more piece in its last set. */
  function Grown(sets: seq<PieceSet>, size: nat, raw: nat, cid: string): seq<PieceSet>
    requires sets != []
  {
    sets[..|sets| - 1] + [Appended(sets[|sets| - 1], size, raw, cid)]
  }

  lemma GrownFlat(sets: seq<PieceSet>, size: nat, raw: nat, cid: string)
    requires sets != []
    ensures Raws(Grown(sets, size, raw, cid)) == Raws(sets) + [raw]
    ensures AllCids(Grown(sets, size, raw, cid)) == AllCids(sets) + [cid]
  {
    var g := Grown(sets, size, raw, cid);
    assert g[..|g| - 1] == sets[..|sets| - 1];
  }

  lemma NewSetFlat(sets: seq<PieceSet>)
    ensures Raws(sets + [EMPTY_SET]) == Raws(sets) && AllCids(sets + [EMPTY_SET]) == AllCids(sets)
  {
    assert (sets + [EMPTY_SET])[..|sets|] == sets;
  }

  /** A good set stays good when a piece no larger than its last one is added and fits. */
  lemma GoodSetGrows(s: PieceSet, raw: nat, cid: string)
    requires GoodSet(s) && 0 < raw <= CHUNK && FullChunks(s.raws) && Total(s.sizes) + Padded(raw) <= SECTOR_SIZE
    ensures GoodSet(Appended(s, Padded(raw), raw, cid))
    ensures Total(Appended(s, Padded(raw), raw, cid).sizes) == Total(s.sizes) + Padded(raw)
  {
    PrefixExtend(s.sizes, Padded(raw), |s.sizes|);
    PaddedIsLeast(raw);
    ChunkPads();
  }

  lemma ChunkedExtend(prepare: Prepare, raws: seq<nat>, cids: seq<string>, raw: nat, cid: string)
    requires Chunked(prepare, raws, cids) && prepare(Total(raws), raw) == Some(cid)
    ensures Chunked(prepare, raws + [raw], cids + [cid]) && Total(raws + [raw]) == Total(raws) + raw
  {
    PrefixExtend(raws, raw, |raws|);
    var raws', cids' := raws + [raw], cids + [cid];
    forall k | 0 <= k < |raws'| ensures prepare(Prefix(raws', k), raws'[k]) == Some(cids'[k]) {
      PrefixExtend(raws, raw, k);
    }
  }

  /** All sets but the last fill a sector exactly. */
  predicate FullButLast(sets: seq<PieceSet>) {
    forall i :: 0 <= i < |sets| - 1 ==> Total(sets[i].sizes) == SECTOR_SIZE
  }

  predicate AllFullChunks(sets: seq<PieceSet>) {
    forall i :: 0 <= i < |sets| ==> FullChunks(sets[i].raws)
  }

  /** Sums of full chunks are whole gibibytes. */
  lemma {:induction false} FullChunksTotal(s: PieceSet, j: nat)
    requires GoodSet(s) && FullChunks(s.raws) && j <= |s.sizes|
    ensures Prefix(s.sizes, j) == j * MAX_MEMTREE_SIZE
  {
    ChunkPads();
    if j > 0 {
      FullChunksTotal(s, j - 1);
    }
  }

  ghost predicate AllGood(sets: seq<PieceSet>) {
    sets != [] && FullButLast(sets) && forall i :: 0 <= i < |sets| ==> GoodSet(sets[i])
  }

  /** The sets hold the file's first `covered` bytes, chunk after chunk. */
  ghost predicate Holds(prepare: Prepare, sets: seq<PieceSet>, covered: nat) {
    Chunked(prepare, Raws(sets), AllCids(sets)) && Total(Raws(sets)) == covered
  }

  /** The first n sets are not empty. */
  predicate NonEmpty(sets: seq<PieceSet>, n: int) {
    forall i :: 0 <= i < n && i < |sets| ==> sets[i].raws != []
  }

  /** The client's sets when all is well; only an empty file leaves a set empty. */
  ghost predicate Sets(prepare: Prepare, sets: seq<PieceSet>, covered: nat) {
    AllGood(sets) && Holds(prepare, sets, covered) && (covered > 0 ==> NonEmpty(sets, |sets|))
  }

  /** Sets of full chunks whose last one has room for n more bytes. */
  ghost predicate Ready(prepare: Prepare, sets: seq<PieceSet>, covered: nat, n: nat) {
    && AllGood(sets) && AllFullChunks(sets) && NonEmpty(sets, |sets| - 1) && Holds(prepare, sets, covered)
    && Total(sets[|sets| - 1].sizes) + Padded(n) <= SECTOR_SIZE
  }

  /** A set of full chunks with no room left is exactly full. */
  lemma NoRoomMeansFull(s: PieceSet, n: nat)
    requires GoodSet(s) && FullChunks(s.raws) && n <= CHUNK && Total(s.sizes) + Padded(n) > SECTOR_SIZE
    ensures Total(s.sizes) == SECTOR_SIZE && s.raws != []
  {
    ChunkPads();
    FullChunksTotal(s, |s.sizes|);
  }

  lemma OpenSet(prepare: Prepare, sets: seq<PieceSet>, covered: nat, n: nat)
    requires AllGood(sets) && AllFullChunks(sets) && NonEmpty(sets, |sets|) && Holds(prepare, sets, covered)
      && n <= CHUNK
    requires Total(sets[|sets| - 1].sizes) == SECTOR_SIZE
    ensures Ready(prepare, sets + [EMPTY_SET], covered, n)
  {
    NewSetFlat(sets);
    ChunkPads();
  }

  lemma {:induction false} TotalOfSum(xs: seq<nat>, ys: seq<nat>)
    ensures Total(xs + ys) == Total(xs) + Total(ys)
  {
    if ys == [] {
      assert xs + ys == xs;
    } else {
      var k := |ys| - 1;
      TotalOfSum(xs, ys[..k]);
      assert xs + ys == (xs + ys[..k]) + [ys[k]] && ys == ys[..k] + [ys[k]];
      PrefixExtend(xs + ys[..k], ys[k], |xs| + k);
      PrefixExtend(ys[..k], ys[k], k);
    }
  }

  lemma {:induction false} NothingYet(sets: seq<PieceSet>)
    requires (forall i :: 0 <= i < |sets| ==> GoodSet(sets[i])) && FullButLast(sets) && Total(Raws(sets)) == 0
    ensures |sets| <= 1 && (|sets| == 1 ==> Total(sets[0].sizes) == 0)
  {
    if sets != [] {
      var last := sets[|sets| - 1];
      TotalOfSum(Raws(sets[..|sets| - 1]), last.raws);
      assert last.sizes == [];
      NothingYet(sets[..|sets| - 1]);
    }
  }

  /** The next piece fits the last set, or that set is exactly full and a new one is opened. */
  lemma PickSet(prepare: Prepare, sets: seq<PieceSet>, covered: nat, n: nat)
    requires Sets(prepare, sets, covered) && AllFullChunks(sets) && 0 < n <= CHUNK
    ensures
      if Total(sets[|sets| - 1].sizes) + Padded(n) > SECTOR_SIZE then Ready(prepare, sets + [EMPTY_SET], covered, n)
      else Ready(prepare, sets, covered, n)
  {
    if covered == 0 {
      NothingYet(sets);
      ChunkPads();
    } else if Total(sets[|sets| - 1].sizes) + Padded(n) > SECTOR_SIZE {
      NoRoomMeansFull(sets[|sets| - 1], n);
      OpenSet(prepare, sets, covered, n);
    }
  }

  lemma GrownGood(sets: seq<PieceSet>, n: nat, cid: string)
    requires AllGood(sets) && AllFullChunks(sets) && NonEmpty(sets, |sets| - 1) && 0 < n <= CHUNK
    requires Total(sets[|sets| - 1].sizes) + Padded(n) <= SECTOR_SIZE
    ensures var g := Grown(sets, Padded(n), n, cid);
      && AllGood(g) && NonEmpty(g, |g|) && (n == CHUNK ==> AllFullChunks(g))
      && Total(g[|sets| - 1].sizes) == Total(sets[|sets| - 1].sizes) + Padded(n)
  {
    GoodSetGrows(sets[|sets| - 1], n, cid);
  }

  lemma GrowSets(prepare: Prepare, sets: seq<PieceSet>, covered: nat, n: nat, cid: string)
    requires Ready(prepare, sets, covered, n) && 0 < n <= CHUNK && prepare(covered, n) == Some(cid)
    ensures var g := Grown(sets, Padded(n), n, cid);
      && Sets(prepare, g, covered + n) && (n == CHUNK ==> AllFullChunks(g))
      && Total(g[|g| - 1].sizes) == Total(sets[|sets| - 1].sizes) + Padded(n)
  {
    GrownFlat(sets, Padded(n), n, cid);
    GrownGood(sets, n, cid);
    ChunkedExtend(prepare, Raws(sets), AllCids(sets), n, cid);
  }

  /** The sets the next piece goes into: a new one is opened when the last would overflow. */
  function Target(sets: seq<PieceSet>, n: nat): (t: seq<PieceSet>)
    requires sets != []
    ensures t != []
  {
    if Total(sets[|sets| - 1].sizes) + Padded(n) > SECTOR_SIZE then sets + [EMPTY_SET] else sets
  }

  lemma TargetGrows(prepare: Prepare, sets: seq<PieceSet>, covered: nat, n: nat, cid: string)
    requires Sets(prepare, sets, covered) && AllFullChunks(sets) && 0 < n <= CHUNK && prepare(covered, n) == Some(cid)
    ensures var t := Target(sets, n); var g := Grown(t, Padded(n), n, cid);
      && Sets(prepare, g, covered + n) && (n == CHUNK ==> AllFullChunks(g))
      && Total(g[|g| - 1].sizes) == Total(t[|t| - 1].sizes) + Padded(n)
  {
    PickSet(prepare, sets, covered, n);
    GrowSets(prepare, Target(sets, n), covered, n, cid);
  }

  lemma GrownTotal(sets: seq<PieceSet>, size: nat, raw: nat, cid: string)
    requires sets != []
    ensures var g := Grown(sets, size, raw, cid);
      g != [] && Total(g[|g| - 1].sizes) == Total(sets[|sets| - 1].sizes) + size
  {
    PrefixExtend(sets[|sets| - 1].sizes, size, |sets[|sets| - 1].sizes|);
  }

  /** Grouping of one more piece: into the last set, or into a new one when it would overflow. */
  method AddPieceToSets(before: seq<PieceSet>, size: nat, n: nat, paddedPieceSize: nat, commP: string)
    returns (pieceSets: seq<PieceSet>, pieceSize: nat)
    requires before != [] && size == Total(before[|before| - 1].sizes) && paddedPieceSize == Padded(n)
    ensures pieceSets == Grown(Target(before, n), paddedPieceSize, n, commP)
    ensures pieceSize == Total(pieceSets[|pieceSets| - 1].sizes)
  {
    pieceSets, pieceSize := before, size;
    if pieceSize + paddedPieceSize > SECTOR_SIZE {
      pieceSets := pieceSets + [EMPTY_SET];
      pieceSize := 0;
    }
    assert pieceSize == Total(pieceSets[|pieceSets| - 1].sizes);
    pieceSize := pieceSize + paddedPieceSize;
    GrownTotal(pieceSets, paddedPieceSize, n, commP);
    pieceSets := Grown(pieceSets, paddedPieceSize, n, commP);
  }

  lemma NoSetsYet(prepare: Prepare)
    ensures Sets(prepare, [EMPTY_SET], 0) && AllFullChunks([EMPTY_SET]) && Total(EMPTY_SET.sizes) == 0
  {
    assert [EMPTY_SET][..0] == [] && Raws([]) == [] && AllCids([]) == [];
    assert Raws([EMPTY_SET]) == [] && AllCids([EMPTY_SET]) == [];
  }

  lemma NextChunk(k: nat, idx: nat)
    requires Times(k, CHUNK, idx)
    ensures Times(k + 1, CHUNK, idx + CHUNK)
  {
  }

  /** The k-th chunk of the file: n bytes at idx. */
  predicate IsChunk(fileSize: nat, k: nat, idx: nat, n: nat) {
    Times(k, CHUNK, idx) && idx < fileSize && n == if fileSize - idx < CHUNK then fileSize - idx else CHUNK
  }

  function ChunkLength(fileSize: nat, idx: nat): nat
    requires idx < fileSize
  {
    if fileSize - idx < CHUNK then fileSize - idx else CHUNK
  }

  /** Full chunks, but for a last one that may be shorter. */
  predicate Cut(raws: seq<nat>) {
    forall k :: 0 <= k < |raws| ==> if k < |raws| - 1 then raws[k] == CHUNK else 0 < raws[k] <= CHUNK
  }

  lemma {:induction false} FullRaws(sets: seq<PieceSet>)
    requires AllFullChunks(sets)
    ensures FullChunks(Raws(sets))
  {
    if sets != [] {
      FullRaws(sets[..|sets| - 1]);
    }
  }

  lemma GrownCut(sets: seq<PieceSet>, n: nat, cid: string)
    requires sets != [] && AllFullChunks(sets) && 0 < n <= CHUNK
    ensures Cut(Raws(Grown(Target(sets, n), Padded(n), n, cid)))
  {
    FullRaws(sets);
    NewSetFlat(sets);
    GrownFlat(Target(sets, n), Padded(n), n, cid);
  }

  /** Where the loop stands at idx. */
  ghost predicate Progress(prepare: Prepare, sets: seq<PieceSet>, fileSize: nat, idx: nat) {
    && Sets(prepare, sets, if idx <= fileSize then idx else fileSize) && Cut(Raws(sets))
    && (idx < fileSize ==> AllFullChunks(sets))
  }

  lemma ProgressStep(prepare: Prepare, sets: seq<PieceSet>, fileSize: nat, idx: nat, cid: string)
    requires Progress(prepare, sets, fileSize, idx) && idx < fileSize
    requires prepare(idx, ChunkLength(fileSize, idx)) == Some(cid)
    ensures var n := ChunkLength(fileSize, idx);
      Progress(prepare, Grown(Target(sets, n), Padded(n), n, cid), fileSize, idx + CHUNK)
  {
    TargetGrows(prepare, sets, idx, ChunkLength(fileSize, idx), cid);
    GrownCut(sets, ChunkLength(fileSize, idx), cid);
  }

  /** The chunk-and-group loop: for every file size, unless preparing a chunk fails, the pieces
      are the file's consecutive chunks, grouped into sets that fit a sector, fill it whenever
      another set follows, and are ordered by padded size. */
  method UploadFile(fileSize: nat, prepare: Prepare) returns (r: Result<seq<PieceSet>>)
    ensures r.Ok? ==> Sets(prepare, r.value, fileSize) && Cut(Raws(r.value))
    ensures r.Ok? ==> forall i :: 0 <= i < |r.value| ==>
      var gib := 1024 * 1024 * 1024;
      if i < |r.value| - 1 then Total(r.value[i].sizes) == 64 * gib else Total(r.value[i].sizes) <= 64 * gib
    ensures r.Err? ==> exists k: nat, idx: nat, n: nat :: IsChunk(fileSize, k, idx, n) && prepare(idx, n).None?
  {
    var pieceSets := [EMPTY_SET];
    var pieceSize := 0;
    var idx := 0;
    ghost var k := 0;
    NoSetsYet(prepare);
    while idx < fileSize
      invariant Progress(prepare, pieceSets, fileSize, idx)
      invariant pieceSize == Total(pieceSets[|pieceSets| - 1].sizes)
      invariant Times(k, CHUNK, idx)
      decreases fileSize - idx
    {
      var n := ChunkLength(fileSize, idx);
      var commP := prepare(idx, n);
      if commP.None? {
        assert IsChunk(fileSize, k, idx, n);
        return Err;
      }
      ProgressStep(prepare, pieceSets, fileSize, idx, commP.value);
      pieceSets, pieceSize := AddPieceToSets(pieceSets, pieceSize, n, Padded(n), commP.value);
      NextChunk(k, idx);
      idx, k := idx + CHUNK, k + 1;
    }
    return Ok(pieceSets);
  }

  // ---------- Through the server's checks ----------

  /** The tables hold the sub-piece.  Its padded size goes with its v1 CID, its raw size does not. */
  predicate Stored(rows: seq<DbRow>, c: string, size: nat) {
    First(rows, c).Some? && First(rows, c).value.padded == size
  }

  ghost predicate PieceFor(lib: Library, rows: seq<DbRow>, s: PieceSet, p: AddPiece) {
    && p.pieceCid != "" && p.subPieces == s.cids
    && (forall c :: c in s.cids ==> c != "" && lib.parse(c).Some?)
    && (forall j :: 0 <= j < |s.cids| && j < |s.sizes| ==> Stored(rows, V1(lib, s.cids[j]), s.sizes[j]))
    && lib.parse(p.pieceCid).Some? && lib.aggregate(PieceInfos(rows, V1s(lib, p))) == lib.parse(p.pieceCid)
    && lib.rawSize(p.pieceCid) == Some(Total(s.raws))
  }

  /** The request that adds the sets: one piece per set, with the CID and raw size the client
      computed for it, over tables that hold the uploaded sub-pieces. */
  ghost predicate RequestFor(lib: Library, rows: seq<DbRow>, sets: seq<PieceSet>, pieces: seq<AddPiece>) {
    && |pieces| == |sets|
    && forall a :: 0 <= a < |sets| ==> PieceFor(lib, rows, sets[a], pieces[a])
  }

  /** The raw sizes the tables hold for a set's sub-pieces sum to what the client put into it. */
  predicate RawsAgree(lib: Library, rows: seq<DbRow>, s: PieceSet, p: AddPiece) {
    Total(SubPieceLayout.Raws(rows, V1s(lib, p))) % U64 == Total(s.raws)
  }

  lemma SizesRead(lib: Library, rows: seq<DbRow>, s: PieceSet, p: AddPiece)
    requires GoodSet(s) && PieceFor(lib, rows, s, p)
    ensures |V1s(lib, p)| == |s.cids| && SubPieceLayout.Sizes(rows, V1s(lib, p)) == s.sizes
  {
    assert forall j :: 0 <= j < |s.cids| ==> Stored(rows, V1(lib, s.cids[j]), s.sizes[j]);
  }

  /** One set passes every check on its piece, except that its raw sizes must agree. */
  lemma PiecePasses(lib: Library, rows: seq<DbRow>, s: PieceSet, p: AddPiece)
    requires GoodSet(s) && s.raws != [] && PieceFor(lib, rows, s, p)
    ensures WellFormed(lib, p) && (PieceAccepted(lib, rows, p, V1s(lib, p)) <==> RawsAgree(lib, rows, s, p))
  {
    var cs := V1s(lib, p);
    SizesRead(lib, rows, s, p);
    forall c | c in cs ensures First(rows, c).Some? {
      var j :| 0 <= j < |cs| && cs[j] == c;
    }
  }

  /** The v1 forms of the chunks' CIDs, in file order. */
  function ChunkCids(lib: Library, cids: seq<string>): seq<string> {
    seq(|cids|, k requires 0 <= k < |cids| => V1(lib, cids[k]))
  }

  lemma {:induction false} RequestIsFlat(lib: Library, sets: seq<PieceSet>, pieces: seq<AddPiece>)
    requires |pieces| == |sets| && forall a :: 0 <= a < |sets| ==> pieces[a].subPieces == sets[a].cids
    ensures Flat(AllV1(lib, pieces)) == ChunkCids(lib, AllCids(sets))
  {
    if sets != [] {
      var k := |sets| - 1;
      RequestIsFlat(lib, sets[..k], pieces[..k]);
      assert AllV1(lib, pieces)[..k] == AllV1(lib, pieces[..k]);
      assert V1s(lib, pieces[k]) == ChunkCids(lib, sets[k].cids);
    }
  }

  ghost predicate AllRawsAgree(lib: Library, rows: seq<DbRow>, sets: seq<PieceSet>, pieces: seq<AddPiece>) {
    forall a :: 0 <= a < |sets| && a < |pieces| ==> RawsAgree(lib, rows, sets[a], pieces[a])
  }

  lemma AllPiecesPass(lib: Library, rows: seq<DbRow>, sets: seq<PieceSet>, pieces: seq<AddPiece>)
    requires AllGood(sets) && NonEmpty(sets, |sets|) && RequestFor(lib, rows, sets, pieces)
    ensures Accepted(lib, rows, pieces) <==> NoRepeats(AllV1(lib, pieces)) && AllRawsAgree(lib, rows, sets, pieces)
  {
    forall a | 0 <= a < |pieces|
      ensures WellFormed(lib, pieces[a])
      ensures PieceAccepted(lib, rows, pieces[a], AllV1(lib, pieces)[a]) <==> RawsAgree(lib, rows, sets[a], pieces[a])
    {
      PiecePasses(lib, rows, sets[a], pieces[a]);
    }
  }

  /** What the client makes of any non-empty file passes every check of the server except two: the
      request is accepted if and only if the chunks' CIDs are all different and the raw sizes stored
      for them sum to the client's, set by set. */
  lemma ClientMeetsServer(lib: Library, rows: seq<DbRow>, prepare: Prepare, sets: seq<PieceSet>, fileSize: nat,
                          pieces: seq<AddPiece>)
    requires fileSize > 0 && Sets(prepare, sets, fileSize) && RequestFor(lib, rows, sets, pieces)
    ensures Accepted(lib, rows, pieces) <==>
      AllDifferent(ChunkCids(lib, AllCids(sets))) && AllRawsAgree(lib, rows, sets, pieces)
  {
    AllPiecesPass(lib, rows, sets, pieces);
    FlatRepeats(AllV1(lib, pieces));
    RequestIsFlat(lib, sets, pieces);
  }

  /** The first row stored for each chunk carries the chunk's own raw size. */
  ghost predicate StoredByClient(lib: Library, rows: seq<DbRow>, s: PieceSet) {
    forall j :: 0 <= j < |s.cids| && j < |s.raws| ==>
      First(rows, V1(lib, s.cids[j])).Some? && First(rows, V1(lib, s.cids[j])).value.raw == s.raws[j]
  }

  lemma {:induction false} RawsBelowSizes(s: PieceSet, j: nat)
    requires GoodSet(s) && j <= |s.raws|
    ensures Prefix(s.raws, j) <= Prefix(s.sizes, j)
  {
    if j > 0 {
      RawsBelowSizes(s, j - 1);
      PaddedIsLeast(s.raws[j - 1]);
    }
  }

  /** In particular the raw sizes agree where no other upload got there first. */
  lemma OwnRowsAgree(lib: Library, rows: seq<DbRow>, s: PieceSet, p: AddPiece)
    requires GoodSet(s) && PieceFor(lib, rows, s, p) && StoredByClient(lib, rows, s)
    ensures RawsAgree(lib, rows, s, p)
  {
    assert SubPieceLayout.Raws(rows, V1s(lib, p)) == s.raws;
    RawsBelowSizes(s, |s.raws|);
  }

  /** The client's sets as the server lays them out: every recorded offset is the sum of the padded
      sizes before it in its own set, and a multiple of the sub-piece's size. */
  lemma ClientIsLaidOut(lib: Library, rows: seq<DbRow>, prepare: Prepare, sets: seq<PieceSet>, fileSize: nat,
                        pieces: seq<AddPiece>, a: nat, b: nat)
    requires fileSize > 0 && Sets(prepare, sets, fileSize) && RequestFor(lib, rows, sets, pieces)
    requires Accepted(lib, rows, pieces) && a < |sets| && b < |sets[a].cids|
    ensures At(AllV1(lib, pieces), a, b)
    ensures var row, sizes := ExpectedRow(lib, rows, pieces, a, b), sets[a].sizes;
      && row.size == sizes[b] && row.offset == Prefix(sizes, b) && Divides(sizes[b], row.offset)
  {
    SizesRead(lib, rows, sets[a], pieces[a]);
    AcceptedLayout(lib, rows, pieces, a, b);
  }

  /** The row recorded for sub-piece b of piece a spans position x. */
  predicate Spans(lib: Library, rows: seq<DbRow>, pieces: seq<AddPiece>, a: nat, b: nat, x: nat) {
    At(AllV1(lib, pieces), a, b)
    && var row := ExpectedRow(lib, rows, pieces, a, b); row.offset <= x < row.offset + row.size
  }

  lemma SpansAre(lib: Library, rows: seq<DbRow>, prepare: Prepare, sets: seq<PieceSet>, fileSize: nat,
                 pieces: seq<AddPiece>, a: nat, b: nat, x: nat)
    requires fileSize > 0 && Sets(prepare, sets, fileSize) && RequestFor(lib, rows, sets, pieces)
    requires Accepted(lib, rows, pieces) && a < |sets|
    ensures Spans(lib, rows, pieces, a, b, x) <==> Covers(sets[a].sizes, b, x)
  {
    SizesRead(lib, rows, sets[a], pieces[a]);
    if b < |sets[a].cids| {
      ClientIsLaidOut(lib, rows, prepare, sets, fileSize, pieces, a, b);
    }
  }

  /** And the rows of one set tile its padded total: a position is below it exactly when some row
      spans it, and no two rows span the same position. */
  lemma ClientIsTiled(lib: Library, rows: seq<DbRow>, prepare: Prepare, sets: seq<PieceSet>, fileSize: nat,
                      pieces: seq<AddPiece>, a: nat, x: nat)
    requires fileSize > 0 && Sets(prepare, sets, fileSize) && RequestFor(lib, rows, sets, pieces)
    requires Accepted(lib, rows, pieces) && a < |sets|
    ensures x < Total(sets[a].sizes) <==> exists b: nat :: Spans(lib, rows, pieces, a, b, x)
    ensures forall b: nat, c: nat ::
      Spans(lib, rows, pieces, a, b, x) && Spans(lib, rows, pieces, a, c, x) ==> b == c
  {
    TilesExactly(sets[a].sizes, x);
    forall b: nat ensures Spans(lib, rows, pieces, a, b, x) <==> Covers(sets[a].sizes, b, x) {
      SpansAre(lib, rows, prepare, sets, fileSize, pieces, a, b, x);
    }
    if CoveredBy(sets[a].sizes, x) {
      var b: nat :| b < |sets[a].sizes| && Covers(sets[a].sizes, b, x);
      assert Spans(lib, rows, pieces, a, b, x);
    }
    if b: nat :| Spans(lib, rows, pieces, a, b, x) {
      assert Covers(sets[a].sizes, b, x);
    }
  }

  // ---------- Files the server refuses ----------

  /** A file of one set. */
  lemma SingleSet(prepare: Prepare, s: PieceSet)
    requires GoodSet(s) && s.raws != [] && Chunked(prepare, s.raws, s.cids)
    ensures Sets(prepare, [s], Total(s.raws)) && AllCids([s]) == s.cids
  {
    assert [s][..0] == [] && Raws([]) == [] && AllCids([]) == [];
    assert Raws([s]) == s.raws && AllCids([s]) == s.cids;
  }

  const TWIN := PieceSet([MAX_MEMTREE_SIZE, MAX_MEMTREE_SIZE], [CHUNK, CHUNK], ["c", "c"])

  lemma TwinIsGood()
    ensures GoodSet(TWIN) && Total(TWIN.raws) == 2 * CHUNK
  {
    ChunkPads();
    PaddedIsLeast(CHUNK);
    assert Prefix(TWIN.sizes, 1) == MAX_MEMTREE_SIZE && Prefix(TWIN.raws, 1) == CHUNK;
  }

  function TwinLib(): Library {
    Library((c: string) => Some(c), (infos: seq<(nat, string)>) => Some("p"), (c: string) => Some(2 * CHUNK))
  }

  const TWIN_ROWS := [DbRow("c", MAX_MEMTREE_SIZE, CHUNK, 1)]
  const TWIN_REQUEST := [AddPiece("p", ["c", "c"])]

  lemma TwinStored()
    ensures RequestFor(TwinLib(), TWIN_ROWS, [TWIN], TWIN_REQUEST) && StoredByClient(TwinLib(), TWIN_ROWS, TWIN)
  {
    TwinIsGood();
    assert First(TWIN_ROWS, "c") == Some(TWIN_ROWS[0]);
    assert PieceFor(TwinLib(), TWIN_ROWS, TWIN, TWIN_REQUEST[0]);
  }

  /** A file of two full chunks with the same CID: the client groups it as it should, the tables hold
      the piece with its raw size, and the server refuses the request. */
  lemma TwinChunksRefused(prepare: Prepare)
    requires prepare(0, CHUNK) == prepare(CHUNK, CHUNK) == Some("c")
    ensures Sets(prepare, [TWIN], 2 * CHUNK) && RequestFor(TwinLib(), TWIN_ROWS, [TWIN], TWIN_REQUEST)
    ensures StoredByClient(TwinLib(), TWIN_ROWS, TWIN) && !Accepted(TwinLib(), TWIN_ROWS, TWIN_REQUEST)
  {
    TwinIsGood();
    TwinStored();
    assert Prefix(TWIN.raws, 0) == 0 && Prefix(TWIN.raws, 1) == CHUNK;
    SingleSet(prepare, TWIN);
    ClientMeetsServer(TwinLib(), TWIN_ROWS, prepare, [TWIN], 2 * CHUNK, TWIN_REQUEST);
    assert ChunkCids(TwinLib(), TWIN.cids)[0] == ChunkCids(TwinLib(), TWIN.cids)[1];
  }

  /** The one set of a short file of zeros; zeros pad with zeros, so every length has the same v1 CID. */
  function Zeros(n: nat, cid: string): PieceSet {
    PieceSet([128], [n], [cid])
  }

  lemma ZerosAreGood(n: nat, cid: string)
    requires 0 < n <= 127
    ensures GoodSet(Zeros(n, cid)) && Total(Zeros(n, cid).raws) == n
  {
    assert Padded(n) == 128;
    PaddedIsLeast(n);
    assert Prefix([128], 0) == 0 && Prefix([n], 0) == 0;
  }

  /** v2 CIDs of the two lengths, both with the v1 form "z". */
  function ZeroLib(): Library {
    Library((c: string) => if c == "z100" || c == "z120" then Some("z") else Some(c),
            (infos: seq<(nat, string)>) => Some("z"),
            (c: string) => if c == "z100" then Some(100) else Some(120))
  }

  /** 100 zero bytes were uploaded first. */
  const ZERO_ROWS := [DbRow("z", 128, 100, 1)]

  predicate ZeroLength(n: nat, cid: string) {
    (n == 100 && cid == "z100") || (n == 120 && cid == "z120")
  }

  lemma ZeroRequest(n: nat, cid: string)
    requires ZeroLength(n, cid)
    ensures RequestFor(ZeroLib(), ZERO_ROWS, [Zeros(n, cid)], [AddPiece(cid, [cid])])
    ensures RawsAgree(ZeroLib(), ZERO_ROWS, Zeros(n, cid), AddPiece(cid, [cid])) <==> n == 100
  {
    var lib, p := ZeroLib(), AddPiece(cid, [cid]);
    ZerosAreGood(n, cid);
    assert V1s(lib, p) == ["z"] && First(ZERO_ROWS, "z") == Some(ZERO_ROWS[0]);
    assert SubPieceLayout.Raws(ZERO_ROWS, ["z"]) == [100] && Prefix([100], 0) == 0;
    assert PieceFor(lib, ZERO_ROWS, Zeros(n, cid), p);
  }

  lemma ZeroFile(n: nat, cid: string, prepare: Prepare)
    requires ZeroLength(n, cid) && prepare(0, n) == Some(cid)
    ensures var pieces := [AddPiece(cid, [cid])];
      && Sets(prepare, [Zeros(n, cid)], n) && RequestFor(ZeroLib(), ZERO_ROWS, [Zeros(n, cid)], pieces)
      && AllDifferent(ChunkCids(ZeroLib(), AllCids([Zeros(n, cid)])))
      && (Accepted(ZeroLib(), ZERO_ROWS, pieces) <==> n == 100)
  {
    var s := Zeros(n, cid);
    ZerosAreGood(n, cid);
    assert Prefix(s.raws, 0) == 0;
    SingleSet(prepare, s);
    ZeroRequest(n, cid);
    ClientMeetsServer(ZeroLib(), ZERO_ROWS, prepare, [s], n, [AddPiece(cid, [cid])]);
  }

  /** With 100 zero bytes stored, the 100-byte file is accepted and the file of 120 zero bytes is
      refused, although its only chunk is not repeated. */
  lemma ShorterTwinRefused() returns (prepare: Prepare)
    ensures Sets(prepare, [Zeros(100, "z100")], 100) && Sets(prepare, [Zeros(120, "z120")], 120)
    ensures RequestFor(ZeroLib(), ZERO_ROWS, [Zeros(120, "z120")], [AddPiece("z120", ["z120"])])
    ensures AllDifferent(ChunkCids(ZeroLib(), AllCids([Zeros(120, "z120")])))
    ensures Accepted(ZeroLib(), ZERO_ROWS, [AddPiece("z100", ["z100"])])
    ensures !Accepted(ZeroLib(), ZERO_ROWS, [AddPiece("z120", ["z120"])])
  {
    prepare := (idx: nat, n: nat) => if n == 100 then Some("z100") else Some("z120");
    ZeroFile(100, "z100", prepare);
    ZeroFile(120, "z120", prepare);
  }
}
