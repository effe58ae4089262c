/** Where sub-pieces lie inside an added piece, and which add requests are accepted. */
module SubPieceLayout {
  import opened Basics
  import opened PieceSizes

  const U64 := 0x1_0000_0000_0000_0000

  /** Go's wrapping uint64 addition. */
  function Add64(a: nat, b: nat): nat {
    (a + b) % U64
  }

  // ---------- Tiling ----------

  function Prefix(sizes: seq<nat>, j: nat): nat
    requires j <= |sizes|
  {
    if j == 0 then 0 else Prefix(sizes, j - 1) + sizes[j - 1]
  }

  function Total(sizes: seq<nat>): nat {
    Prefix(sizes, |sizes|)
  }

  /** Consecutive sizes never grow. */
  predicate Descending(sizes: seq<nat>) {
    forall i :: 1 <= i < |sizes| ==> sizes[i] <= sizes[i - 1]
  }

  ghost predicate Padding(sizes: seq<nat>) {
    forall i :: 0 <= i < |sizes| ==> PaddedSize(sizes[i])
  }

  predicate Times(m: nat, d: nat, n: nat) {
    n == m * d
  }

  ghost predicate Divides(d: nat, n: nat) {
    exists m: nat :: Times(m, d, n)
  }

  lemma {:induction false} Pow2Divides(a: nat, b: nat)
    requires a <= b
    ensures Divides(Pow2(a), Pow2(b))
    decreases b
  {
    if a == b {
      assert Times(1, Pow2(a), Pow2(b));
    } else {
      Pow2Divides(a, b - 1);
      var m: nat :| Times(m, Pow2(a), Pow2(b - 1));
      assert Pow2(b) == 2 * (m * Pow2(a)) == (2 * m) * Pow2(a);
      assert Times(2 * m, Pow2(a), Pow2(b));
    }
  }

  lemma {:induction false} Pow2Order(a: nat, b: nat)
    requires Pow2(a) <= Pow2(b)
    ensures a <= b
    decreases a
  {
    if a > b {
      Pow2Monotone(b + 1, a);
    }
  }

  /** Among padded sizes, the smaller divides the larger. */
  lemma PaddedDivides(s: nat, t: nat)
    requires PaddedSize(s) && PaddedSize(t) && s <= t
    ensures Divides(s, t)
  {
    var a: nat :| s == 128 * Pow2(a);
    var b: nat :| t == 128 * Pow2(b);
    Pow2Order(a, b);
    Pow2Divides(a, b);
    var m: nat :| Times(m, Pow2(a), Pow2(b));
    assert t == 128 * (m * Pow2(a)) == m * (128 * Pow2(a));
    assert Times(m, s, t);
  }

  lemma {:induction false} DescendingFar(sizes: seq<nat>, i: nat, j: nat)
    requires Descending(sizes) && i <= j < |sizes|
    ensures sizes[j] <= sizes[i]
    decreases j
  {
    if i < j {
      DescendingFar(sizes, i, j - 1);
    }
  }

  lemma DividesSum(d: nat, a: nat, b: nat)
    requires Divides(d, a) && Divides(d, b)
    ensures Divides(d, a + b)
  {
    var m: nat :| Times(m, d, a);
    var n: nat :| Times(n, d, b);
    assert a + b == m * d + n * d == (m + n) * d;
    assert Times(m + n, d, a + b);
  }

  lemma {:induction false} PrefixDivides(sizes: seq<nat>, k: nat, j: nat)
    requires Descending(sizes) && Padding(sizes) && k <= j < |sizes|
    ensures Divides(sizes[j], Prefix(sizes, k))
    decreases k
  {
    if k == 0 {
      assert Times(0, sizes[j], 0);
    } else {
      PrefixDivides(sizes, k - 1, j);
      DescendingFar(sizes, k - 1, j);
      PaddedDivides(sizes[j], sizes[k - 1]);
      DividesSum(sizes[j], Prefix(sizes, k - 1), sizes[k - 1]);
    }
  }

  /** In an accepted order every sub-piece starts at a multiple of its own size. */
  lemma Aligned(sizes: seq<nat>, j: nat)
    requires Descending(sizes) && Padding(sizes) && j < |sizes|
    ensures Divides(sizes[j], Prefix(sizes, j))
  {
    PrefixDivides(sizes, j, j);
  }

  lemma {:induction false} PrefixMonotone(sizes: seq<nat>, i: nat, j: nat)
    requires i <= j <= |sizes|
    ensures Prefix(sizes, i) <= Prefix(sizes, j)
    decreases j
  {
    if i < j {
      PrefixMonotone(sizes, i, j - 1);
    }
  }

  predicate Covers(sizes: seq<nat>, j: nat, x: nat) {
    j < |sizes| && Prefix(sizes, j) <= x < Prefix(sizes, j + 1)
  }

  /** Every position of the piece lies in exactly one sub-piece. */
  lemma {:induction false} Tiles(sizes: seq<nat>, n: nat, x: nat) returns (j: nat)
    requires n <= |sizes| && x < Prefix(sizes, n)
    ensures j < n && Covers(sizes, j, x)
    ensures forall i: nat :: Covers(sizes, i, x) ==> i == j
    decreases n
  {
    if x >= Prefix(sizes, n - 1) {
      j := n - 1;
    } else {
      j := Tiles(sizes, n - 1, x);
    }
    forall i: nat | Covers(sizes, i, x) ensures i == j {
      if i < j { PrefixMonotone(sizes, i + 1, j); }
      if j < i { PrefixMonotone(sizes, j + 1, i); }
    }
  }

  // ---------- Requests ----------

  datatype AddPiece = AddPiece(pieceCid: string, subPieces: seq<string>)

  /** A pdp_piecerefs row joined to its parked piece. */
  datatype DbRow = DbRow(cid: string, padded: nat, raw: nat, pieceRef: int)

  /** Library calls: parsing a CID to its v1 form, aggregating sub-pieces to a piece CID, and
      reading the raw size out of a v2 CID (None also when its tree would be too high). */
  datatype Library = Library(
    parse: string -> Option<string>,
    aggregate: seq<(nat, string)> -> Option<string>,
    rawSize: string -> Option<nat>)

  /** The sub-piece record the handlers share by pointer. */
  class SubPieceInfo {
    const cid: string
    const padded: nat
    const raw: nat
    const pieceRef: int
    var offset: nat

    constructor (row: DbRow)
      ensures cid == row.cid && padded == row.padded && raw == row.raw && pieceRef == row.pieceRef && offset == 0
    {
      cid, padded, raw, pieceRef, offset := row.cid, row.padded, row.raw, row.pieceRef, 0;
    }
  }

  type Infos = map<string, SubPieceInfo>

  /** The parsed v1 CIDs of all sub-pieces, piece by piece. */
  type Cids = seq<seq<string>>

  predicate WellFormed(lib: Library, p: AddPiece) {
    && p.pieceCid != "" && p.subPieces != []
    && forall c :: c in p.subPieces ==> c != "" && lib.parse(c).Some?
  }

  function V1(lib: Library, c: string): (r: string)
    ensures lib.parse(c).Some? ==> lib.parse(c) == Some(r)
  {
    if lib.parse(c).Some? then lib.parse(c).value else ""
  }

  function V1s(lib: Library, p: AddPiece): seq<string> {
    seq(|p.subPieces|, b requires 0 <= b < |p.subPieces| => V1(lib, p.subPieces[b]))
  }

  function AllV1(lib: Library, pieces: seq<AddPiece>): Cids {
    seq(|pieces|, a requires 0 <= a < |pieces| => V1s(lib, pieces[a]))
  }

  predicate At(cids: Cids, a: nat, b: nat) {
    a < |cids| && b < |cids[a]|
  }

  /** (a, b) comes before (i, j) in request order. */
  predicate Earlier(a: nat, b: nat, i: nat, j: nat) {
    a < i || (a == i && b < j)
  }

  /** No sub-piece occurs twice anywhere in the request. */
  ghost predicate NoRepeats(cids: Cids) {
    forall a: nat, b: nat, c: nat, d: nat ::
      At(cids, a, b) && At(cids, c, d) && cids[a][b] == cids[c][d] ==> a == c && b == d
  }

  /** First row for a CID: rows come oldest first and later duplicates are ignored. */
  function First(rows: seq<DbRow>, c: string): Option<DbRow> {
    if rows == [] then None else if rows[0].cid == c then Some(rows[0]) else First(rows[1..], c)
  }

  /** Row i is the first one for the CID. */
  predicate FirstAt(rows: seq<DbRow>, c: string, i: nat) {
    i < |rows| && rows[i].cid == c && forall j :: 0 <= j < i ==> rows[j].cid != c
  }

  lemma {:induction false} FirstIsFirst(rows: seq<DbRow>, c: string)
    ensures First(rows, c).None? <==> forall i :: 0 <= i < |rows| ==> rows[i].cid != c
    ensures First(rows, c).Some? ==> exists i: nat :: FirstAt(rows, c, i) && rows[i] == First(rows, c).value
  {
    if rows != [] && rows[0].cid != c {
      FirstIsFirst(rows[1..], c);
      if First(rows, c).Some? {
        var i: nat :| FirstAt(rows[1..], c, i) && rows[1..][i] == First(rows, c).value;
        assert FirstAt(rows, c, i + 1);
      }
    } else if rows != [] {
      assert FirstAt(rows, c, 0);
    }
  }

  function Sizes(rows: seq<DbRow>, cs: seq<string>): seq<nat> {
    seq(|cs|, j requires 0 <= j < |cs| => if First(rows, cs[j]).Some? then First(rows, cs[j]).value.padded else 0)
  }

  function Raws(rows: seq<DbRow>, cs: seq<string>): seq<nat> {
    seq(|cs|, j requires 0 <= j < |cs| => if First(rows, cs[j]).Some? then First(rows, cs[j]).value.raw else 0)
  }

  function PieceInfos(rows: seq<DbRow>, cs: seq<string>): seq<(nat, string)> {
    seq(|cs|, j requires 0 <= j < |cs| => (Sizes(rows, cs)[j], cs[j]))
  }

  predicate Known(rows: seq<DbRow>, cs: seq<string>) {
    forall c :: c in cs ==> First(rows, c).Some?
  }

  /** The checks on one piece of the request. */
  predicate PieceAccepted(lib: Library, rows: seq<DbRow>, p: AddPiece, cs: seq<string>) {
    && Known(rows, cs)
    && lib.parse(p.pieceCid).Some? && lib.aggregate(PieceInfos(rows, cs)) == lib.parse(p.pieceCid)
    && lib.rawSize(p.pieceCid).Some?
    && Descending(Sizes(rows, cs))
    && lib.rawSize(p.pieceCid).value == Total(Raws(rows, cs)) % U64
  }

  /** Exactly the requests the handler goes on to submit. */
  ghost predicate Accepted(lib: Library, rows: seq<DbRow>, pieces: seq<AddPiece>) {
    && (forall a :: 0 <= a < |pieces| ==> WellFormed(lib, pieces[a]))
    && NoRepeats(AllV1(lib, pieces))
    && forall a :: 0 <= a < |pieces| ==> PieceAccepted(lib, rows, pieces[a], AllV1(lib, pieces)[a])
  }

  // ---------- The handler's passes ----------

  ghost predicate SeenUpTo(cids: Cids, i: nat, j: nat, seen: set<string>) {
    && (forall a: nat, b: nat :: At(cids, a, b) && Earlier(a, b, i, j) ==> cids[a][b] in seen)
    && (forall x :: x in seen ==> exists a: nat, b: nat :: At(cids, a, b) && Earlier(a, b, i, j) && cids[a][b] == x)
  }

  ghost predicate NoRepeatsUpTo(cids: Cids, i: nat, j: nat) {
    forall a: nat, b: nat, c: nat, d: nat ::
      At(cids, a, b) && At(cids, c, d) && Earlier(a, b, i, j) && Earlier(c, d, i, j) && cids[a][b] == cids[c][d] ==>
        a == c && b == d
  }

  lemma SeeOneMore(cids: Cids, i: nat, j: nat, seen: set<string>)
    requires At(cids, i, j) && SeenUpTo(cids, i, j, seen) && NoRepeatsUpTo(cids, i, j) && cids[i][j] !in seen
    ensures SeenUpTo(cids, i, j + 1, seen + {cids[i][j]}) && NoRepeatsUpTo(cids, i, j + 1)
  {
    forall x | x in seen + {cids[i][j]}
      ensures exists a: nat, b: nat :: At(cids, a, b) && Earlier(a, b, i, j + 1) && cids[a][b] == x
    {
      if x in seen {
        var a: nat, b: nat :| At(cids, a, b) && Earlier(a, b, i, j) && cids[a][b] == x;
        assert Earlier(a, b, i, j + 1);
      } else {
        assert Earlier(i, j, i, j + 1);
      }
    }
  }

  lemma SeenAlready(cids: Cids, i: nat, j: nat, seen: set<string>)
    requires At(cids, i, j) && SeenUpTo(cids, i, j, seen) && cids[i][j] in seen
    ensures !NoRepeats(cids)
  {
    var a: nat, b: nat :| At(cids, a, b) && Earlier(a, b, i, j) && cids[a][b] == cids[i][j];
  }

  lemma RowDone(cids: Cids, i: nat, seen: set<string>)
    requires i < |cids| && SeenUpTo(cids, i, |cids[i]|, seen) && NoRepeatsUpTo(cids, i, |cids[i]|)
    ensures SeenUpTo(cids, i + 1, 0, seen) && NoRepeatsUpTo(cids, i + 1, 0)
  {
    forall a: nat, b: nat | At(cids, a, b) ensures Earlier(a, b, i, |cids[i]|) == Earlier(a, b, i + 1, 0) {
    }
    forall x | x in seen ensures exists a: nat, b: nat :: At(cids, a, b) && Earlier(a, b, i + 1, 0) && cids[a][b] == x {
      var a: nat, b: nat :| At(cids, a, b) && Earlier(a, b, i, |cids[i]|) && cids[a][b] == x;
      assert Earlier(a, b, i + 1, 0);
    }
  }

  /** The first pass over one piece: parse every sub-piece, refuse repeats anywhere in the request. */
  method CollectPiece(lib: Library, pieces: seq<AddPiece>, i: nat, before: set<string>) returns (r: Result<set<string>>)
    requires i < |pieces| && SeenUpTo(AllV1(lib, pieces), i, 0, before) && NoRepeatsUpTo(AllV1(lib, pieces), i, 0)
    ensures r.Ok? ==> WellFormed(lib, pieces[i])
    ensures r.Ok? ==> SeenUpTo(AllV1(lib, pieces), i + 1, 0, r.value) && NoRepeatsUpTo(AllV1(lib, pieces), i + 1, 0)
    ensures r.Err? ==> !WellFormed(lib, pieces[i]) || !NoRepeats(AllV1(lib, pieces))
  {
    ghost var cids := AllV1(lib, pieces);
    var p := pieces[i];
    if p.pieceCid == "" || |p.subPieces| == 0 {
      return Err;
    }
    var seen := before;
    for j := 0 to |p.subPieces|
      invariant SeenUpTo(cids, i, j, seen) && NoRepeatsUpTo(cids, i, j)
      invariant forall c :: c in p.subPieces[..j] ==> c != "" && lib.parse(c).Some?
    {
      var c := p.subPieces[j];
      assert c in p.subPieces;
      if c == "" {
        return Err;
      }
      var parsed := lib.parse(c);
      if parsed.None? {
        return Err;
      }
      assert At(cids, i, j) && cids[i][j] == parsed.value;
      if parsed.value in seen {
        SeenAlready(cids, i, j, seen);
        return Err;
      }
      SeeOneMore(cids, i, j, seen);
      seen := seen + {parsed.value};
      assert p.subPieces[..j + 1] == p.subPieces[..j] + [c];
    }
    assert p.subPieces[..|p.subPieces|] == p.subPieces;
    RowDone(cids, i, seen);
    return Ok(seen);
  }

  method CollectCids(lib: Library, pieces: seq<AddPiece>) returns (r: Result<set<string>>)
    ensures r.Ok? <==> (forall a :: 0 <= a < |pieces| ==> WellFormed(lib, pieces[a])) && NoRepeats(AllV1(lib, pieces))
    ensures r.Ok? ==> SeenUpTo(AllV1(lib, pieces), |pieces|, 0, r.value)
  {
    ghost var cids := AllV1(lib, pieces);
    var seen: set<string> := {};
    for i := 0 to |pieces|
      invariant SeenUpTo(cids, i, 0, seen) && NoRepeatsUpTo(cids, i, 0)
      invariant forall a :: 0 <= a < i ==> WellFormed(lib, pieces[a])
    {
      var one := CollectPiece(lib, pieces, i, seen);
      if one.Err? {
        return Err;
      }
      seen := one.value;
    }
    assert forall a: nat, b: nat :: At(cids, a, b) ==> Earlier(a, b, |pieces|, 0);
    return Ok(seen);
  }

  lemma {:induction false} FirstExtend(rows: seq<DbRow>, row: DbRow, c: string)
    ensures First(rows + [row], c) ==
      if First(rows, c).Some? then First(rows, c) else if row.cid == c then Some(row) else None
  {
    if rows != [] {
      assert (rows + [row])[1..] == rows[1..] + [row];
      FirstExtend(rows[1..], row, c);
    }
  }

  predicate Matches(info: SubPieceInfo, row: DbRow) {
    info.cid == row.cid && info.padded == row.padded && info.raw == row.raw && info.pieceRef == row.pieceRef
  }

  /** One record per known CID, no two CIDs sharing a record. */
  ghost predicate Loaded(rows: seq<DbRow>, infos: Infos) {
    && (forall c :: c in infos <==> First(rows, c).Some?)
    && (forall c :: c in infos ==> Matches(infos[c], First(rows, c).value))
    && (forall c, d :: c in infos && d in infos && infos[c] == infos[d] ==> c == d)
  }

  lemma {:induction false} FirstHasCid(rows: seq<DbRow>, c: string)
    ensures First(rows, c).Some? ==> First(rows, c).value.cid == c
  {
    if rows != [] {
      FirstHasCid(rows[1..], c);
    }
  }

  /** The row loop: the first row for a CID wins. */
  method LoadInfos(rows: seq<DbRow>) returns (infos: Infos)
    ensures Loaded(rows, infos) && forall c :: c in infos ==> fresh(infos[c])
  {
    infos := map[];
    for i := 0 to |rows|
      invariant Loaded(rows[..i], infos)
      invariant forall c :: c in infos ==> fresh(infos[c])
    {
      assert rows[..i + 1] == rows[..i] + [rows[i]];
      forall c ensures First(rows[..i + 1], c) ==
        if First(rows[..i], c).Some? then First(rows[..i], c) else if rows[i].cid == c then Some(rows[i]) else None
      {
        FirstExtend(rows[..i], rows[i], c);
      }
      if rows[i].cid !in infos {
        var info := new SubPieceInfo(rows[i]);
        infos := infos[rows[i].cid := info];
      }
    }
    assert rows[..|rows|] == rows;
  }

  /** The offsets of a piece's sub-pieces, as the running wrapping sum. */
  ghost predicate Running(sizes: seq<nat>, offs: seq<nat>) {
    |offs| == |sizes| + 1 && offs[0] == 0 && forall j :: 0 <= j < |sizes| ==> offs[j + 1] == Add64(offs[j], sizes[j])
  }

  /** The first sub-pieces of a piece carry these offsets. */
  ghost predicate LaidOut(infos: Infos, cs: seq<string>, offs: seq<nat>, j: nat)
    requires j <= |cs| && j <= |offs|
    reads infos.Values
  {
    forall b :: 0 <= b < j ==> cs[b] in infos && infos[cs[b]].offset == offs[b]
  }

  lemma InfoAt(rows: seq<DbRow>, infos: Infos, cs: seq<string>, j: nat)
    requires Loaded(rows, infos) && Known(rows, cs) && j < |cs|
    ensures cs[j] in infos && infos[cs[j]].cid == cs[j]
    ensures infos[cs[j]].padded == Sizes(rows, cs)[j] && infos[cs[j]].raw == Raws(rows, cs)[j]
  {
    assert cs[j] in cs;
    FirstHasCid(rows, cs[j]);
  }

  ghost predicate AllDifferent(cs: seq<string>) {
    forall a, b :: 0 <= a < b < |cs| ==> cs[a] != cs[b]
  }

  /** The offset loop for one piece, writing through the shared records. */
  method LayOutPiece(rows: seq<DbRow>, infos: Infos, cs: seq<string>, ghost offs: seq<nat>)
    returns (pieceInfos: seq<(nat, string)>)
    requires Loaded(rows, infos) && Known(rows, cs) && AllDifferent(cs) && Running(Sizes(rows, cs), offs)
    modifies infos.Values
    ensures LaidOut(infos, cs, offs, |cs|) && pieceInfos == PieceInfos(rows, cs)
    ensures forall c :: c in infos && c !in cs ==> infos[c].offset == old(infos[c].offset)
  {
    pieceInfos := [];
    var totalOffset := 0;
    for j := 0 to |cs|
      invariant totalOffset == offs[j] && LaidOut(infos, cs, offs, j)
      invariant |pieceInfos| == j && forall b :: 0 <= b < j ==> pieceInfos[b] == PieceInfos(rows, cs)[b]
      invariant forall c :: c in infos && c !in cs ==> infos[c].offset == old(infos[c].offset)
    {
      InfoAt(rows, infos, cs, j);
      var info := infos[cs[j]];
      assert info in infos.Values;
      info.offset := totalOffset;
      pieceInfos := pieceInfos + [(info.padded, info.cid)];
      totalOffset := Add64(totalOffset, info.padded);
    }
  }

  function RunningFrom(sizes: seq<nat>, n: nat): (offs: seq<nat>)
    requires n <= |sizes|
    ensures |offs| == n + 1
  {
    if n == 0 then [0] else RunningFrom(sizes, n - 1) + [Add64(RunningFrom(sizes, n - 1)[n - 1], sizes[n - 1])]
  }

  function Offsets(sizes: seq<nat>): seq<nat> {
    RunningFrom(sizes, |sizes|)
  }

  lemma {:induction false} RunningFromRuns(sizes: seq<nat>, n: nat)
    requires n <= |sizes|
    ensures var offs := RunningFrom(sizes, n);
      offs[0] == 0 && forall j :: 0 <= j < n ==> offs[j + 1] == Add64(offs[j], sizes[j])
  {
    if n > 0 {
      RunningFromRuns(sizes, n - 1);
    }
  }

  lemma ModAdd(q: nat, x: nat)
    ensures (q * U64 + x) % U64 == x % U64
  {
  }

  /** The running sum is the prefix sum, up to wrap-around. */
  lemma {:induction false} RunningIsPrefix(sizes: seq<nat>, offs: seq<nat>, j: nat)
    requires Running(sizes, offs) && j <= |sizes|
    ensures offs[j] == Prefix(sizes, j) % U64
  {
    if j > 0 {
      RunningIsPrefix(sizes, offs, j - 1);
      var p := Prefix(sizes, j - 1);
      assert p == p / U64 * U64 + p % U64;
      ModAdd(p / U64, p % U64 + sizes[j - 1]);
      assert offs[j - 1 + 1] == Add64(offs[j - 1], sizes[j - 1]);
    }
  }

  /** The size and order checks on one piece. */
  method CheckSizes(rows: seq<DbRow>, infos: Infos, cs: seq<string>, rawSize: nat) returns (ok: bool)
    requires Loaded(rows, infos) && Known(rows, cs) && cs != []
    ensures ok <==> Descending(Sizes(rows, cs)) && rawSize == Total(Raws(rows, cs)) % U64
  {
    assert cs[0] in cs;
    var sizes := Sizes(rows, cs);
    var prev := infos[cs[0]].padded;
    var totalSize := 0;
    for i := 0 to |cs|
      invariant prev == if i == 0 then sizes[0] else sizes[i - 1]
      invariant forall k :: 1 <= k < i ==> sizes[k] <= sizes[k - 1]
      invariant totalSize == Prefix(Raws(rows, cs), i) % U64
    {
      InfoAt(rows, infos, cs, i);
      var info := infos[cs[i]];
      if info.padded > prev {
        assert i > 0 && sizes[i] > sizes[i - 1];
        return false;
      }
      prev := info.padded;
      ghost var p := Prefix(Raws(rows, cs), i);
      assert p == p / U64 * U64 + p % U64;
      ModAdd(p / U64, p % U64 + info.raw);
      totalSize := Add64(totalSize, info.raw);
    }
    return rawSize == totalSize;
  }

  ghost predicate Aggregates(lib: Library, rows: seq<DbRow>, p: AddPiece, cs: seq<string>) {
    lib.parse(p.pieceCid).Some? && lib.aggregate(PieceInfos(rows, cs)) == lib.parse(p.pieceCid)
  }

  ghost predicate SizesFit(lib: Library, rows: seq<DbRow>, p: AddPiece, cs: seq<string>) {
    && lib.rawSize(p.pieceCid).Some? && Descending(Sizes(rows, cs))
    && lib.rawSize(p.pieceCid).value == Total(Raws(rows, cs)) % U64
  }

  lemma DistinctRows(cids: Cids, i: nat)
    requires NoRepeats(cids) && i < |cids|
    ensures AllDifferent(cids[i])
    ensures forall a: nat, b: nat :: At(cids, a, b) && a != i ==> cids[a][b] !in cids[i]
  {
    forall x, y | 0 <= x < y < |cids[i]| ensures cids[i][x] != cids[i][y] {
      assert At(cids, i, x) && At(cids, i, y);
    }
    forall a: nat, b: nat | At(cids, a, b) && a != i ensures cids[a][b] !in cids[i] {
      forall y | 0 <= y < |cids[i]| ensures cids[i][y] != cids[a][b] {
        assert At(cids, i, y);
      }
    }
  }

  /** Every sub-piece of the first n pieces carries its offset within its own piece. */
  ghost predicate AllLaidOut(rows: seq<DbRow>, infos: Infos, cids: Cids, n: nat)
    requires n <= |cids|
    reads infos.Values
  {
    forall a: nat, b: nat :: At(cids, a, b) && a < n ==>
      cids[a][b] in infos && infos[cids[a][b]].offset == Offsets(Sizes(rows, cids[a]))[b]
  }

  /** The transaction's loop over pieces: offsets through the shared map, then the CID check. */
  method LayOutAll(lib: Library, rows: seq<DbRow>, pieces: seq<AddPiece>, infos: Infos) returns (ok: bool)
    requires Loaded(rows, infos) && NoRepeats(AllV1(lib, pieces))
    requires forall a :: 0 <= a < |pieces| ==> Known(rows, AllV1(lib, pieces)[a])
    modifies infos.Values
    ensures ok <==> forall a :: 0 <= a < |pieces| ==> Aggregates(lib, rows, pieces[a], AllV1(lib, pieces)[a])
    ensures ok ==> AllLaidOut(rows, infos, AllV1(lib, pieces), |pieces|)
  {
    ghost var cids := AllV1(lib, pieces);
    for i := 0 to |pieces|
      invariant AllLaidOut(rows, infos, cids, i)
      invariant forall a :: 0 <= a < i ==> Aggregates(lib, rows, pieces[a], cids[a])
    {
      var cs := V1s(lib, pieces[i]);
      assert cs == cids[i];
      DistinctRows(cids, i);
      RunningFromRuns(Sizes(rows, cs), |cs|);
      var pieceInfos := LayOutPiece(rows, infos, cs, Offsets(Sizes(rows, cs)));
      var generated := lib.aggregate(pieceInfos);
      var provided := lib.parse(pieces[i].pieceCid);
      if generated.None? || provided.None? || generated.value != provided.value {
        assert !Aggregates(lib, rows, pieces[i], cids[i]);
        return false;
      }
    }
    return true;
  }

  /** The final loop over pieces: raw size, order and total checks. */
  method CheckAll(lib: Library, rows: seq<DbRow>, pieces: seq<AddPiece>, infos: Infos)
    returns (ok: bool, pieceData: seq<string>)
    requires Loaded(rows, infos)
    requires forall a :: 0 <= a < |pieces| ==> pieces[a].subPieces != [] && Known(rows, AllV1(lib, pieces)[a])
    ensures ok <==> forall a :: 0 <= a < |pieces| ==> SizesFit(lib, rows, pieces[a], AllV1(lib, pieces)[a])
    ensures ok ==> |pieceData| == |pieces| && forall a :: 0 <= a < |pieces| ==> pieceData[a] == pieces[a].pieceCid
  {
    ghost var cids := AllV1(lib, pieces);
    pieceData := [];
    for i := 0 to |pieces|
      invariant |pieceData| == i && forall a :: 0 <= a < i ==> pieceData[a] == pieces[a].pieceCid
      invariant forall a :: 0 <= a < i ==> SizesFit(lib, rows, pieces[a], cids[a])
    {
      var cs := V1s(lib, pieces[i]);
      assert cs == cids[i];
      var rawSize := lib.rawSize(pieces[i].pieceCid);
      if rawSize.None? {
        assert !SizesFit(lib, rows, pieces[i], cids[i]);
        return false, [];
      }
      var fits := CheckSizes(rows, infos, cs, rawSize.value);
      if !fits {
        assert !SizesFit(lib, rows, pieces[i], cids[i]);
        return false, [];
      }
      pieceData := pieceData + [pieces[i].pieceCid];
    }
    return true, pieceData;
  }

  lemma AllKnown(lib: Library, rows: seq<DbRow>, pieces: seq<AddPiece>, seen: set<string>, infos: Infos)
    requires SeenUpTo(AllV1(lib, pieces), |pieces|, 0, seen) && Loaded(rows, infos)
    ensures seen <= infos.Keys <==> forall a :: 0 <= a < |pieces| ==> Known(rows, AllV1(lib, pieces)[a])
  {
    var cids := AllV1(lib, pieces);
    if seen <= infos.Keys {
      forall a, c | 0 <= a < |pieces| && c in cids[a] ensures First(rows, c).Some? {
        var b :| 0 <= b < |cids[a]| && cids[a][b] == c;
        assert At(cids, a, b) && Earlier(a, b, |pieces|, 0);
      }
    }
    if forall a :: 0 <= a < |pieces| ==> Known(rows, cids[a]) {
      forall x | x in seen ensures x in infos {
        var a: nat, b: nat :| At(cids, a, b) && Earlier(a, b, |pieces|, 0) && cids[a][b] == x;
        assert x in cids[a];
      }
    }
  }

  /** transformAddPiecesRequest: succeeds exactly on acceptable requests, and then the call data are
      the piece CIDs in request order and the shared records hold every sub-piece's offset within its
      own piece. */
  method TransformAddPieces(lib: Library, rows: seq<DbRow>, pieces: seq<AddPiece>)
    returns (r: Result<Infos>, pieceData: seq<string>)
    ensures r.Ok? <==> Accepted(lib, rows, pieces)
    ensures r.Ok? ==> Loaded(rows, r.value) && AllLaidOut(rows, r.value, AllV1(lib, pieces), |pieces|)
    ensures r.Ok? ==> |pieceData| == |pieces| && forall a :: 0 <= a < |pieces| ==> pieceData[a] == pieces[a].pieceCid
  {
    ghost var cids := AllV1(lib, pieces);
    var collected := CollectCids(lib, pieces);
    if collected.Err? {
      return Err, [];
    }
    var infos := LoadInfos(rows);
    AllKnown(lib, rows, pieces, collected.value, infos);
    if !(collected.value <= infos.Keys) {
      return Err, [];
    }
    var aggregated := LayOutAll(lib, rows, pieces, infos);
    if !aggregated {
      return Err, [];
    }
    var fits, data := CheckAll(lib, rows, pieces, infos);
    if !fits {
      return Err, [];
    }
    assert forall a :: 0 <= a < |pieces| ==>
             Aggregates(lib, rows, pieces[a], cids[a]) && SizesFit(lib, rows, pieces[a], cids[a]);
    return Ok(infos), data;
  }

  // ---------- The inserted rows ----------

  datatype AddRow = AddRow(piece: string, messageIndex: nat, subPiece: string, offset: nat, size: nat, pieceRef: int)

  /** The row a sub-piece should get, from the request and the tables alone. */
  function ExpectedRow(lib: Library, rows: seq<DbRow>, pieces: seq<AddPiece>, a: nat, b: nat): AddRow
    requires At(AllV1(lib, pieces), a, b)
  {
    var cs := AllV1(lib, pieces)[a];
    AddRow(V1(lib, pieces[a].pieceCid), a, cs[b], Prefix(Sizes(rows, cs), b) % U64, Sizes(rows, cs)[b],
           if First(rows, cs[b]).Some? then First(rows, cs[b]).value.pieceRef else 0)
  }

  function ExpectedOf(lib: Library, rows: seq<DbRow>, pieces: seq<AddPiece>, a: nat, n: nat): seq<AddRow>
    requires a < |pieces| && n <= |AllV1(lib, pieces)[a]|
  {
    if n == 0 then [] else ExpectedOf(lib, rows, pieces, a, n - 1) + [ExpectedRow(lib, rows, pieces, a, n - 1)]
  }

  function Expected(lib: Library, rows: seq<DbRow>, pieces: seq<AddPiece>, n: nat): seq<AddRow>
    requires n <= |pieces|
  {
    if n == 0 then []
    else Expected(lib, rows, pieces, n - 1) + ExpectedOf(lib, rows, pieces, n - 1, |pieces[n - 1].subPieces|)
  }

  function ReadRow(piece: string, a: nat, info: SubPieceInfo, c: string): AddRow
    reads info
  {
    AddRow(piece, a, c, info.offset, info.padded, info.pieceRef)
  }

  lemma ReadBack(lib: Library, rows: seq<DbRow>, pieces: seq<AddPiece>, infos: Infos, a: nat, b: nat)
    requires Loaded(rows, infos) && AllLaidOut(rows, infos, AllV1(lib, pieces), |pieces|)
      && At(AllV1(lib, pieces), a, b)
    requires Known(rows, AllV1(lib, pieces)[a])
    ensures var c := AllV1(lib, pieces)[a][b];
      c in infos && ReadRow(V1(lib, pieces[a].pieceCid), a, infos[c], c) == ExpectedRow(lib, rows, pieces, a, b)
  {
    var cs := AllV1(lib, pieces)[a];
    InfoAt(rows, infos, cs, b);
    RunningFromRuns(Sizes(rows, cs), |cs|);
    RunningIsPrefix(Sizes(rows, cs), Offsets(Sizes(rows, cs)), b);
    assert infos[cs[b]].offset == Offsets(Sizes(rows, cs))[b];
  }

  /** The shared record of each sub-piece of one piece reads as the given row. */
  ghost predicate Reads(infos: Infos, piece: string, a: nat, cs: seq<string>, want: seq<AddRow>)
    reads infos.Values
  {
    |want| == |cs| && forall b :: 0 <= b < |cs| ==> cs[b] in infos && ReadRow(piece, a, infos[cs[b]], cs[b]) == want[b]
  }

  /** A row with the two columns that are the same for the whole call. */
  datatype InsertedRow = InsertedRow(dataSet: Option<nat>, messageHash: string, row: AddRow)

  function Stamped(dataSet: Option<nat>, messageHash: string, rows: seq<AddRow>): seq<InsertedRow> {
    seq(|rows|, k requires 0 <= k < |rows| => InsertedRow(dataSet, messageHash, rows[k]))
  }

  lemma StampedSum(dataSet: Option<nat>, messageHash: string, a: seq<AddRow>, b: seq<AddRow>)
    ensures Stamped(dataSet, messageHash, a + b) == Stamped(dataSet, messageHash, a) + Stamped(dataSet, messageHash, b)
  {
  }

  method InsertPiece(dataSet: Option<nat>, txHash: string, infos: Infos, piece: string, a: nat, cs: seq<string>,
                     ghost want: seq<AddRow>)
    returns (added: seq<InsertedRow>)
    requires Reads(infos, piece, a, cs, want)
    ensures added == Stamped(dataSet, txHash, want)
  {
    added := [];
    for b := 0 to |cs|
      invariant added == Stamped(dataSet, txHash, want[..b])
    {
      var info := infos[cs[b]];
      assert want[b] == ReadRow(piece, a, info, cs[b]);
      added := added + [InsertedRow(dataSet, txHash, AddRow(piece, a, cs[b], info.offset, info.padded, info.pieceRef))];
    }
    assert want[..|cs|] == want;
  }

  lemma {:induction false} ExpectedAt(lib: Library, rows: seq<DbRow>, pieces: seq<AddPiece>, a: nat, n: nat)
    requires a < |pieces| && n <= |AllV1(lib, pieces)[a]|
    ensures |ExpectedOf(lib, rows, pieces, a, n)| == n
    ensures forall b :: 0 <= b < n ==> ExpectedOf(lib, rows, pieces, a, n)[b] == ExpectedRow(lib, rows, pieces, a, b)
  {
    if n > 0 {
      ExpectedAt(lib, rows, pieces, a, n - 1);
    }
  }

  lemma ReadsExpected(lib: Library, rows: seq<DbRow>, pieces: seq<AddPiece>, infos: Infos, a: nat)
    requires Loaded(rows, infos) && AllLaidOut(rows, infos, AllV1(lib, pieces), |pieces|)
    requires a < |pieces| && Known(rows, AllV1(lib, pieces)[a])
    ensures Reads(infos, V1(lib, pieces[a].pieceCid), a, V1s(lib, pieces[a]),
      ExpectedOf(lib, rows, pieces, a, |pieces[a].subPieces|))
  {
    var cs := V1s(lib, pieces[a]);
    ExpectedAt(lib, rows, pieces, a, |cs|);
    forall b: nat | b < |cs|
      ensures cs[b] in infos && ReadRow(V1(lib, pieces[a].pieceCid), a, infos[cs[b]], cs[b])
        == ExpectedRow(lib, rows, pieces, a, b)
    {
      ReadBack(lib, rows, pieces, infos, a, b);
    }
  }

  /** How many sub-pieces come before piece a. */
  function Before(pieces: seq<AddPiece>, a: nat): nat
    requires a <= |pieces|
  {
    if a == 0 then 0 else Before(pieces, a - 1) + |pieces[a - 1].subPieces|
  }

  lemma {:induction false} ExpectedLength(lib: Library, rows: seq<DbRow>, pieces: seq<AddPiece>, n: nat)
    requires n <= |pieces|
    ensures |Expected(lib, rows, pieces, n)| == Before(pieces, n)
  {
    if n > 0 {
      ExpectedLength(lib, rows, pieces, n - 1);
      ExpectedAt(lib, rows, pieces, n - 1, |pieces[n - 1].subPieces|);
    }
  }

  lemma {:induction false} ExpectedRowAt(lib: Library, rows: seq<DbRow>, pieces: seq<AddPiece>, n: nat, a: nat, b: nat)
    requires a < n <= |pieces| && b < |pieces[a].subPieces|
    ensures var k := Before(pieces, a) + b;
      k < |Expected(lib, rows, pieces, n)| && Expected(lib, rows, pieces, n)[k] == ExpectedRow(lib, rows, pieces, a, b)
    decreases n
  {
    var front, last := Expected(lib, rows, pieces, n - 1), |pieces[n - 1].subPieces|;
    assert Expected(lib, rows, pieces, n) == front + ExpectedOf(lib, rows, pieces, n - 1, last);
    ExpectedLength(lib, rows, pieces, n - 1);
    if a < n - 1 {
      ExpectedRowAt(lib, rows, pieces, n - 1, a, b);
    } else {
      ExpectedAt(lib, rows, pieces, a, last);
    }
  }

  /** The columns of the row inserted for sub-piece b of piece a: from the call, the request and the
      first stored row of that sub-piece. */
  predicate RowIs(lib: Library, rows: seq<DbRow>, dataSet: Option<nat>, txHash: string, pieces: seq<AddPiece>,
                  a: nat, b: nat, added: seq<InsertedRow>)
    requires At(AllV1(lib, pieces), a, b)
  {
    var k, c := Before(pieces, a) + b, V1(lib, pieces[a].subPieces[b]);
    && k < |added| && added[k].dataSet == dataSet && added[k].messageHash == txHash && First(rows, c).Some?
    && var row, stored := added[k].row, First(rows, c).value;
       && row.piece == V1(lib, pieces[a].pieceCid) && row.messageIndex == a && row.subPiece == c == stored.cid
       && row.offset == Prefix(Sizes(rows, V1s(lib, pieces[a])), b) % U64
       && row.size == stored.padded && row.pieceRef == stored.pieceRef
  }

  lemma ColumnsAre(lib: Library, rows: seq<DbRow>, dataSet: Option<nat>, txHash: string, pieces: seq<AddPiece>,
                   a: nat, b: nat)
    requires At(AllV1(lib, pieces), a, b) && Known(rows, AllV1(lib, pieces)[a])
    ensures RowIs(lib, rows, dataSet, txHash, pieces, a, b,
                  Stamped(dataSet, txHash, Expected(lib, rows, pieces, |pieces|)))
  {
    ExpectedRowAt(lib, rows, pieces, |pieces|, a, b);
    var cs := V1s(lib, pieces[a]);
    assert AllV1(lib, pieces)[a] == cs && cs[b] == V1(lib, pieces[a].subPieces[b]) && cs[b] in cs;
    FirstHasCid(rows, cs[b]);
  }

  /** insertPieceAdds: what it reads back through the shared map is each piece's own prefix sum. */
  method InsertPieceAdds(lib: Library, rows: seq<DbRow>, dataSet: Option<nat>, txHash: string,
                         pieces: seq<AddPiece>, infos: Infos)
    returns (added: seq<InsertedRow>)
    requires Loaded(rows, infos) && AllLaidOut(rows, infos, AllV1(lib, pieces), |pieces|)
    requires forall a :: 0 <= a < |pieces| ==> Known(rows, AllV1(lib, pieces)[a])
    ensures added == Stamped(dataSet, txHash, Expected(lib, rows, pieces, |pieces|))
    ensures |added| == Before(pieces, |pieces|)
    ensures forall a: nat, b: nat :: At(AllV1(lib, pieces), a, b) ==>
      RowIs(lib, rows, dataSet, txHash, pieces, a, b, added)
  {
    added := [];
    for a := 0 to |pieces|
      invariant added == Stamped(dataSet, txHash, Expected(lib, rows, pieces, a))
    {
      ghost var done, want := Expected(lib, rows, pieces, a), ExpectedOf(lib, rows, pieces, a, |pieces[a].subPieces|);
      ReadsExpected(lib, rows, pieces, infos, a);
      var more := InsertPiece(dataSet, txHash, infos, V1(lib, pieces[a].pieceCid), a, V1s(lib, pieces[a]), want);
      StampedSum(dataSet, txHash, done, want);
      assert Expected(lib, rows, pieces, a + 1) == done + want;
      added := added + more;
    }
    ExpectedLength(lib, rows, pieces, |pieces|);
    forall a: nat, b: nat | At(AllV1(lib, pieces), a, b)
      ensures RowIs(lib, rows, dataSet, txHash, pieces, a, b, added)
    {
      ColumnsAre(lib, rows, dataSet, txHash, pieces, a, b);
    }
  }

  // ---------- What an accepted request means ----------

  predicate CoveredBy(sizes: seq<nat>, x: nat) {
    exists j :: 0 <= j < |sizes| && Covers(sizes, j, x)
  }

  /** The sub-pieces tile [0, total): each position is covered, and by one sub-piece only. */
  lemma TilesExactly(sizes: seq<nat>, x: nat)
    ensures x < Total(sizes) <==> CoveredBy(sizes, x)
    ensures forall i: nat, j: nat :: Covers(sizes, i, x) && Covers(sizes, j, x) ==> i == j
  {
    forall j: nat | Covers(sizes, j, x) ensures x < Total(sizes) {
      PrefixMonotone(sizes, j + 1, |sizes|);
    }
    if x < Total(sizes) {
      var j := Tiles(sizes, |sizes|, x);
    }
  }

  lemma OffsetDoesNotWrap(sizes: seq<nat>, b: nat)
    requires b <= |sizes| && Total(sizes) < U64
    ensures Prefix(sizes, b) % U64 == Prefix(sizes, b)
  {
    PrefixMonotone(sizes, b, |sizes|);
  }

  lemma AcceptedDescend(lib: Library, rows: seq<DbRow>, pieces: seq<AddPiece>, a: nat)
    requires Accepted(lib, rows, pieces) && a < |pieces|
    ensures Descending(Sizes(rows, AllV1(lib, pieces)[a]))
  {
    assert PieceAccepted(lib, rows, pieces[a], AllV1(lib, pieces)[a]);
  }

  /** For an accepted request with padded sizes and no overflow: the recorded offset of every
      sub-piece is the sum of the sizes before it, and a multiple of its own size. */
  lemma AcceptedLayout(lib: Library, rows: seq<DbRow>, pieces: seq<AddPiece>, a: nat, b: nat)
    requires Accepted(lib, rows, pieces) && At(AllV1(lib, pieces), a, b)
    requires Padding(Sizes(rows, AllV1(lib, pieces)[a])) && Total(Sizes(rows, AllV1(lib, pieces)[a])) < U64
    ensures var sizes := Sizes(rows, AllV1(lib, pieces)[a]);
      ExpectedRow(lib, rows, pieces, a, b).offset == Prefix(sizes, b) && Divides(sizes[b], Prefix(sizes, b))
  {
    var sizes := Sizes(rows, AllV1(lib, pieces)[a]);
    AcceptedDescend(lib, rows, pieces, a);
    OffsetDoesNotWrap(sizes, b);
    Aligned(sizes, b);
  }

  // ---------- What is refused ----------

  /** The sub-piece cannot be used: it is empty, does not parse, or no row is stored for it. */
  ghost predicate Unusable(lib: Library, rows: seq<DbRow>, c: string) {
    c == "" || lib.parse(c).None? || forall i :: 0 <= i < |rows| ==> Some(rows[i].cid) != lib.parse(c)
  }

  /** Each flaw of one piece is enough: an empty or unparsable CID, no sub-pieces or an unusable one,
      a sub-piece larger than the one before it, a CID other than the aggregate of the sub-pieces, or
      a raw size other than their sum. */
  lemma FlawedRefused(lib: Library, rows: seq<DbRow>, pieces: seq<AddPiece>, a: nat)
    requires a < |pieces|
    requires var p := pieces[a]; var cs := V1s(lib, p);
      || p.pieceCid == "" || lib.parse(p.pieceCid).None? || p.subPieces == []
      || (exists c :: c in p.subPieces && Unusable(lib, rows, c))
      || (exists j :: 1 <= j < |cs| && Sizes(rows, cs)[j - 1] < Sizes(rows, cs)[j])
      || lib.aggregate(PieceInfos(rows, cs)) != lib.parse(p.pieceCid)
      || lib.rawSize(p.pieceCid) != Some(Prefix(Raws(rows, cs), |cs|) % U64)
    ensures !Accepted(lib, rows, pieces)
  {
    var p, cs := pieces[a], V1s(lib, pieces[a]);
    if c :| c in p.subPieces && Unusable(lib, rows, c) {
      var j :| 0 <= j < |p.subPieces| && p.subPieces[j] == c;
      assert cs[j] in cs && cs[j] == V1(lib, c);
      FirstIsFirst(rows, cs[j]);
    }
    assert AllV1(lib, pieces)[a] == cs;
    assert WellFormed(lib, p) && PieceAccepted(lib, rows, p, cs) ==> lib.aggregate(PieceInfos(rows, cs)).Some?;
  }

  /** And so is a sub-piece that occurs twice, be it in different pieces. */
  lemma RepeatRefused(lib: Library, rows: seq<DbRow>, pieces: seq<AddPiece>, a: nat, b: nat, c: nat, d: nat)
    requires a < |pieces| && b < |pieces[a].subPieces| && c < |pieces| && d < |pieces[c].subPieces|
    requires (a != c || b != d) && lib.parse(pieces[a].subPieces[b]) == lib.parse(pieces[c].subPieces[d])
    ensures !Accepted(lib, rows, pieces)
  {
    var cids := AllV1(lib, pieces);
    assert At(cids, a, b) && At(cids, c, d) && cids[a][b] == cids[c][d];
  }

  // ---------- Repeats in one list ----------

  /** All sub-pieces of a request, in request order. */
  function Flat(cids: Cids): seq<string> {
    if cids == [] then [] else Flat(cids[..|cids| - 1]) + cids[|cids| - 1]
  }

  lemma {:induction false} FlatMember(cids: Cids, c: string)
    ensures c in Flat(cids) <==> exists a: nat, b: nat :: At(cids, a, b) && cids[a][b] == c
  {
    if cids != [] {
      var k := |cids| - 1;
      FlatMember(cids[..k], c);
      if a: nat, b: nat :| At(cids[..k], a, b) && cids[..k][a][b] == c {
        assert At(cids, a, b) && cids[a][b] == c;
      }
      if b: nat :| b < |cids[k]| && cids[k][b] == c {
        assert At(cids, k, b);
      }
      if a: nat, b: nat :| At(cids, a, b) && cids[a][b] == c {
        assert a < k ==> At(cids[..k], a, b) && cids[..k][a][b] == c;
      }
    }
  }

  lemma DifferentTogether(xs: seq<string>, ys: seq<string>)
    ensures AllDifferent(xs + ys) <==> AllDifferent(xs) && AllDifferent(ys) && forall c :: c in xs ==> c !in ys
  {
    var s := xs + ys;
    if AllDifferent(s) {
      assert forall i :: 0 <= i < |xs| ==> s[i] == xs[i];
      assert forall i :: 0 <= i < |ys| ==> s[|xs| + i] == ys[i];
    }
    if AllDifferent(xs) && AllDifferent(ys) && forall c :: c in xs ==> c !in ys {
      forall i, j | 0 <= i < j < |s| ensures s[i] != s[j] {
        assert i < |xs| <= j ==> s[i] in xs && s[j] in ys;
      }
    }
  }

  lemma LastRepeats(cids: Cids)
    requires cids != []
    ensures var k := |cids| - 1;
      NoRepeats(cids) <==>
        NoRepeats(cids[..k]) && AllDifferent(cids[k]) && forall c :: c in Flat(cids[..k]) ==> c !in cids[k]
  {
    var k := |cids| - 1;
    var front := cids[..k];
    assert forall a: nat, b: nat :: At(front, a, b) ==> At(cids, a, b) && cids[a][b] == front[a][b];
    if NoRepeats(cids) {
      DistinctRows(cids, k);
      forall c | c in Flat(front) ensures c !in cids[k] {
        FlatMember(front, c);
      }
    }
    if NoRepeats(front) && AllDifferent(cids[k]) && forall c :: c in Flat(front) ==> c !in cids[k] {
      forall a: nat, b: nat | At(front, a, b) ensures front[a][b] !in cids[k] {
        FlatMember(front, front[a][b]);
      }
    }
  }

  /** No sub-piece occurs twice in the request exactly when the list of all of them has no repeats. */
  lemma {:induction false} FlatRepeats(cids: Cids)
    ensures NoRepeats(cids) <==> AllDifferent(Flat(cids))
  {
    if cids != [] {
      var k := |cids| - 1;
      FlatRepeats(cids[..k]);
      LastRepeats(cids);
      DifferentTogether(Flat(cids[..k]), cids[k]);
    }
  }
}
