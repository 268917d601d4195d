/**
 * Conversion of one raw vector file into batches of Arrow record batches.
 *
 * A vector file is a header of two little-endian u32 values, the declared
 * number of vectors and their dimensionality, followed by the vectors, each
 * `dimensionality` scalars of the dataset's element type. The converter reads
 * the header, then converts batch after batch, one batch per step of
 * `(0..declared).step_by(batch_size)`, writes each batch to its own Arrow
 * file, and checks the number of vectors read against the declared number.
 */
module Raw {
  import opened Wrappers
  import opened Number
  import opened Arrow
  import opened Decimal
  import opened Io
  import opened Standard

  /** Why a conversion returns an error. */
  datatype Failure =
    | OpenFailed(name: string)                   // the input file cannot be opened
    | RowUnreadable                              // `read_exact` met the end of the file
    | CountMismatch(got: nat, expected: nat)     // fewer or more vectors than declared

  /** How a conversion stops early: an `Err` returned to the caller, or a panic of `unwrap` on an Arrow error. */
  datatype Fault = Error(failure: Failure) | Panic(error: ArrowError)

  /** One vector: its scalars in file order. */
  type Row = seq<Scalar>

  // ---------------------------------------------------------------------------
  // Locating the raw files (`RawData::from_dir`)
  // ---------------------------------------------------------------------------

  /** The three raw files of one dataset. */
  datatype RawData = RawData(basePath: Path, queryPath: Path, groundPath: Path)

  /**
   * `RawData::from_dir`: each path is the data directory with the set's
   * sub-directory and then the file name pushed onto it. A relative name
   * gives `data_dir/base/<base>` (and likewise for query and ground); an
   * absolute name replaces the whole path.
   */
  function FromDir(dataDir: Path, baseName: string, queryName: string, groundName: string): (r: RawData)
    ensures r.basePath == if Absolute(baseName) then [baseName] else dataDir + ["base", baseName]
    ensures r.queryPath == if Absolute(queryName) then [queryName] else dataDir + ["query", queryName]
    ensures r.groundPath == if Absolute(groundName) then [groundName] else dataDir + ["ground", groundName]
  {
    PushInto(dataDir, "base", baseName);
    PushInto(dataDir, "query", queryName);
    PushInto(dataDir, "ground", groundName);
    RawData(
      Push(Push(dataDir, "base"), baseName),
      Push(Push(dataDir, "query"), queryName),
      Push(Push(dataDir, "ground"), groundName))
  }

  /** A name pushed after a relative sub-directory lands inside it, unless the name is absolute. */
  lemma PushInto(dir: Path, sub: string, name: string)
    requires !Absolute(sub)
    ensures Push(Push(dir, sub), name) == if Absolute(name) then [name] else dir + [sub, name]
  {
  }

  /**
   * Two of the three paths coincide exactly when both names are absolute
   * and equal; with relative names each file lies in its own
   * sub-directory, so the three paths are distinct.
   */
  lemma FromDirLayout(dataDir: Path, baseName: string, queryName: string, groundName: string)
    ensures var r := FromDir(dataDir, baseName, queryName, groundName);
      && (r.basePath == r.queryPath <==> Absolute(baseName) && baseName == queryName)
      && (r.basePath == r.groundPath <==> Absolute(baseName) && baseName == groundName)
      && (r.queryPath == r.groundPath <==> Absolute(queryName) && queryName == groundName)
  {
    var r := FromDir(dataDir, baseName, queryName, groundName);
    var d := |dataDir|;
    if !Absolute(baseName) && !Absolute(queryName) {
      assert r.basePath[d] != r.queryPath[d];
    }
    if !Absolute(baseName) && !Absolute(groundName) {
      assert r.basePath[d] != r.groundPath[d];
    }
    if !Absolute(queryName) && !Absolute(groundName) {
      assert r.queryPath[d] != r.groundPath[d];
    }
  }

  // ---------------------------------------------------------------------------
  // Reading one row (`read_row`)
  // ---------------------------------------------------------------------------

  /** The number of bytes one row occupies: `T::num_bytes() * dimensionality`. */
  function RowBytes(t: ElementType, dim: nat): nat {
    NumBytes(t) * dim
  }

  /** The bytes of a row of scalars, each encoded little-endian. */
  function EncodeRow(t: ElementType, row: Row): (bytes: seq<Byte>)
    requires forall j :: 0 <= j < |row| ==> InRange(t, row[j])
    ensures |bytes| == RowBytes(t, |row|)
  {
    if row == [] then []
    else
      var bytes := Encode(t, row[0]) + EncodeRow(t, row[1..]);
      assert |bytes| == NumBytes(t) + NumBytes(t) * (|row| - 1);
      bytes
  }

  /**
   * The decoding step of `read_row`: the block is cut into `num_bytes`-wide
   * chunks, and each is decoded with `from_le_bytes`. Every chunk has exactly
   * the element width, so no decoding fails, and the block is recovered by
   * encoding the row again.
   */
  function DecodeRow(t: ElementType, dim: nat, bytes: seq<Byte>): (row: Row)
    requires |bytes| == RowBytes(t, dim)
    ensures |row| == dim
    decreases dim
  {
    if dim == 0 then []
    else
      var w := NumBytes(t);
      assert |bytes[w..]| == RowBytes(t, dim - 1) by {
        MulSucc(dim - 1, w);
      }
      var row := [FromLeBytes(t, bytes[..w]).value] + DecodeRow(t, dim - 1, bytes[w..]);
      assert row[1..] == DecodeRow(t, dim - 1, bytes[w..]);
      assert bytes == bytes[..w] + bytes[w..];
      row
  }

  /** Decoding the bytes of a row gives the row back: no scalar is lost or changed. */
  lemma {:induction false} DecodeEncodeRow(t: ElementType, row: Row)
    requires forall j :: 0 <= j < |row| ==> InRange(t, row[j])
    ensures DecodeRow(t, |row|, EncodeRow(t, row)) == row
  {
    if row != [] {
      var w := NumBytes(t);
      var bytes := EncodeRow(t, row);
      var head, tail := Encode(t, row[0]), EncodeRow(t, row[1..]);
      assert bytes == head + tail;
      assert bytes[..w] == head && bytes[w..] == tail;
      DecodeRowCons(t, |row|, bytes);
      FromLeBytesEncode(t, row[0]);
      DecodeEncodeRow(t, row[1..]);
      SameHeadAndTail(DecodeRow(t, |row|, bytes), row);
    }
  }

  /** A decoded row is its first value followed by the decoding of the remaining bytes. */
  lemma DecodeRowCons(t: ElementType, dim: nat, bytes: seq<Byte>)
    requires |bytes| == RowBytes(t, dim) && dim > 0
    ensures var w := NumBytes(t);
      && w <= |bytes| && |bytes[w..]| == RowBytes(t, dim - 1)
      && DecodeRow(t, dim, bytes)[0] == FromLeBytes(t, bytes[..w]).value
      && DecodeRow(t, dim, bytes)[1..] == DecodeRow(t, dim - 1, bytes[w..])
  {
    MulSucc(dim - 1, NumBytes(t));
  }

  /**
   * Value `j` of a decoded row is `from_le_bytes` of the `j`-th chunk of the
   * block, the one after the bytes of `j` values: the chunks are decoded in
   * order, none skipped, repeated or moved.
   */
  lemma {:induction false} DecodeRowAt(t: ElementType, dim: nat, bytes: seq<Byte>, j: nat)
    requires |bytes| == RowBytes(t, dim) && j < dim
    ensures var lo := RowBytes(t, j);
      && lo + NumBytes(t) <= |bytes|
      && DecodeRow(t, dim, bytes)[j] == FromLeBytes(t, bytes[lo..lo + NumBytes(t)]).value
    decreases j, 1
  {
    if j == 0 {
      DecodeRowFirst(t, dim, bytes);
    } else {
      DecodeRowNext(t, dim, bytes, j);
    }
  }

  /** Every value `read_row` decodes lies in the range of the element type. */
  lemma DecodeRowInRange(t: ElementType, dim: nat, bytes: seq<Byte>)
    requires |bytes| == RowBytes(t, dim)
    ensures forall j :: 0 <= j < dim ==> InRange(t, DecodeRow(t, dim, bytes)[j])
  {
    forall j | 0 <= j < dim
      ensures InRange(t, DecodeRow(t, dim, bytes)[j])
    {
      DecodeRowAt(t, dim, bytes, j);
    }
  }

  lemma DecodeRowFirst(t: ElementType, dim: nat, bytes: seq<Byte>)
    requires |bytes| == RowBytes(t, dim) && 0 < dim
    ensures var lo := RowBytes(t, 0);
      && lo + NumBytes(t) <= |bytes|
      && DecodeRow(t, dim, bytes)[0] == FromLeBytes(t, bytes[lo..lo + NumBytes(t)]).value
  {
    DecodeRowCons(t, dim, bytes);
    assert RowBytes(t, 0) == 0;
  }

  /** The step of `DecodeRowAt`: value `j` of a row is value `j - 1` of the row after its first chunk. */
  lemma {:induction false} DecodeRowNext(t: ElementType, dim: nat, bytes: seq<Byte>, j: nat)
    requires |bytes| == RowBytes(t, dim) && 0 < j < dim
    ensures var lo := RowBytes(t, j);
      && lo + NumBytes(t) <= |bytes|
      && DecodeRow(t, dim, bytes)[j] == FromLeBytes(t, bytes[lo..lo + NumBytes(t)]).value
    decreases j, 0
  {
    var w := NumBytes(t);
    DecodeRowTail(t, dim, bytes, j);
    DecodeRowAt(t, dim - 1, bytes[w..], j - 1);
    ChunkShift(t, bytes, j);
  }

  /** Chunk `j - 1` of the bytes after the first chunk is chunk `j` of the whole. */
  lemma ChunkShift(t: ElementType, bytes: seq<Byte>, j: nat)
    requires 0 < j && NumBytes(t) + RowBytes(t, j - 1) + NumBytes(t) <= |bytes|
    ensures var w, lo := NumBytes(t), RowBytes(t, j - 1);
      && RowBytes(t, j) + w <= |bytes|
      && FromLeBytes(t, bytes[w..][lo..lo + w]) == FromLeBytes(t, bytes[RowBytes(t, j)..RowBytes(t, j) + w])
  {
    SliceOfSlice(bytes, NumBytes(t), RowBytes(t, j - 1), NumBytes(t));
    RowBytesNext(t, j);
  }

  /** Value `j` of a row is value `j - 1` of the row decoded from its bytes after the first chunk. */
  lemma DecodeRowTail(t: ElementType, dim: nat, bytes: seq<Byte>, j: nat)
    requires |bytes| == RowBytes(t, dim) && 0 < j < dim
    ensures NumBytes(t) <= |bytes| && |bytes[NumBytes(t)..]| == RowBytes(t, dim - 1)
    ensures DecodeRow(t, dim, bytes)[j] == DecodeRow(t, dim - 1, bytes[NumBytes(t)..])[j - 1]
  {
    DecodeRowCons(t, dim, bytes);
    TailIndex(DecodeRow(t, dim, bytes), j);
  }

  /** One more value takes one more element width. */
  lemma RowBytesNext(t: ElementType, dim: nat)
    requires dim > 0
    ensures RowBytes(t, dim) == RowBytes(t, dim - 1) + NumBytes(t)
  {
    MulSucc(dim - 1, NumBytes(t));
  }

  lemma SliceOfSlice<T>(s: seq<T>, n: nat, lo: nat, len: nat)
    requires n + lo + len <= |s|
    ensures s[n..][lo..lo + len] == s[n + lo..n + lo + len]
  {
  }

  lemma TailIndex<T>(s: seq<T>, j: nat)
    requires 0 < j < |s|
    ensures s[j] == s[1..][j - 1]
  {
  }

  /** Two non-empty sequences with the same first element and the same rest are equal. */
  lemma SameHeadAndTail<T>(a: seq<T>, b: seq<T>)
    requires |a| > 0 && |b| > 0 && a[0] == b[0] && a[1..] == b[1..]
    ensures a == b
  {
    assert a == [a[0]] + a[1..];
    assert b == [b[0]] + b[1..];
  }

  /** (m + 1) * n, spelled out. */
  lemma MulSucc(m: nat, n: nat)
    ensures (m + 1) * n == m * n + n && n * (m + 1) == n * m + n
  {
  }

  /** `block` is the run of `n` bytes of `bytes` at offset `lo`. */
  predicate IsBlockAt(n: nat, bytes: seq<Byte>, lo: nat, block: Block) {
    lo + n <= |bytes| && block == bytes[lo..lo + n]
  }

  lemma IsBlockAtShift(n: nat, bytes: seq<Byte>, lo: nat, block: Block)
    requires n <= |bytes| && IsBlockAt(n, bytes[n..], lo, block)
    ensures IsBlockAt(n, bytes, lo + n, block)
  {
    assert bytes[n..][lo..lo + n] == bytes[lo + n..lo + n + n];
  }

  // ---------------------------------------------------------------------------
  // Reading the rows of a batch (the loop of `convert_batch_arrow`)
  // ---------------------------------------------------------------------------

  /** The bytes of one row, as `read_exact` hands them over. */
  type Block = seq<Byte>

  /** Blocks read, and the bytes left unread after them. */
  datatype Taken = Taken(blocks: seq<Block>, rest: seq<Byte>)

  /** `blocks` read first, then what `tk` reads. */
  function Then(blocks: seq<Block>, tk: Taken): Taken {
    Taken(blocks + tk.blocks, tk.rest)
  }

  /**
   * Reading up to `limit` rows of `n` bytes from the unread bytes `rest`,
   * one `read_exact` after another, stopping at the first that fails. A
   * failed read drains the stream.
   */
  function TakeBlocks(n: nat, rest: seq<Byte>, limit: nat): (r: Taken)
    ensures |r.blocks| <= limit
    ensures forall k :: 0 <= k < |r.blocks| ==> |r.blocks[k]| == n
    decreases limit
  {
    if limit == 0 then Taken([], rest)
    else if |rest| < n then Taken([], [])
    else
      var more := TakeBlocks(n, rest[n..], limit - 1);
      Taken([rest[..n]] + more.blocks, more.rest)
  }

  /**
   * How many rows are read: as many as `limit` allows and the bytes hold.
   * Reading stops short of `limit` only when less than a whole row is left,
   * and then nothing is left; otherwise exactly the rows' bytes are consumed.
   */
  lemma {:induction false} TakeBlocksCount(n: nat, rest: seq<Byte>, limit: nat)
    ensures var r := TakeBlocks(n, rest, limit);
      var m := |r.blocks|;
      && m * n <= |rest|
      && (m < limit ==> |rest| < m * n + n && r.rest == [])
      && (m == limit ==> r.rest == rest[m * n..])
    decreases limit
  {
    var r := TakeBlocks(n, rest, limit);
    if limit == 0 {
      assert r.blocks == [] && r.rest == rest;
    } else if |rest| < n {
      assert r.blocks == [] && r.rest == [];
    } else {
      var more := TakeBlocks(n, rest[n..], limit - 1);
      TakeBlocksCount(n, rest[n..], limit - 1);
      var m' := |more.blocks|;
      assert |r.blocks| == m' + 1;
      MulSucc(m', n);
      if m' + 1 == limit {
        assert rest[n..][m' * n..] == rest[m' * n + n..];
      }
    }
  }

  /** The rows are read consecutively: block `k` is the `n` bytes of `rest` at offset `k * n`. */
  lemma {:induction false} TakeBlocksAt(n: nat, rest: seq<Byte>, limit: nat, k: nat)
    requires k < |TakeBlocks(n, rest, limit).blocks|
    ensures IsBlockAt(n, rest, k * n, TakeBlocks(n, rest, limit).blocks[k])
    decreases k
  {
    var more := TakeBlocks(n, rest[n..], limit - 1);
    assert TakeBlocks(n, rest, limit).blocks == [rest[..n]] + more.blocks;
    if k > 0 {
      TakeBlocksAt(n, rest[n..], limit - 1, k - 1);
      IsBlockAtShift(n, rest, (k - 1) * n, more.blocks[k - 1]);
      MulSucc(k - 1, n);
    }
  }

  /** Reading `a` rows and then `b` more is reading `a + b` rows. */
  lemma {:induction false} TakeBlocksSplit(n: nat, rest: seq<Byte>, a: nat, b: nat)
    ensures var first := TakeBlocks(n, rest, a);
      TakeBlocks(n, rest, a + b) == Then(first.blocks, TakeBlocks(n, first.rest, b))
    decreases a
  {
    if a == 0 {
      assert [] + TakeBlocks(n, rest, b).blocks == TakeBlocks(n, rest, b).blocks;
    } else if |rest| >= n {
      TakeBlocksSplit(n, rest[n..], a - 1, b);
      var first' := TakeBlocks(n, rest[n..], a - 1);
      var second := TakeBlocks(n, first'.rest, b);
      assert [rest[..n]] + (first'.blocks + second.blocks) == ([rest[..n]] + first'.blocks) + second.blocks;
    }
  }

  /** Once a read has failed, every later read fails too. */
  lemma TakeBlocksAfterFailure(n: nat, rest: seq<Byte>, a: nat, b: nat)
    requires a > 0 && TakeBlocks(n, rest, a).blocks == []
    ensures TakeBlocks(n, TakeBlocks(n, rest, a).rest, b) == Taken([], [])
  {
  }

  /** The rows that blocks decode to. */
  function DecodeRows(t: ElementType, dim: nat, blocks: seq<Block>): (rows: seq<Row>)
    requires Sized(RowBytes(t, dim), blocks)
    ensures |rows| == |blocks|
    ensures forall k :: 0 <= k < |rows| ==> |rows[k]| == dim
  {
    seq(|blocks|, k requires 0 <= k < |blocks| => DecodeRow(t, dim, blocks[k]))
  }

  // ---------------------------------------------------------------------------
  // Error and panic messages
  // ---------------------------------------------------------------------------

  /**
   * The text of each error, as `format!` renders it; an I/O error appears in
   * its `Debug` form, that of a missing file or of a read past the end.
   */
  function Message(f: Failure): (s: string)
    ensures |s| > 0
    ensures s[0] == 'F' <==> f.OpenFailed?
    ensures s[0] == 'U' <==> f.CountMismatch?
  {
    // The leading word, kept apart, is what tells the three texts apart.
    match f
    case OpenFailed(name) =>
      "Failed" + " ot open " + name + " file because Os { code: 2, kind: NotFound, message: \"No such file or directory\" }"
    case RowUnreadable =>
      "Could" + " not read row from file because Error { kind: UnexpectedEof, message: \"failed to fill whole buffer\" }"
    case CountMismatch(got, expected) =>
      "Unable" + " to read the correct number of points. Got " + Dec(got) + " but expected " + Dec(expected) + "."
  }

  /** Each message tells its failure apart: the set name, or both counts, can be read back from it. */
  lemma MessageInjective(f: Failure, g: Failure)
    requires Message(f) == Message(g)
    ensures f == g
  {
    if f.OpenFailed? {
      assert g.OpenFailed?;
      var p := "Failed" + " ot open ";
      var q := " file because Os { code: 2, kind: NotFound, message: \"No such file or directory\" }";
      Cancel(p, f.name, g.name, q);
    } else if f.CountMismatch? {
      assert g.CountMismatch?;
      var p := "Unable" + " to read the correct number of points. Got ";
      var m := " but expected ";
      var x, y := m + Dec(f.expected) + ".", m + Dec(g.expected) + ".";
      Regroup(p, Dec(f.got), m, Dec(f.expected), ".");
      Regroup(p, Dec(g.got), m, Dec(g.expected), ".");
      Cancel(p, Dec(f.got) + x, Dec(g.got) + y, []);
      DecPrefixUnique(f.got, x, g.got, y);
      Cancel(m, Dec(f.expected), Dec(g.expected), ".");
      DecInjective(f.expected, g.expected);
    } else {
      assert !g.OpenFailed? && !g.CountMismatch?;
    }
  }

  /** A common prefix and suffix can be struck from both sides of an equation. */
  lemma Cancel<T>(p: seq<T>, a: seq<T>, b: seq<T>, q: seq<T>)
    requires p + a + q == p + b + q
    ensures a == b
  {
    var s := p + a + q;
    assert |a| == |b|;
    assert a == s[|p|..|p| + |a|] == b;
  }

  /** The parts of a message, regrouped around its first number. */
  lemma Regroup<T>(p: seq<T>, a: seq<T>, m: seq<T>, b: seq<T>, q: seq<T>)
    ensures p + a + m + b + q == p + (a + (m + b + q)) + []
  {
  }

  // ---------------------------------------------------------------------------
  // One batch (`convert_batch_arrow`)
  // ---------------------------------------------------------------------------

  /** The name of batch `i` of the `name` set: `"{name}-{i}.arrow"`. */
  function BatchFileName(name: string, i: nat): string {
    name + "-" + Dec(i) + ".arrow"
  }

  /**
   * A batch file name is the set name, a dash, the batch index in decimal
   * digits, and the `.arrow` extension.
   */
  lemma BatchFileNameFormat(name: string, i: nat)
    ensures var r := BatchFileName(name, i);
      && |name| + 7 < |r| && r[..|name| + 1] == name + "-" && r[|r| - 6..] == ".arrow"
      && AllDigits(r[|name| + 1..|r| - 6]) && ParseDec(r[|name| + 1..|r| - 6]) == i
  {
    var r := BatchFileName(name, i);
    assert r[|name| + 1..|r| - 6] == Dec(i);
    ParseDecOfDec(i);
  }

  /** Every (set name, batch index) pair has its own file name. */
  lemma BatchFileNameInjective(name1: string, i: nat, name2: string, j: nat)
    requires BatchFileName(name1, i) == BatchFileName(name2, j)
    ensures name1 == name2 && i == j
  {
    var x, y := name1 + "-", name2 + "-";
    var s1, s2 := x + Dec(i), y + Dec(j);
    assert s1 + ".arrow" == BatchFileName(name1, i);
    assert s2 + ".arrow" == BatchFileName(name2, j);
    assert s1 == (s1 + ".arrow")[..|s1|] == (s2 + ".arrow")[..|s2|] == s2;
    DecSuffixUnique(x, i, y, j);
    assert name1 == x[..|x| - 1] == y[..|y| - 1] == name2;
  }

  /** One Arrow array per row, each built by `into_arrow_array`. */
  function Arrays(t: ElementType, rows: seq<Row>): (arrays: seq<Array>)
    ensures |arrays| == |rows|
  {
    seq(|rows|, k requires 0 <= k < |rows| => IntoArrowArray(t, rows[k]))
  }

  /** `enumerate().map(|(i, row)| (format!("{i}"), row, false))`: array `k` becomes the column named `"k"`, not nullable. */
  function Enumerated(arrays: seq<Array>): (cs: seq<NamedColumn>)
    ensures |cs| == |arrays|
  {
    seq(|arrays|, k requires 0 <= k < |arrays| => (Dec(k), arrays[k], false))
  }

  /** The columns handed to the record batch for a batch of rows. */
  function Columns(t: ElementType, rows: seq<Row>): (cs: seq<NamedColumn>)
    ensures |cs| == |rows|
  {
    Enumerated(Arrays(t, rows))
  }

  /** The record batch a non-empty batch of rows becomes. */
  function BatchOf(t: ElementType, rows: seq<Row>): RecordBatch {
    RecordBatch(
      seq(|rows|, k requires 0 <= k < |rows| => Field(Dec(k), t, false)),
      seq(|rows|, k requires 0 <= k < |rows| => IntoArrowArray(t, rows[k])))
  }

  /** The rows a record batch holds, column by column. */
  function RowsOfBatch(b: RecordBatch): seq<Row>
    requires forall k :: 0 <= k < |b.columns| ==> NoNulls(b.columns[k])
  {
    seq(|b.columns|, k requires 0 <= k < |b.columns| => Values(b.columns[k]))
  }

  /**
   * A batch of equally long rows is accepted by the record-batch constructor
   * exactly when it is not empty; the batch then has one column per row,
   * column `k` named by the decimal `k` and holding row `k`, every value
   * present, so the rows can be read back in order.
   */
  lemma BatchOfRows(t: ElementType, dim: nat, rows: seq<Row>)
    requires forall k :: 0 <= k < |rows| ==> |rows[k]| == dim
    ensures AcceptableColumns(Columns(t, rows)) <==> rows != []
    ensures rows != [] ==> TryFromIterWithNullable(Columns(t, rows)) == Ok(BatchOf(t, rows))
    ensures var b := BatchOf(t, rows);
      && |b.schema| == |b.columns| == |rows|
      && (forall k :: 0 <= k < |rows| ==> b.schema[k].name == Dec(k) && ParseDec(b.schema[k].name) == k && !b.schema[k].nullable)
      && RowsOfBatch(b) == rows
  {
    ColumnsAccepted(t, dim, rows);
    BatchOfShape(t, rows);
  }

  /** The record-batch constructor accepts the columns of equally long rows exactly when there is one. */
  lemma ColumnsAccepted(t: ElementType, dim: nat, rows: seq<Row>)
    requires forall k :: 0 <= k < |rows| ==> |rows[k]| == dim
    ensures AcceptableColumns(Columns(t, rows)) <==> rows != []
    ensures rows != [] ==> TryFromIterWithNullable(Columns(t, rows)) == Ok(BatchOf(t, rows))
  {
    var cs := Columns(t, rows);
    if rows != [] {
      assert forall k :: 0 <= k < |cs| ==> |cs[k].1.slots| == dim;
      var r := TryFromIterWithNullable(cs);
      assert r.value.schema == BatchOf(t, rows).schema;
      assert r.value.columns == BatchOf(t, rows).columns;
    }
  }

  /** The batch of rows names column `k` by the decimal `k` and holds the rows in order. */
  lemma BatchOfShape(t: ElementType, rows: seq<Row>)
    ensures var b := BatchOf(t, rows);
      && |b.schema| == |b.columns| == |rows|
      && (forall k :: 0 <= k < |rows| ==> b.schema[k].name == Dec(k) && ParseDec(b.schema[k].name) == k && !b.schema[k].nullable)
      && RowsOfBatch(b) == rows
  {
    var b := BatchOf(t, rows);
    forall k | 0 <= k < |rows|
      ensures ParseDec(b.schema[k].name) == k
    {
      ParseDecOfDec(k);
    }
  }

  /** Every block holds `n` bytes. */
  predicate Sized(n: nat, blocks: seq<Block>) {
    forall k :: 0 <= k < |blocks| ==> |blocks[k]| == n
  }

  /** The file that batch `i` of the `name` set, read as `blocks`, is written to in directory `dir`. */
  function BatchFile(dir: Path, name: string, i: nat, t: ElementType, dim: nat, blocks: seq<Block>): ArrowFile
    requires Sized(RowBytes(t, dim), blocks)
  {
    ArrowFile(dir + [BatchFileName(name, i)], BatchOf(t, DecodeRows(t, dim, blocks)))
  }

  /**
   * A batch file lies in the output directory under the batch's name, and its
   * columns, read back in order, are the rows the blocks decode to.
   */
  lemma BatchFileContents(dir: Path, name: string, i: nat, t: ElementType, dim: nat, blocks: seq<Block>)
    requires Sized(RowBytes(t, dim), blocks)
    ensures var f := BatchFile(dir, name, i, t, dim, blocks);
      && f.path == dir + [BatchFileName(name, i)]
      && |f.batch.columns| == |blocks|
      && (forall k :: 0 <= k < |f.batch.columns| ==> NoNulls(f.batch.columns[k]))
      && RowsOfBatch(f.batch) == DecodeRows(t, dim, blocks)
  {
    BatchOfRows(t, dim, DecodeRows(t, dim, blocks));
  }

  /** Reading one more row, after `k` of at most `limit`, adds its block to those read so far. */
  lemma TakeBlocksNext(n: nat, start: seq<Byte>, limit: nat, blocks: seq<Block>, rest: seq<Byte>, k: nat)
    requires k < limit && n <= |rest|
    requires TakeBlocks(n, start, limit) == Then(blocks, TakeBlocks(n, rest, limit - k))
    ensures TakeBlocks(n, start, limit) == Then(blocks + [rest[..n]], TakeBlocks(n, rest[n..], limit - (k + 1)))
  {
    var more := TakeBlocks(n, rest[n..], limit - (k + 1));
    assert TakeBlocks(n, rest, limit - k) == Then([rest[..n]], more);
    assert blocks + ([rest[..n]] + more.blocks) == (blocks + [rest[..n]]) + more.blocks;
  }

  /** A row that cannot be read ends the reading: what was read so far is all, and nothing is left. */
  lemma TakeBlocksEnd(n: nat, start: seq<Byte>, limit: nat, blocks: seq<Block>, rest: seq<Byte>, k: nat)
    requires k < limit && |rest| < n
    requires TakeBlocks(n, start, limit) == Then(blocks, TakeBlocks(n, rest, limit - k))
    ensures TakeBlocks(n, start, limit) == Taken(blocks, [])
  {
    assert blocks + [] == blocks;
  }

  /** Decoding and converting one more block adds one array. */
  lemma BatchSnoc(t: ElementType, dim: nat, blocks: seq<Block>, block: Block)
    requires Sized(RowBytes(t, dim), blocks) && |block| == RowBytes(t, dim)
    ensures Sized(RowBytes(t, dim), blocks + [block])
    ensures Arrays(t, DecodeRows(t, dim, blocks + [block])) ==
      Arrays(t, DecodeRows(t, dim, blocks)) + [IntoArrowArray(t, DecodeRow(t, dim, block))]
  {
    DecodeRowsSnoc(t, dim, blocks, block);
    ArraysSnoc(t, DecodeRows(t, dim, blocks), DecodeRow(t, dim, block));
  }

  /** Decoding one more block decodes one more row. */
  lemma DecodeRowsSnoc(t: ElementType, dim: nat, blocks: seq<Block>, block: Block)
    requires Sized(RowBytes(t, dim), blocks) && |block| == RowBytes(t, dim)
    ensures Sized(RowBytes(t, dim), blocks + [block])
    ensures DecodeRows(t, dim, blocks + [block]) == DecodeRows(t, dim, blocks) + [DecodeRow(t, dim, block)]
  {
  }

  /** Converting one more row converts one more array. */
  lemma ArraysSnoc(t: ElementType, rows: seq<Row>, row: Row)
    ensures Arrays(t, rows + [row]) == Arrays(t, rows) + [IntoArrowArray(t, row)]
  {
  }

  /**
   * The record batch of a batch of blocks: refused for want of columns when
   * there is no block, and otherwise the batch the blocks' rows make.
   */
  lemma BatchRecord(t: ElementType, dim: nat, blocks: seq<Block>)
    requires Sized(RowBytes(t, dim), blocks)
    ensures var record := TryFromIterWithNullable(Enumerated(Arrays(t, DecodeRows(t, dim, blocks))));
      && (blocks == [] ==> record == Err(NoColumns))
      && (blocks != [] ==> record == Ok(BatchOf(t, DecodeRows(t, dim, blocks))))
  {
    BatchOfRows(t, dim, DecodeRows(t, dim, blocks));
  }

  /**
   * `read_row`: reads the bytes of one row with `read_exact` and decodes them;
   * fails, having read the stream to its end, when less than a row is left.
   */
  method ReadRow(handle: ByteStream, t: ElementType, dim: nat) returns (r: Result<Row, Failure>)
    requires handle.Valid()
    modifies handle
    ensures handle.Valid()
    ensures var n := RowBytes(t, dim);
      if n <= |old(handle.Rest())| then
        r == Ok(DecodeRow(t, dim, old(handle.Rest())[..n])) && handle.Rest() == old(handle.Rest())[n..]
      else
        r == Err(RowUnreadable) && handle.Rest() == []
  {
    var bytes := handle.ReadExact(RowBytes(t, dim));
    if bytes.None? {
      return Err(RowUnreadable);
    }
    r := Ok(DecodeRow(t, dim, bytes.value));
  }

  /** What one call of `convert_batch_arrow` does: its result, the files it writes, and the bytes it leaves unread. */
  datatype BatchStep = BatchStep(result: Result<nat, Fault>, files: seq<ArrowFile>, rest: seq<Byte>)

  /**
   * Batch `i`, read from the unread bytes `rest`: up to `batchSize` rows,
   * written to one file; or, when not even one row is left, a panic and no
   * file.
   */
  function BatchSpec(rest: seq<Byte>, t: ElementType, batchSize: nat, dim: nat, dir: Path, name: string, i: nat): (r: BatchStep)
  {
    var taken := TakeBlocks(RowBytes(t, dim), rest, batchSize);
    if taken.blocks == [] then BatchStep(Err(Panic(NoColumns)), [], taken.rest)
    else BatchStep(Ok(|taken.blocks|), [BatchFile(dir, name, i, t, dim, taken.blocks)], taken.rest)
  }

  /**
   * A batch that succeeds counts between one and `batchSize` rows and writes
   * one file, named after the set and the batch index; one that fails
   * panics for want of columns and writes nothing.
   */
  lemma BatchSpecShape(rest: seq<Byte>, t: ElementType, batchSize: nat, dim: nat, dir: Path, name: string, i: nat)
    ensures var r := BatchSpec(rest, t, batchSize, dim, dir, name, i);
      && (r.result.Ok? ==> 0 < r.result.value <= batchSize && |r.files| == 1 && r.files[0].path == dir + [BatchFileName(name, i)])
      && (r.result.Err? ==> r.result == Err(Panic(NoColumns)) && r.files == [])
  {
  }

  /** The batch made of the blocks read, given what reading left. */
  lemma BatchSpecOf(rest: seq<Byte>, t: ElementType, batchSize: nat, dim: nat, dir: Path, name: string, i: nat,
                    blocks: seq<Block>, left: seq<Byte>)
    requires TakeBlocks(RowBytes(t, dim), rest, batchSize) == Taken(blocks, left)
    ensures Sized(RowBytes(t, dim), blocks)
    ensures BatchSpec(rest, t, batchSize, dim, dir, name, i) ==
      if blocks == [] then BatchStep(Err(Panic(NoColumns)), [], left)
      else BatchStep(Ok(|blocks|), [BatchFile(dir, name, i, t, dim, blocks)], left)
  {
  }

  /** One more row read in the loop of `convert_batch_arrow`: its block and its array are appended. */
  lemma ReadStep(t: ElementType, dim: nat, start: seq<Byte>, limit: nat, blocks: seq<Block>, rest: seq<Byte>, k: nat,
                 batch: seq<Array>)
    requires k < limit && RowBytes(t, dim) <= |rest|
    requires Sized(RowBytes(t, dim), blocks) && batch == Arrays(t, DecodeRows(t, dim, blocks))
    requires TakeBlocks(RowBytes(t, dim), start, limit) == Then(blocks, TakeBlocks(RowBytes(t, dim), rest, limit - k))
    ensures var n := RowBytes(t, dim);
      && Sized(n, blocks + [rest[..n]])
      && batch + [IntoArrowArray(t, DecodeRow(t, dim, rest[..n]))] == Arrays(t, DecodeRows(t, dim, blocks + [rest[..n]]))
      && TakeBlocks(n, start, limit) == Then(blocks + [rest[..n]], TakeBlocks(n, rest[n..], limit - (k + 1)))
  {
    var n := RowBytes(t, dim);
    TakeBlocksNext(n, start, limit, blocks, rest, k);
    BatchSnoc(t, dim, blocks, rest[..n]);
  }

  /**
   * The row loop of `convert_batch_arrow`: reads up to `batchSize` rows,
   * stopping at the first row that cannot be read, and turns each row read
   * into an Arrow array.
   */
  method ReadBatch(handle: ByteStream, t: ElementType, batchSize: nat, dim: nat) returns (batch: seq<Array>)
    requires handle.Valid()
    modifies handle
    ensures handle.Valid()
    ensures var taken := TakeBlocks(RowBytes(t, dim), old(handle.Rest()), batchSize);
      && Sized(RowBytes(t, dim), taken.blocks)
      && batch == Arrays(t, DecodeRows(t, dim, taken.blocks))
      && handle.Rest() == taken.rest
  {
    var n := RowBytes(t, dim);
    ghost var start := handle.Rest();
    ghost var rest := start;
    ghost var blocks: seq<Block> := [];
    batch := [];
    var k := 0;
    while k < batchSize
      invariant handle.Valid() && handle.Rest() == rest
      invariant k <= batchSize
      invariant Sized(n, blocks) && batch == Arrays(t, DecodeRows(t, dim, blocks))
      invariant TakeBlocks(n, start, batchSize) == Then(blocks, TakeBlocks(n, rest, batchSize - k))
    {
      var row := ReadRow(handle, t, dim);
      if row.Err? {
        TakeBlocksEnd(n, start, batchSize, blocks, rest, k);
        return;
      }
      ReadStep(t, dim, start, batchSize, blocks, rest, k, batch);
      blocks := blocks + [rest[..n]];
      batch := batch + [IntoArrowArray(t, row.value)];
      rest := rest[n..];
      k := k + 1;
    }
    assert blocks + [] == blocks;
  }

  /**
   * `convert_batch_arrow`: reads up to `batchSize` rows, turns row `k` into
   * the column named `"k"`, and writes the record batch to
   * `"{name}-{i}.arrow"` in the output directory. When not even one row can
   * be read the batch has no column, the record batch is refused and the
   * `unwrap` panics before any file is created.
   */
  method ConvertBatchArrow(handle: ByteStream, t: ElementType, batchSize: nat, dim: nat,
                           outDir: OutputDir, name: string, i: nat) returns (r: Result<nat, Fault>)
    requires handle.Valid()
    modifies handle, outDir
    ensures handle.Valid()
    ensures var step := BatchSpec(old(handle.Rest()), t, batchSize, dim, outDir.path, name, i);
      r == step.result && handle.Rest() == step.rest && outDir.written == old(outDir.written) + step.files
  {
    ghost var taken := TakeBlocks(RowBytes(t, dim), handle.Rest(), batchSize);
    BatchSpecOf(handle.Rest(), t, batchSize, dim, outDir.path, name, i, taken.blocks, taken.rest);
    var batch := ReadBatch(handle, t, batchSize, dim);
    BatchRecord(t, dim, taken.blocks);
    var numRows := |batch|;
    var record := TryFromIterWithNullable(Enumerated(batch));
    if record.Err? {
      return Err(Panic(record.error));
    }
    outDir.Write(ArrowFile(outDir.path + [BatchFileName(name, i)], record.value));
    r := Ok(numRows);
  }

  // ---------------------------------------------------------------------------
  // One vector file (`convert_vectors`)
  // ---------------------------------------------------------------------------

  /** `(start..end).step_by(step)`: `start`, `start + step`, ... while below `end`. */
  function StepBy(start: nat, end: nat, step: nat): (s: seq<nat>)
    requires step > 0
    ensures |s| > 0 <==> start < end
    ensures forall k :: 0 <= k < |s| ==> start <= s[k] < end
    decreases if start < end then end - start else 0
  {
    if start >= end then [] else [start] + StepBy(start + step, end, step)
  }

  /** Step `i` exists exactly when `start + i*step` is below `end`, and it is that number. */
  lemma {:induction false} StepByIndex(start: nat, end: nat, step: nat, i: nat)
    requires step > 0
    ensures var s := StepBy(start, end, step);
      && (i < |s| <==> start + i * step < end)
      && (i < |s| ==> s[i] == start + i * step)
    decreases if start < end then end - start else 0
  {
    if start < end && i > 0 {
      StepByIndex(start + step, end, step, i - 1);
      MulSucc(i - 1, step);
    }
  }

  /**
   * The number of batches `convert_vectors` converts is the declared number
   * of vectors divided by the batch size, rounded up: the batches can hold
   * every declared vector, and all but the last are needed for it.
   */
  lemma BatchCount(expected: nat, batchSize: nat)
    requires batchSize > 0
    ensures var count := |StepBy(0, expected, batchSize)|;
      && expected <= count * batchSize
      && (count > 0 ==> (count - 1) * batchSize < expected)
      && (count == 0 <==> expected == 0)
  {
    var count := |StepBy(0, expected, batchSize)|;
    StepByIndex(0, expected, batchSize, count);
    if count > 0 {
      StepByIndex(0, expected, batchSize, count - 1);
    }
    StepByIndex(0, expected, batchSize, 0);
  }

  /** What the loop of `convert_vectors` ends with: the rows counted, or the fault that stopped it; and the files written. */
  datatype LoopEnd = LoopEnd(result: Result<nat, Fault>, files: seq<ArrowFile>)

  /** A loop that has already counted `cardinality` rows and written `files`, and then goes on as `later`. */
  function After(cardinality: nat, files: seq<ArrowFile>, later: LoopEnd): LoopEnd {
    LoopEnd(if later.result.Ok? then Ok(cardinality + later.result.value) else later.result, files + later.files)
  }

  /**
   * The loop of `convert_vectors` from batch `i` on, with `count` batches to
   * go: each batch is converted by `convert_batch_arrow` from where the
   * previous one stopped reading, its row count is added to the total, and
   * its fault, if any, ends the loop (`?`).
   */
  function BatchLoop(rest: seq<Byte>, t: ElementType, batchSize: nat, dim: nat, dir: Path, name: string,
                     i: nat, count: nat): (r: LoopEnd)
    decreases count, 0
  {
    if count == 0 then LoopEnd(Ok(0), [])
    else BatchPass(rest, t, batchSize, dim, dir, name, i, count - 1)
  }

  /** One pass of the loop: batch `i`, then, unless it failed, the `left` batches after it. */
  function BatchPass(rest: seq<Byte>, t: ElementType, batchSize: nat, dim: nat, dir: Path, name: string,
                     i: nat, left: nat): (r: LoopEnd)
    decreases left, 1
  {
    var step := BatchSpec(rest, t, batchSize, dim, dir, name, i);
    if step.result.Err? then LoopEnd(step.result, step.files)
    else After(step.result.value, step.files, BatchLoop(step.rest, t, batchSize, dim, dir, name, i + 1, left))
  }

  /** One turn of the loop: the next batch, and then, unless it failed, the turns after it. */
  lemma BatchLoopNext(rest: seq<Byte>, t: ElementType, batchSize: nat, dim: nat, dir: Path, name: string,
                      i: nat, count: nat)
    requires count > 0
    ensures var step := BatchSpec(rest, t, batchSize, dim, dir, name, i);
      && (step.result.Err? ==> BatchLoop(rest, t, batchSize, dim, dir, name, i, count) == LoopEnd(step.result, step.files))
      && (step.result.Ok? ==>
            BatchLoop(rest, t, batchSize, dim, dir, name, i, count) ==
            After(step.result.value, step.files, BatchLoop(step.rest, t, batchSize, dim, dir, name, i + 1, count - 1)))
  {
  }

  /** The loop fails only with the panic of an empty batch, and writes at most one file per batch. */
  lemma {:induction false} BatchLoopBounds(rest: seq<Byte>, t: ElementType, batchSize: nat, dim: nat, dir: Path,
                                           name: string, i: nat, count: nat)
    ensures var r := BatchLoop(rest, t, batchSize, dim, dir, name, i, count);
      && (r.result.Err? ==> r.result.error == Panic(NoColumns))
      && |r.files| <= count
    decreases count
  {
    if count > 0 {
      var step := BatchSpec(rest, t, batchSize, dim, dir, name, i);
      BatchLoopNext(rest, t, batchSize, dim, dir, name, i, count);
      BatchSpecShape(rest, t, batchSize, dim, dir, name, i);
      if step.result.Ok? {
        BatchLoopBounds(step.rest, t, batchSize, dim, dir, name, i + 1, count - 1);
      }
    }
  }

  lemma AppendAssoc<T>(a: seq<T>, b: seq<T>, c: seq<T>)
    ensures a + b + c == a + (b + c)
  {
  }

  /** Going on after going on is going on once with both totals and both lists of files. */
  lemma AfterAfter(c1: nat, f1: seq<ArrowFile>, c2: nat, f2: seq<ArrowFile>, later: LoopEnd)
    ensures After(c1, f1, After(c2, f2, later)) == After(c1 + c2, f1 + f2, later)
  {
    assert f1 + (f2 + later.files) == (f1 + f2) + later.files;
  }

  /** What converting one file does: the result, and the Arrow files written on the way. */
  datatype Conversion = Conversion(result: Result<(nat, nat), Fault>, files: seq<ArrowFile>)

  /**
   * The header of a vector file: the declared number of vectors and their
   * dimensionality, the little-endian `u32` values of bytes 0..4 and 4..8.
   */
  function Header(bytes: seq<Byte>): (h: (nat, nat))
    requires |bytes| == RowBytes(U32, 2)
    ensures h.0 < Pow256(4) && h.1 < Pow256(4)
  {
    (LeValue(bytes[..4]), LeValue(bytes[4..]))
  }

  /** Reading the header as a row of two `u32` gives the header's two numbers. */
  lemma HeaderRow(bytes: seq<Byte>)
    requires |bytes| == RowBytes(U32, 2)
    ensures var row := DecodeRow(U32, 2, bytes);
      row[0] == Int(Header(bytes).0) && row[1] == Int(Header(bytes).1)
  {
    DecodeRowCons(U32, 2, bytes);
    DecodeRowCons(U32, 1, bytes[4..]);
    assert bytes[4..][..4] == bytes[4..];
  }

  /** The file at a path, if there is one. */
  function Lookup(fs: FileSystem, path: Path): Option<seq<Byte>> {
    if path in fs then Some(fs[path]) else None
  }

  /** The end of `convert_vectors`: a fault of the loop is passed on, and the total must be the declared number. */
  function Check(expected: nat, dim: nat, loop: LoopEnd): Conversion {
    if loop.result.Err? then Conversion(Err(loop.result.error), loop.files)
    else if expected == loop.result.value then Conversion(Ok((loop.result.value, dim)), loop.files)
    else Conversion(Err(Error(CountMismatch(loop.result.value, expected))), loop.files)
  }

  /**
   * `convert_vectors` on a file with the given contents (None: no file): the
   * header, one batch per step of `(0..expected).step_by(batch_size)`, and
   * the check of the total. On success the result is
   * `[cardinality, dimensionality]`.
   */
  function ConvertVectorsSpec(file: Option<seq<Byte>>, t: ElementType, batchSize: nat, name: string, dir: Path): (r: Conversion)
    requires batchSize > 0
    ensures r.result.Ok? ==>
      file.Some? && RowBytes(U32, 2) <= |file.value| && r.result.value == Header(file.value[..RowBytes(U32, 2)])
    ensures r.result.Err? ==> r.result.error.Error? || r.result.error == Panic(NoColumns)
  {
    if file.None? then Conversion(Err(Error(OpenFailed(name))), [])
    else if |file.value| < RowBytes(U32, 2) then Conversion(Err(Error(RowUnreadable)), [])
    else
      var (expected, dim) := Header(file.value[..RowBytes(U32, 2)]);
      var count := |StepBy(0, expected, batchSize)|;
      BatchLoopBounds(file.value[RowBytes(U32, 2)..], t, batchSize, dim, dir, name, 0, count);
      Check(expected, dim, BatchLoop(file.value[RowBytes(U32, 2)..], t, batchSize, dim, dir, name, 0, count))
  }

  /**
   * One pass of the loop of `convert_vectors`: batch `i` converted by
   * `convert_batch_arrow`, its files appended to those written so far. A
   * fault ends the loop; otherwise its rows are added to the total and the
   * loop goes on with the next batch from where this one stopped reading.
   */
  method NextBatch(handle: ByteStream, t: ElementType, batchSize: nat, dim: nat, outDir: OutputDir, name: string,
                   i: nat, ghost left: nat, ghost whole: LoopEnd, ghost cardinality: nat,
                   ghost before: seq<ArrowFile>, ghost files: seq<ArrowFile>)
    returns (r: Result<nat, Fault>, ghost written: seq<ArrowFile>)
    requires handle.Valid() && left > 0
    requires whole == After(cardinality, files, BatchLoop(handle.Rest(), t, batchSize, dim, outDir.path, name, i, left))
    requires outDir.written == before + files
    modifies handle, outDir
    ensures handle.Valid()
    ensures outDir.written == before + (files + written)
    ensures r.Err? ==> whole == LoopEnd(r, files + written)
    ensures r.Ok? ==>
      whole == After(cardinality + r.value, files + written,
                     BatchLoop(handle.Rest(), t, batchSize, dim, outDir.path, name, i + 1, left - 1))
  {
    ghost var step := BatchSpec(handle.Rest(), t, batchSize, dim, outDir.path, name, i);
    ghost var later := BatchLoop(step.rest, t, batchSize, dim, outDir.path, name, i + 1, left - 1);
    BatchLoopNext(handle.Rest(), t, batchSize, dim, outDir.path, name, i, left);
    if step.result.Ok? {
      AfterAfter(cardinality, files, step.result.value, step.files, later);
    }
    r := ConvertBatchArrow(handle, t, batchSize, dim, outDir, name, i);
    written := step.files;
    AppendAssoc(before, files, written);
  }

  /**
   * The loop of `convert_vectors`: `count` batches, batch `i` converted by
   * `convert_batch_arrow` from where batch `i - 1` stopped reading, their
   * row counts added up, and the first fault passed on.
   */
  method ConvertBatches(handle: ByteStream, t: ElementType, batchSize: nat, dim: nat, outDir: OutputDir,
                        name: string, count: nat) returns (r: Result<nat, Fault>)
    requires handle.Valid()
    modifies handle, outDir
    ensures var loop := BatchLoop(old(handle.Rest()), t, batchSize, dim, outDir.path, name, 0, count);
      r == loop.result && outDir.written == old(outDir.written) + loop.files
  {
    ghost var whole := BatchLoop(handle.Rest(), t, batchSize, dim, outDir.path, name, 0, count);
    ghost var before := outDir.written;
    ghost var files: seq<ArrowFile> := [];
    AfterNothing(whole);
    var cardinality := 0;
    var i := 0;
    while i < count
      invariant handle.Valid() && i <= count
      invariant outDir.written == before + files
      invariant whole == After(cardinality, files, BatchLoop(handle.Rest(), t, batchSize, dim, outDir.path, name, i, count - i))
    {
      var batchLen;
      ghost var written;
      batchLen, written := NextBatch(handle, t, batchSize, dim, outDir, name, i, count - i, whole, cardinality, before, files);
      if batchLen.Err? {
        return Err(batchLen.error);
      }
      files := files + written;
      cardinality := cardinality + batchLen.value;
      i := i + 1;
    }
    AfterEnd(cardinality, files);
    r := Ok(cardinality);
  }

  /** A loop that has counted nothing and written nothing yet is the loop still to come. */
  lemma AfterNothing(later: LoopEnd)
    ensures After(0, [], later) == later
  {
    assert [] + later.files == later.files;
  }

  /** A loop with nothing more to come ends with what it has counted and written. */
  lemma AfterEnd(cardinality: nat, files: seq<ArrowFile>)
    ensures After(cardinality, files, LoopEnd(Ok(0), [])) == LoopEnd(Ok(cardinality), files)
  {
    assert files + [] == files;
  }

  /**
   * `convert_vectors`: opens the file, reads the header, converts one batch
   * per step of `(0..expected).step_by(batch_size)`, adding up the rows of
   * the batches, and checks the total against the declared number.
   */
  method ConvertVectors(fs: FileSystem, inpPath: Path, t: ElementType, batchSize: nat, name: string, outDir: OutputDir)
    returns (r: Result<(nat, nat), Fault>)
    requires batchSize > 0
    modifies outDir
    ensures var c := ConvertVectorsSpec(Lookup(fs, inpPath), t, batchSize, name, outDir.path);
      r == c.result && outDir.written == old(outDir.written) + c.files
  {
    var file := Open(fs, inpPath);
    if file.None? {
      return Err(Error(OpenFailed(name)));
    }
    var handle := file.value;
    ghost var data := handle.Rest();
    var carDim := ReadRow(handle, U32, 2);
    if carDim.Err? {
      return Err(Error(carDim.error));
    }
    HeaderRow(data[..RowBytes(U32, 2)]);
    var expected, dim := carDim.value[0].value as nat, carDim.value[1].value as nat;
    var steps := StepBy(0, expected, batchSize);
    var cardinality := ConvertBatches(handle, t, batchSize, dim, outDir, name, |steps|);
    if cardinality.Err? {
      return Err(cardinality.error);
    }
    if expected == cardinality.value {
      r := Ok((cardinality.value, dim));
    } else {
      r := Err(Error(CountMismatch(cardinality.value, expected)));
    }
  }

  // ---------------------------------------------------------------------------
  // What converting one vector file amounts to
  // ---------------------------------------------------------------------------

  /** All the batches, one after another. */
  function Flatten<T>(xss: seq<seq<T>>): seq<T> {
    if xss == [] then [] else xss[0] + Flatten(xss[1..])
  }

  lemma FlattenCons<T>(xs: seq<T>, xss: seq<seq<T>>)
    ensures Flatten([xs] + xss) == xs + Flatten(xss)
  {
    assert ([xs] + xss)[1..] == xss;
  }

  /** The batches read from a stream, the bytes left, and whether an empty batch panicked. */
  datatype Batched = Batched(batches: seq<seq<Block>>, rest: seq<Byte>, panicked: bool)

  function Prepend(done: seq<seq<Block>>, b: Batched): Batched {
    Batched(done + b.batches, b.rest, b.panicked)
  }

  /**
   * The reading done by `count` turns of the loop of `convert_vectors`: each
   * batch takes up to `batchSize` blocks of `n` bytes, and the first batch
   * that takes none panics and ends the loop.
   */
  function Batches(n: nat, rest: seq<Byte>, batchSize: nat, count: nat): (b: Batched)
    ensures |b.batches| <= count
    ensures forall k :: 0 <= k < |b.batches| ==> Sized(n, b.batches[k])
    decreases count
  {
    if count == 0 then Batched([], rest, false)
    else
      var tk := TakeBlocks(n, rest, batchSize);
      if tk.blocks == [] then Batched([], tk.rest, true)
      else Prepend([tk.blocks], Batches(n, tk.rest, batchSize, count - 1))
  }

  /** Batch after batch, the rows read are exactly the first `count * batchSize` rows the stream holds. */
  lemma {:induction false} BatchesFlatten(n: nat, rest: seq<Byte>, batchSize: nat, count: nat)
    requires batchSize > 0
    ensures Flatten(Batches(n, rest, batchSize, count).batches) == TakeBlocks(n, rest, count * batchSize).blocks
    decreases count
  {
    if count > 0 {
      var tk := TakeBlocks(n, rest, batchSize);
      var later := (count - 1) * batchSize;
      MulSucc(count - 1, batchSize);
      TakeBlocksSplit(n, rest, batchSize, later);
      if tk.blocks == [] {
        TakeBlocksAfterFailure(n, rest, batchSize, later);
      } else {
        var more := Batches(n, tk.rest, batchSize, count - 1);
        BatchesFlatten(n, tk.rest, batchSize, count - 1);
        assert ([tk.blocks] + more.batches)[1..] == more.batches;
      }
    }
  }

  /**
   * The loop panics exactly when the rows the stream holds run out before
   * its last batch: all `count * batchSize` reads together yield no more
   * than the first `count - 1` batches can hold.
   */
  lemma {:induction false} BatchesPanic(n: nat, rest: seq<Byte>, batchSize: nat, count: nat)
    requires batchSize > 0
    ensures Batches(n, rest, batchSize, count).panicked <==>
      count > 0 && |TakeBlocks(n, rest, count * batchSize).blocks| <= (count - 1) * batchSize
    decreases count
  {
    if count > 0 {
      var tk := TakeBlocks(n, rest, batchSize);
      var later := (count - 1) * batchSize;
      MulSucc(count - 1, batchSize);
      TakeBlocksSplit(n, rest, batchSize, later);
      var m' := |TakeBlocks(n, tk.rest, later).blocks|;
      assert |TakeBlocks(n, rest, count * batchSize).blocks| == |tk.blocks| + m';
      if tk.blocks == [] {
      } else if |tk.blocks| == batchSize {
        BatchesPanic(n, tk.rest, batchSize, count - 1);
        if count >= 2 {
          MulSucc(count - 2, batchSize);
        }
      } else {
        TakeBlocksCount(n, rest, batchSize);
        assert n > 0 && tk.rest == [];
        assert m' == 0;
        if count >= 2 {
          MulSucc(count - 2, batchSize);
          assert Batches(n, tk.rest, batchSize, count - 1).panicked;
        }
      }
    }
  }

  /**
   * Every batch but the last is full: a batch ends short of `batchSize` rows
   * only when the rows run out, and then no batch follows.
   */
  lemma {:induction false} BatchesFull(n: nat, rest: seq<Byte>, batchSize: nat, count: nat, k: nat)
    requires k + 1 < |Batches(n, rest, batchSize, count).batches|
    ensures |Batches(n, rest, batchSize, count).batches[k]| == batchSize
    decreases count
  {
    var tk := TakeBlocks(n, rest, batchSize);
    var more := Batches(n, tk.rest, batchSize, count - 1);
    assert Batches(n, rest, batchSize, count).batches == [tk.blocks] + more.batches;
    if k == 0 {
      TakeBlocksCount(n, rest, batchSize);
      assert n > 0 ==> TakeBlocks(n, [], batchSize).blocks == [];
    } else {
      BatchesFull(n, tk.rest, batchSize, count - 1, k - 1);
    }
  }

  /** The files the batches are written to: batch `k` to `"{name}-{first + k}.arrow"`. */
  function BatchFiles(dir: Path, name: string, t: ElementType, dim: nat, first: nat, batches: seq<seq<Block>>): (files: seq<ArrowFile>)
    requires forall k :: 0 <= k < |batches| ==> Sized(RowBytes(t, dim), batches[k])
    ensures |files| == |batches|
  {
    seq(|batches|, k requires 0 <= k < |batches| => BatchFile(dir, name, first + k, t, dim, batches[k]))
  }

  lemma BatchFilesSingle(dir: Path, name: string, t: ElementType, dim: nat, i: nat, batch: seq<Block>)
    requires Sized(RowBytes(t, dim), batch)
    ensures BatchFiles(dir, name, t, dim, i, [batch]) == [BatchFile(dir, name, i, t, dim, batch)]
  {
  }

  lemma BatchFilesCons(dir: Path, name: string, t: ElementType, dim: nat, first: nat, batch: seq<Block>, batches: seq<seq<Block>>)
    requires Sized(RowBytes(t, dim), batch)
    requires forall k :: 0 <= k < |batches| ==> Sized(RowBytes(t, dim), batches[k])
    ensures forall k :: 0 <= k < |[batch] + batches| ==> Sized(RowBytes(t, dim), ([batch] + batches)[k])
    ensures BatchFiles(dir, name, t, dim, first, [batch] + batches) ==
      [BatchFile(dir, name, first, t, dim, batch)] + BatchFiles(dir, name, t, dim, first + 1, batches)
  {
    var all := [batch] + batches;
    assert forall k :: 0 <= k < |all| ==> Sized(RowBytes(t, dim), all[k]);
    var lhs := BatchFiles(dir, name, t, dim, first, all);
    var rhs := [BatchFile(dir, name, first, t, dim, batch)] + BatchFiles(dir, name, t, dim, first + 1, batches);
    forall k | 0 <= k < |lhs|
      ensures lhs[k] == rhs[k]
    {
      if k > 0 {
        assert all[k] == batches[k - 1];
      }
    }
  }

  /** How a loop that read the batches `b` and wrote `files` ends: with the panic of an empty batch, or with the rows counted. */
  function LoopOf(b: Batched, files: seq<ArrowFile>): LoopEnd {
    LoopEnd(if b.panicked then Err(Panic(NoColumns)) else Ok(|Flatten(b.batches)|), files)
  }

  /** A full batch `x`, written to `file`, followed by the batches `b`. */
  lemma AfterLoopOf(x: seq<Block>, file: ArrowFile, files: seq<ArrowFile>, b: Batched)
    ensures After(|x|, [file], LoopOf(b, files)) == LoopOf(Prepend([x], b), [file] + files)
  {
    FlattenCons(x, b.batches);
  }

  /**
   * The loop in closed form: it counts every row of the batches it reads,
   * writes batch `k` to file `first + k` and ends with the panic of an empty
   * batch if it meets one.
   */
  lemma {:induction false} BatchLoopBatches(rest: seq<Byte>, t: ElementType, batchSize: nat, dim: nat, dir: Path,
                                            name: string, first: nat, count: nat)
    ensures var b := Batches(RowBytes(t, dim), rest, batchSize, count);
      BatchLoop(rest, t, batchSize, dim, dir, name, first, count) == LoopOf(b, BatchFiles(dir, name, t, dim, first, b.batches))
    decreases count
  {
    var n := RowBytes(t, dim);
    if count > 0 {
      var tk := TakeBlocks(n, rest, batchSize);
      BatchLoopNext(rest, t, batchSize, dim, dir, name, first, count);
      BatchSpecOf(rest, t, batchSize, dim, dir, name, first, tk.blocks, tk.rest);
      if tk.blocks != [] {
        var more := Batches(n, tk.rest, batchSize, count - 1);
        BatchLoopBatches(tk.rest, t, batchSize, dim, dir, name, first + 1, count - 1);
        BatchFilesCons(dir, name, t, dim, first, tk.blocks, more.batches);
        BatchFilesSingle(dir, name, t, dim, first, tk.blocks);
        AfterLoopOf(tk.blocks, BatchFile(dir, name, first, t, dim, tk.blocks),
                    BatchFiles(dir, name, t, dim, first + 1, more.batches), more);
      }
    }
  }

  /** `convert_vectors` on a file that holds a header, with its loop in closed form. */
  lemma ConvertVectorsClosed(data: seq<Byte>, t: ElementType, batchSize: nat, name: string, dir: Path)
    requires batchSize > 0 && |data| >= RowBytes(U32, 2)
    ensures var header := Header(data[..RowBytes(U32, 2)]);
      var b := Batches(RowBytes(t, header.1), data[RowBytes(U32, 2)..], batchSize, |StepBy(0, header.0, batchSize)|);
      ConvertVectorsSpec(Some(data), t, batchSize, name, dir) ==
      Check(header.0, header.1, LoopOf(b, BatchFiles(dir, name, t, header.1, 0, b.batches)))
  {
    var header := Header(data[..RowBytes(U32, 2)]);
    BatchLoopBatches(data[RowBytes(U32, 2)..], t, batchSize, header.1, dir, name, 0, |StepBy(0, header.0, batchSize)|);
  }

  /**
   * The outcome of `convert_vectors` on a file that holds a header: the
   * batches are consecutive runs of the rows read, where at most
   * `count * batchSize` rows are read for `count` steps; batch `k` is
   * written to `"{name}-{k}.arrow"`; and the result is a panic when the rows
   * run out before the last batch, success when exactly the declared number
   * of rows was read, and otherwise the count-mismatch error.
   */
  lemma ConvertVectorsOutcome(data: seq<Byte>, t: ElementType, batchSize: nat, name: string, dir: Path)
    requires batchSize > 0 && |data| >= RowBytes(U32, 2)
    ensures var header := Header(data[..RowBytes(U32, 2)]);
      var expected, dim := header.0, header.1;
      var body := data[RowBytes(U32, 2)..];
      var count := |StepBy(0, expected, batchSize)|;
      var read := TakeBlocks(RowBytes(t, dim), body, count * batchSize).blocks;
      var b := Batches(RowBytes(t, dim), body, batchSize, count);
      var c := ConvertVectorsSpec(Some(data), t, batchSize, name, dir);
      && Flatten(b.batches) == read
      && c.files == BatchFiles(dir, name, t, dim, 0, b.batches)
      && c.result == (if count > 0 && |read| <= (count - 1) * batchSize then Err(Panic(NoColumns))
                      else if |read| == expected then Ok((expected, dim))
                      else Err(Error(CountMismatch(|read|, expected))))
  {
    var header := Header(data[..RowBytes(U32, 2)]);
    var expected, dim := header.0, header.1;
    var body := data[RowBytes(U32, 2)..];
    var count := |StepBy(0, expected, batchSize)|;
    ConvertVectorsClosed(data, t, batchSize, name, dir);
    BatchesFlatten(RowBytes(t, dim), body, batchSize, count);
    BatchesPanic(RowBytes(t, dim), body, batchSize, count);
  }

  lemma MulMonotone(a: nat, b: nat, n: nat)
    requires a <= b
    ensures a * n <= b * n
  {
    assert b * n == a * n + (b - a) * n;
  }

  lemma MulCancelLess(a: nat, b: nat, n: nat)
    requires a * n < b * n
    ensures a < b
  {
    if b <= a {
      MulMonotone(b, a, n);
    }
  }

  /**
   * Whether a vector file converts: it holds a header, its body holds the
   * declared number of rows and, unless the batches have room for exactly
   * that many, no further whole row (a surplus row would be read into the
   * last batch and spoil the count).
   */
  predicate Convertible(data: seq<Byte>, t: ElementType, batchSize: nat)
    requires batchSize > 0
  {
    && |data| >= RowBytes(U32, 2)
    && var header := Header(data[..RowBytes(U32, 2)]);
       var expected, n := header.0, RowBytes(t, header.1);
       var body := data[RowBytes(U32, 2)..];
       && expected * n <= |body|
       && (expected == |StepBy(0, expected, batchSize)| * batchSize || |body| < expected * n + n)
  }

  /**
   * `convert_vectors` succeeds on a file exactly when the file is
   * convertible, and then returns the declared number of vectors and their
   * dimensionality.
   */
  lemma ConvertVectorsSucceeds(data: seq<Byte>, t: ElementType, batchSize: nat, name: string, dir: Path)
    requires batchSize > 0
    ensures var c := ConvertVectorsSpec(Some(data), t, batchSize, name, dir);
      && (c.result.Ok? <==> Convertible(data, t, batchSize))
      && (c.result.Ok? ==> c.result.value == Header(data[..RowBytes(U32, 2)]))
  {
    if |data| < RowBytes(U32, 2) {
      return;
    }
    var header := Header(data[..RowBytes(U32, 2)]);
    var expected, dim := header.0, header.1;
    var n := RowBytes(t, dim);
    var body := data[RowBytes(U32, 2)..];
    var count := |StepBy(0, expected, batchSize)|;
    var limit := count * batchSize;
    var m := |TakeBlocks(n, body, limit).blocks|;
    ConvertVectorsOutcome(data, t, batchSize, name, dir);
    BatchCount(expected, batchSize);
    TakeBlocksCount(n, body, limit);
    ReadsExactly(m, limit, expected, n, |body|);
  }

  /**
   * Reading up to `limit` rows of `n` bytes from `size` bytes yields exactly
   * `expected` rows (at most `limit`) when the bytes hold `expected` rows and,
   * unless `expected` is the limit, not one more.
   */
  lemma ReadsExactly(m: nat, limit: nat, expected: nat, n: nat, size: nat)
    requires m <= limit && m * n <= size && (m < limit ==> size < m * n + n)
    requires expected <= limit
    ensures m == expected <==> expected * n <= size && (expected == limit || size < expected * n + n)
  {
    MulSucc(m, n);
    MulSucc(expected, n);
    if m != expected && expected * n <= size && (expected == limit || size < expected * n + n) {
      if m < limit {
        MulCancelLess(expected, m + 1, n);
        if expected < limit {
          MulCancelLess(m, expected + 1, n);
        }
      } else if expected < limit {
        MulCancelLess(m, expected + 1, n);
      }
      assert false;
    }
  }

  /** The Arrow files `convert_vectors` writes lie in the output directory, file `k` named `"{name}-{k}.arrow"`. */
  lemma ConvertVectorsPaths(file: Option<seq<Byte>>, t: ElementType, batchSize: nat, name: string, dir: Path)
    requires batchSize > 0
    ensures var c := ConvertVectorsSpec(file, t, batchSize, name, dir);
      forall k :: 0 <= k < |c.files| ==> c.files[k].path == dir + [BatchFileName(name, k)]
  {
    if file.Some? && |file.value| >= RowBytes(U32, 2) {
      var data := file.value;
      var header := Header(data[..RowBytes(U32, 2)]);
      var b := Batches(RowBytes(t, header.1), data[RowBytes(U32, 2)..], batchSize, |StepBy(0, header.0, batchSize)|);
      ConvertVectorsClosed(data, t, batchSize, name, dir);
      CheckFiles(header.0, header.1, LoopOf(b, BatchFiles(dir, name, t, header.1, 0, b.batches)));
      BatchFilesPaths(dir, name, t, header.1, b.batches);
    }
  }

  /** The check after the loop passes the loop's files on unchanged. */
  lemma CheckFiles(expected: nat, dim: nat, loop: LoopEnd)
    ensures Check(expected, dim, loop).files == loop.files
  {
  }

  /** Batch `k` of a run of files starting at batch 0 is written to `"{name}-{k}.arrow"`. */
  lemma BatchFilesPaths(dir: Path, name: string, t: ElementType, dim: nat, batches: seq<seq<Block>>)
    requires forall k :: 0 <= k < |batches| ==> Sized(RowBytes(t, dim), batches[k])
    ensures var files := BatchFiles(dir, name, t, dim, 0, batches);
      forall k :: 0 <= k < |files| ==> files[k].path == dir + [BatchFileName(name, k)]
  {
  }

  /** A one-byte number padded to four bytes keeps its value. */
  lemma LeValueSmall(b: Byte)
    ensures LeValue([b, 0, 0, 0]) == b as nat
  {
    var zero: seq<Byte> := [0];
    assert zero[1..] == [];
    assert LeValue(zero) == 0;
    assert ([0] + zero)[1..] == zero;
    assert LeValue([0] + zero) == 0;
    assert ([0, 0] + zero)[1..] == [0] + zero;
    assert LeValue([0, 0] + zero) == 0;
    assert [b, 0, 0, 0][1..] == [0, 0] + zero;
  }

  /** The bytes of the `u8` row `[a, b]`, decoded. */
  lemma DecodeU8Pair(a: Byte, b: Byte)
    ensures DecodeRow(U8, 2, [a, b]) == [Int(a as int), Int(b as int)]
  {
    DecodeRowCons(U8, 2, [a, b]);
    DecodeRowCons(U8, 1, [b]);
    assert [a, b][..1] == [a] && [a, b][1..] == [b] && [b][..1] == [b];
    assert LeValue([a]) == a as nat by {
      assert [a][1..] == [];
    }
    assert LeValue([b]) == b as nat by {
      assert [b][1..] == [];
    }
    SameHeadAndTail(DecodeRow(U8, 2, [a, b]), [Int(a as int), Int(b as int)]);
  }

  /** The header of the worked instance declares 3 vectors of 2 scalars. */
  lemma ExampleHeader(data: seq<Byte>)
    requires data == [3, 0, 0, 0, 2, 0, 0, 0]
    ensures Header(data) == (3, 2)
  {
    assert data[..4] == [3, 0, 0, 0] && data[4..] == [2, 0, 0, 0];
    LeValueSmall(3);
    LeValueSmall(2);
  }

  /** The rows of the worked instance, read two at a time. */
  lemma ExampleBatches(body: seq<Byte>)
    requires body == [1, 2, 3, 4, 5, 6]
    ensures Batches(2, body, 2, 2) == Batched([[[1, 2], [3, 4]], [[5, 6]]], [], false)
  {
    assert body[..2] == [1, 2] && body[2..] == [3, 4, 5, 6];
    assert body[2..][..2] == [3, 4] && body[2..][2..] == [5, 6];
    assert TakeBlocks(2, [5, 6], 0) == Taken([], [5, 6]);
    assert TakeBlocks(2, body, 2) == Taken([[1, 2], [3, 4]], [5, 6]);
    assert [5, 6][..2] == [5, 6] && [5, 6][2..] == [];
    assert TakeBlocks(2, [], 1) == Taken([], []);
    assert TakeBlocks(2, [5, 6], 2) == Taken([[5, 6]], []);
    assert Batches(2, [], 2, 0) == Batched([], [], false);
  }

  /** The bytes of the worked instance: a header `[3, 2]`, then the rows `[1, 2]`, `[3, 4]`, `[5, 6]`. */
  function ExampleData(): seq<Byte> {
    [3, 0, 0, 0, 2, 0, 0, 0, 1, 2, 3, 4, 5, 6]
  }

  /** The rows of the worked instance as they are read, in batches of two. */
  function ExampleBatchList(): seq<seq<Block>> {
    [[[1, 2], [3, 4]], [[5, 6]]]
  }

  /** The worked instance's three rows take two steps of `(0..3).step_by(2)`. */
  lemma ExampleSteps()
    ensures |StepBy(0, 3, 2)| == 2
  {
    assert StepBy(0, 3, 2) == [0, 2];
  }

  /** The worked instance's batches hold three rows in all. */
  lemma ExampleRowCount()
    ensures |Flatten(ExampleBatchList())| == 3
  {
    var batches := ExampleBatchList();
    FlattenCons(batches[0], batches[1..]);
    FlattenCons(batches[1], []);
  }

  /** The worked instance converts whole, into one file per batch of rows read. */
  lemma ExampleOutcome(dir: Path)
    ensures forall k :: 0 <= k < |ExampleBatchList()| ==> Sized(RowBytes(U8, 2), ExampleBatchList()[k])
    ensures var c := ConvertVectorsSpec(Some(ExampleData()), U8, 2, "base", dir);
      c.result == Ok((3, 2)) && c.files == BatchFiles(dir, "base", U8, 2, 0, ExampleBatchList())
  {
    var data := ExampleData();
    ExampleHeader(data[..8]);
    ExampleBatches(data[8..]);
    ExampleSteps();
    ExampleRowCount();
    ConvertVectorsClosed(data, U8, 2, "base", dir);
  }

  /** The files the worked instance must produce: batch 0 holds `[1, 2]` and `[3, 4]`, batch 1 holds `[5, 6]`. */
  predicate ExampleFilesAre(files: seq<ArrowFile>, dir: Path) {
    && |files| == 2
    && files[0].path == dir + [BatchFileName("base", 0)]
    && files[1].path == dir + [BatchFileName("base", 1)]
    && (forall k :: 0 <= k < |files[0].batch.columns| ==> NoNulls(files[0].batch.columns[k]))
    && (forall k :: 0 <= k < |files[1].batch.columns| ==> NoNulls(files[1].batch.columns[k]))
    && RowsOfBatch(files[0].batch) == [[Int(1), Int(2)], [Int(3), Int(4)]]
    && RowsOfBatch(files[1].batch) == [[Int(5), Int(6)]]
  }

  /** The files of the worked instance's batches. */
  lemma ExampleFiles(dir: Path)
    requires forall k :: 0 <= k < |ExampleBatchList()| ==> Sized(RowBytes(U8, 2), ExampleBatchList()[k])
    ensures ExampleFilesAre(BatchFiles(dir, "base", U8, 2, 0, ExampleBatchList()), dir)
  {
    var first: seq<Block> := [[1, 2], [3, 4]];
    var second: seq<Block> := [[5, 6]];
    BatchFileContents(dir, "base", 0, U8, 2, first);
    BatchFileContents(dir, "base", 1, U8, 2, second);
    ExampleFirstRows(first);
    ExampleSecondRows(second);
  }

  /** The rows of the worked instance's first batch. */
  lemma ExampleFirstRows(first: seq<Block>)
    requires first == [[1, 2], [3, 4]]
    ensures Sized(RowBytes(U8, 2), first) && DecodeRows(U8, 2, first) == [[Int(1), Int(2)], [Int(3), Int(4)]]
  {
    DecodeU8Pair(1, 2);
    DecodeU8Pair(3, 4);
  }

  /** The row of the worked instance's second batch. */
  lemma ExampleSecondRows(second: seq<Block>)
    requires second == [[5, 6]]
    ensures Sized(RowBytes(U8, 2), second) && DecodeRows(U8, 2, second) == [[Int(5), Int(6)]]
  {
    DecodeU8Pair(5, 6);
  }

  /**
   * A worked instance: three `u8` vectors of two scalars, `[1, 2]`, `[3, 4]`
   * and `[5, 6]`, converted in batches of two, make two files, the first
   * holding the first two vectors and the second the last one; the result
   * is 3 vectors of dimensionality 2.
   */
  lemma ConvertVectorsExample(dir: Path)
    ensures var c := ConvertVectorsSpec(Some(ExampleData()), U8, 2, "base", dir);
      c.result == Ok((3, 2)) && ExampleFilesAre(c.files, dir)
  {
    ExampleOutcome(dir);
    ExampleFiles(dir);
  }

  // ---------------------------------------------------------------------------
  // Both sets (`RawData::convert`)
  // ---------------------------------------------------------------------------

  /** What converting a dataset does: the summary or the fault, and every Arrow file written. */
  datatype Run = Run(result: Result<StandardData, Fault>, files: seq<ArrowFile>)

  /**
   * `RawData::convert`: the base set, then the query set, each into the
   * output directory; the first fault ends the conversion. The ground-truth
   * file is not read.
   */
  function ConvertSpec(fs: FileSystem, raw: RawData, t: ElementType, dir: Path, batchSize: nat): (r: Run)
    requires batchSize > 0
    ensures r.result.Ok? ==> raw.basePath in fs && raw.queryPath in fs
    ensures r.result.Ok? ==> r.result.value.dataDir == dir && r.result.value.batchSize == batchSize
  {
    var base := ConvertVectorsSpec(Lookup(fs, raw.basePath), t, batchSize, "base", dir);
    if base.result.Err? then Run(Err(base.result.error), base.files)
    else
      var query := ConvertVectorsSpec(Lookup(fs, raw.queryPath), t, batchSize, "query", dir);
      if query.result.Err? then Run(Err(query.result.error), base.files + query.files)
      else
        var (cardinality, dimensionality) := base.result.value;
        Run(Ok(StandardData(dir, dimensionality, cardinality, batchSize, query.result.value.0)), base.files + query.files)
  }

  /**
   * `RawData::convert`: converts the base vectors, then the query vectors,
   * and reports the output directory, the base set's dimensionality and
   * cardinality, the batch size and the number of queries.
   */
  method Convert(raw: RawData, fs: FileSystem, t: ElementType, outDir: OutputDir, batchSize: nat)
    returns (r: Result<StandardData, Fault>)
    requires batchSize > 0
    modifies outDir
    ensures var run := ConvertSpec(fs, raw, t, outDir.path, batchSize);
      r == run.result && outDir.written == old(outDir.written) + run.files
  {
    var base := ConvertVectors(fs, raw.basePath, t, batchSize, "base", outDir);
    if base.Err? {
      return Err(base.error);
    }
    ghost var afterBase := outDir.written;
    var query := ConvertVectors(fs, raw.queryPath, t, batchSize, "query", outDir);
    ghost var c := ConvertVectorsSpec(Lookup(fs, raw.queryPath), t, batchSize, "query", outDir.path);
    AppendAssoc(old(outDir.written), afterBase[|old(outDir.written)|..], c.files);
    if query.Err? {
      return Err(query.error);
    }
    var (cardinality, dimensionality) := base.value;
    r := Ok(StandardData(outDir.path, dimensionality, cardinality, batchSize, query.value.0));
  }

  /**
   * A dataset converts exactly when both its base and its query file exist
   * and are convertible; the summary then holds the output directory, the
   * dimensionality and number of vectors the base header declares, the batch
   * size, and the number of vectors the query header declares. The
   * ground-truth path plays no part.
   */
  lemma ConvertSucceeds(fs: FileSystem, raw: RawData, t: ElementType, dir: Path, batchSize: nat, ground: Path)
    requires batchSize > 0
    ensures var run := ConvertSpec(fs, raw, t, dir, batchSize);
      && (run.result.Ok? <==>
            && raw.basePath in fs && Convertible(fs[raw.basePath], t, batchSize)
            && raw.queryPath in fs && Convertible(fs[raw.queryPath], t, batchSize))
      && (run.result.Ok? ==>
            var base := Header(fs[raw.basePath][..RowBytes(U32, 2)]);
            var query := Header(fs[raw.queryPath][..RowBytes(U32, 2)]);
            run.result.value == StandardData(dir, base.1, base.0, batchSize, query.0))
      && run == ConvertSpec(fs, raw.(groundPath := ground), t, dir, batchSize)
  {
    if raw.basePath in fs {
      ConvertVectorsSucceeds(fs[raw.basePath], t, batchSize, "base", dir);
    }
    if raw.queryPath in fs {
      ConvertVectorsSucceeds(fs[raw.queryPath], t, batchSize, "query", dir);
    }
  }

  /** Every file a conversion writes lies directly inside the output directory. */
  lemma ConvertFilesInDir(fs: FileSystem, raw: RawData, t: ElementType, dir: Path, batchSize: nat)
    requires batchSize > 0
    ensures var files := ConvertSpec(fs, raw, t, dir, batchSize).files;
      forall k :: 0 <= k < |files| ==> |files[k].path| == |dir| + 1 && files[k].path[..|dir|] == dir
  {
    var base := ConvertVectorsSpec(Lookup(fs, raw.basePath), t, batchSize, "base", dir);
    var query := ConvertVectorsSpec(Lookup(fs, raw.queryPath), t, batchSize, "query", dir);
    ConvertVectorsPaths(Lookup(fs, raw.basePath), t, batchSize, "base", dir);
    ConvertVectorsPaths(Lookup(fs, raw.queryPath), t, batchSize, "query", dir);
    var files := ConvertSpec(fs, raw, t, dir, batchSize).files;
    forall k | 0 <= k < |files|
      ensures |files[k].path| == |dir| + 1 && files[k].path[..|dir|] == dir
    {
      var (name, j) := if k < |base.files| then ("base", k) else ("query", k - |base.files|);
      assert files[k].path == dir + [BatchFileName(name, j)];
    }
  }

  /**
   * No Arrow file is written twice: the base batches are named
   * `"base-{k}.arrow"`, the query batches `"query-{k}.arrow"`, all in the
   * output directory.
   */
  lemma ConvertFilesDistinct(fs: FileSystem, raw: RawData, t: ElementType, dir: Path, batchSize: nat)
    requires batchSize > 0
    ensures var files := ConvertSpec(fs, raw, t, dir, batchSize).files;
      forall a, b :: 0 <= a < b < |files| ==> files[a].path != files[b].path
  {
    var base := ConvertVectorsSpec(Lookup(fs, raw.basePath), t, batchSize, "base", dir);
    var query := ConvertVectorsSpec(Lookup(fs, raw.queryPath), t, batchSize, "query", dir);
    ConvertVectorsPaths(Lookup(fs, raw.basePath), t, batchSize, "base", dir);
    ConvertVectorsPaths(Lookup(fs, raw.queryPath), t, batchSize, "query", dir);
    var files := ConvertSpec(fs, raw, t, dir, batchSize).files;
    forall a, b | 0 <= a < b < |files|
      ensures files[a].path != files[b].path
    {
      var (nameA, kA) := if a < |base.files| then ("base", a) else ("query", a - |base.files|);
      var (nameB, kB) := if b < |base.files| then ("base", b) else ("query", b - |base.files|);
      assert files[a].path == dir + [BatchFileName(nameA, kA)];
      assert files[b].path == dir + [BatchFileName(nameB, kB)];
      if files[a].path == files[b].path {
        assert (dir + [BatchFileName(nameA, kA)])[|dir|] == BatchFileName(nameA, kA);
        assert (dir + [BatchFileName(nameB, kB)])[|dir|] == BatchFileName(nameB, kB);
        BatchFileNameInjective(nameA, kA, nameB, kB);
        assert false;
      }
    }
  }
}
