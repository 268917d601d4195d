# Raw-to-standard conversion of the big-ANN benchmark datasets

This project models, in Dafny, the converter that turns the raw vector
files of the big-ANN benchmark datasets (BigANN, FB-SSNPP, MSFT-SpaceV,
MSFT-Turing, Yandex-Deep) into batches of Apache Arrow record batches, and
proves what the conversion does.

A raw vector file starts with a header of two little-endian `u32` values:
the declared number of vectors and their dimensionality. After the header
come the vectors, each holding `dimensionality` scalars of the dataset's
element type.

`convert_vectors` reads the header, then runs one batch per step of
`(0..declared).step_by(batch_size)`. Each batch (`convert_batch_arrow`)
reads up to `batch_size` rows with `read_row` and stops at the first read
that fails. It builds a record batch whose column `k`, named `"k"`, holds
the k-th row, and writes it to `"{name}-{i}.arrow"` in the output
directory. The rows read are summed and checked against the declared
number. `RawData::convert` converts the base file and then the query file,
and returns the summary (`StandardData`). The dataset registry maps the
command-line names to datasets. It fixes each dataset's raw file names,
element type and batch size.

Modules:

- `Wrappers`: `Option` and `Result`.
- `Number`: element types, little-endian decoding and encoding of one scalar (`from_le_bytes`).
- `Arrow`: typed arrays and the checks `RecordBatch::try_from_iter_with_nullable` makes.
- `Io`: paths, the input file system, the byte stream with `read_exact` (a class), and the output directory, which logs the files written (a class).
- `Decimal`: `format!("{i}")` for counts and indices.
- `Standard`: the `StandardData` summary.
- `Raw`: `src/data/raw.rs`.
- `Prepare`: `src/data/prepare.rs`.

The imperative parts of `raw.rs` are methods over the stream and
output-directory classes, each proved equal to a specification function:
`Raw.ReadRow`, `Raw.ReadBatch` (the row loop of a batch),
`Raw.ConvertBatchArrow`, `Raw.NextBatch` and `Raw.ConvertBatches` (the
`for` loop with its accumulator), `Raw.ConvertVectors` and `Raw.Convert`. The
properties are lemmas about those functions.

Behaviour of the code that the model keeps:

- A read that fails inside a batch is not an error. It ends the batch (`break`).
- A batch that reads no row gives a record batch with no columns. Arrow rejects it, and the `unwrap` panics (`Fault.Panic`).
  - So a file with fewer vectors than declared either panics, or ends with the count-mismatch error if its last batch still read a row.
- A file with more vectors than declared ends with the mismatch error when the last batch reads past the declared count.
  - It succeeds when `batch_size` divides the declared count, because the surplus is never read.
- The ground-truth path is built but never read. There is no ground-truth converter and no query-count cross-check.

## Model

| member | source | states |
|---|---|---|
| Number.NumBytes | src/data/raw.rs:170 | the width of every element type in bytes (1, 2, 4 or 8), never zero |
| Number.LeBytesOfValue | src/data/raw.rs:177-180 | every byte string is the little-endian spelling of the number it denotes |
| Number.Decode | src/data/raw.rs:179 | the scalar decoded from exactly one element's bytes lies in the range of the element type (two's complement for signed types, the bit pattern for floats) |
| Number.EncodeDecode | src/data/raw.rs:179 | re-encoding a decoded scalar gives back the bytes it came from |
| Number.DecodeEncode | src/data/raw.rs:179 | decoding the bytes of an in-range scalar gives the scalar back |
| Number.FromLeBytes | src/data/raw.rs:177-180 | `from_le_bytes` succeeds exactly on slices of the element width |
| Number.FromLeBytesValue | src/data/raw.rs:179 | the scalar `from_le_bytes` returns lies in the element type's range and re-encodes to the slice it was read from |
| Number.FromLeBytesEncode | src/data/raw.rs:179 | `from_le_bytes` reads back any encoded scalar |
| Arrow.IntoArrowArray | src/data/number_to_arrow.rs:14-72 | the array has the element type, no nulls, and holds the values in order |
| Arrow.TryFromIterWithNullable | src/data/raw.rs:148-155 | a batch is built exactly when there is at least one column, no non-nullable column holds a null and all columns have the same length; no column at all gives the zero-column error; the schema lists each column's name, type and nullability in order |
| Io.ByteStream.ReadExact | src/data/raw.rs:173-175 | with at least `n` bytes left it returns the next `n` and advances past them; otherwise it fails and the stream is at its end |
| Io.Push | src/data/raw.rs:24-41 | `PathBuf::push` makes the name the path's last component: a relative name is appended to the path, an absolute name replaces it |
| Io.Open | src/data/raw.rs:75-76 | a stream opens exactly when the path is a file, positioned at the file's first byte |
| Io.OutputDir.Write | src/data/raw.rs:157-164 | writing a batch file appends it to the directory's files, leaving the earlier ones |
| Decimal.Dec | src/data/raw.rs:152 | `{i}` renders a count as digits, without a leading zero |
| Decimal.ParseDecOfDec | src/data/raw.rs:152 | a rendered count reads back as the count |
| Decimal.DecInjective | src/data/raw.rs:159 | distinct counts are rendered differently |
| Decimal.DecPrefixUnique | src/data/raw.rs:92-94 | a number followed by text that starts with a non-digit splits back uniquely |
| Decimal.DecSuffixUnique | src/data/raw.rs:159 | text ending in a non-digit followed by a number splits back uniquely |
| Raw.FromDir | src/data/raw.rs:20-43 | each path is `data_dir/base/<base>` (and likewise for query and ground) when the name is relative, and just the name when it is absolute |
| Raw.FromDirLayout | src/data/raw.rs:20-50 | two of the three paths coincide exactly when both names are absolute and equal; with relative names the three are distinct |
| Raw.DecodeRow | src/data/raw.rs:177-180 | decoding a block of `w * dim` bytes gives exactly `dim` values |
| Raw.DecodeRowAt | src/data/raw.rs:177-180 | value `j` of a row is `from_le_bytes` of the `j`-th chunk, bytes `j * w` to `(j + 1) * w`, which lies inside the block |
| Raw.DecodeRowInRange | src/data/raw.rs:177-180 | every value of a decoded row lies in the element type's range |
| Raw.DecodeEncodeRow | src/data/raw.rs:177-180 | decoding the bytes of a row gives the row back: no value is lost, changed or reordered |
| Raw.ReadRow | src/data/raw.rs:169-183 | with at least `w * dim` bytes left it returns their decoding and advances by exactly that many bytes; with fewer (including none) it returns the read error and the stream is at its end |
| Raw.TakeBlocks | src/data/raw.rs:137-145 | a batch reads at most `batch_size` rows, each of exactly one row's bytes |
| Raw.TakeBlocksCount | src/data/raw.rs:137-145 | the rows read fit in the stream; a batch stops short only when less than a row is left, and the stream is then at its end; otherwise exactly the rows' bytes are consumed |
| Raw.TakeBlocksAt | src/data/raw.rs:137-145 | row `k` of a batch is the stream's bytes `k * n` to `k * n + n`: rows are taken consecutively in file order |
| Raw.TakeBlocksSplit | src/data/raw.rs:137-145 | reading `a + b` rows is reading `a` rows and then `b` more from where they stopped |
| Raw.TakeBlocksAfterFailure | src/data/raw.rs:139-144 | after a batch that read no row, every later batch reads none |
| Raw.DecodeRows | src/data/raw.rs:139-141 | one decoded row of `dim` values per block |
| Raw.Message | src/data/raw.rs:75-96 | the open, read and count errors render as non-empty messages whose first letter tells them apart |
| Raw.MessageInjective | src/data/raw.rs:75-96 | distinct errors render as distinct messages: the set name, or both counts, can be read back |
| Raw.BatchFileNameFormat | src/data/raw.rs:159 | a batch file name is the set name, a dash, the batch index in decimal digits (which read back as the index) and `.arrow` |
| Raw.BatchFileNameInjective | src/data/raw.rs:157-159 | distinct (set name, batch index) pairs get distinct `"{name}-{i}.arrow"` names |
| Raw.ColumnsAccepted | src/data/raw.rs:148-155 | the columns of the rows read make a record batch exactly when at least one row was read |
| Raw.BatchOfShape | src/data/raw.rs:148-155 | column `k` is named `format!("{k}")`, the decimal digits of `k` with no leading zero (which read back as `k`), is non-nullable and holds row `k` |
| Raw.BatchOfRows | src/data/raw.rs:148-155 | both of the above: the batch is built exactly when a row was read; it has one non-nullable column per row, column `k` named `format!("{k}")` and holding row `k` |
| Raw.BatchRecord | src/data/raw.rs:148-155 | no row read gives the zero-column error; otherwise the record batch of the decoded rows |
| Raw.BatchFileContents | src/data/raw.rs:148-164 | batch `i` of set `name` is written to `dir/"{name}-{i}.arrow"` with one null-free column per row read, holding the decoded rows |
| Raw.ReadBatch | src/data/raw.rs:137-145 | the row loop reads the rows the batch specification takes, in order, each turned into an array of its decoded values, and leaves the stream where that reading stopped |
| Raw.BatchSpecShape | src/data/raw.rs:128-167 | a batch that succeeds counts between one and `batch_size` rows and writes one file, `dir/"{name}-{i}.arrow"`; one that fails panics for want of columns and writes nothing |
| Raw.ConvertBatchArrow | src/data/raw.rs:128-167 | the method's result, remaining stream and files written are those of the batch specification: up to `batch_size` rows read, a panic when none, else one file written and the row count returned |
| Raw.StepBy | src/data/raw.rs:84 | `(start..end).step_by(step)` is non-empty exactly when `start < end`, and every step lies in `start..end` |
| Raw.StepByIndex | src/data/raw.rs:84 | step `i` of `(start..end).step_by(step)` exists exactly when `start + i*step < end`, and it is that number |
| Raw.BatchCount | src/data/raw.rs:84 | the loop runs `ceil(declared / batch_size)` times: `declared <= count * bs`, `(count - 1) * bs < declared`, and zero times exactly for zero declared |
| Raw.Header | src/data/raw.rs:77-80 | the declared count and the dimensionality are `u32` values, below 2^32 |
| Raw.HeaderRow | src/data/raw.rs:77-80 | the header row of two `u32` values gives the declared count and the dimensionality |
| Raw.BatchLoopBounds | src/data/raw.rs:83-88 | the loop fails only with the zero-column panic, and writes at most one file per step |
| Raw.ConvertBatches | src/data/raw.rs:83-88 | the loop's total and the files written are those of the loop specification, batch indices counted from 0 |
| Raw.NextBatch | src/data/raw.rs:84-88 | one pass of the loop writes the batch's files after those already written; a fault ends the loop with it, and otherwise the loop goes on with the next batch index from where this batch stopped reading |
| Raw.ConvertVectorsSpec | src/data/raw.rs:69-96 | a conversion succeeds only on an existing file holding a header, and then returns the header's two numbers; it fails with an error or the zero-column panic |
| Raw.ConvertVectors | src/data/raw.rs:69-96 | the method's result and files written are those of the conversion specification (open error, header read error, loop, count check) |
| Raw.Batches | src/data/raw.rs:84-88 | at most one batch per loop step, each of whole rows |
| Raw.BatchesFlatten | src/data/raw.rs:84-88 | the batches, concatenated in index order, are the first `count * batch_size` rows the stream holds, in file order |
| Raw.BatchesPanic | src/data/raw.rs:84-88 | the loop panics exactly when the stream holds no more than `(count - 1) * batch_size` rows |
| Raw.BatchesFull | src/data/raw.rs:137-145 | every batch but the last holds exactly `batch_size` rows |
| Raw.BatchLoopBatches | src/data/raw.rs:83-88 | the loop writes one file per batch read, in index order, and its total is the number of rows read unless a batch panics |
| Raw.ConvertVectorsClosed | src/data/raw.rs:69-96 | a file with a header converts as the count check applied to the batches its body yields |
| Raw.ConvertVectorsOutcome | src/data/raw.rs:69-96 | the files are those of the batches read, and the result is a panic, `Ok([declared, dim])` when the rows read number the declared count, or the count-mismatch error carrying both counts |
| Raw.ConvertVectorsSucceeds | src/data/raw.rs:69-96 | a file converts exactly when it has a header, holds the declared vectors, and no surplus row is read (the batch size divides the declared count, or less than one row follows); the result is then the header's two numbers |
| Raw.ConvertVectorsPaths | src/data/raw.rs:84-88 | the `k`-th file written is `dir/"{name}-{k}.arrow"` |
| Raw.ConvertVectorsExample | src/data/raw.rs:69-96 | the header `[3, 2]` with the `u8` rows `[1, 2]`, `[3, 4]`, `[5, 6]` in batches of two gives two files, holding the first two rows and the last one, and the result `[3, 2]` |
| Raw.ConvertSpec | src/data/raw.rs:52-66 | a conversion succeeds only when the base and query files exist; the summary then names the output directory and the batch size |
| Raw.Convert | src/data/raw.rs:52-66 | the method's result and files are those of the two-file specification: base, then query, the first fault ending it |
| Raw.ConvertSucceeds | src/data/raw.rs:52-66 | the conversion succeeds exactly when the base and query files exist and each converts; the summary then holds the output directory, the base file's dimensionality and count, the batch size and the query count; the ground-truth path has no effect |
| Raw.ConvertFilesInDir | src/data/raw.rs:157-159 | every file written lies directly inside the output directory |
| Raw.ConvertFilesDistinct | src/data/raw.rs:52-66 | no file is written twice, base and query files included |
| Prepare.FromStr | src/data/prepare.rs:18-31 | parsing succeeds exactly on the names `names()` lists, and gives the dataset of that name; otherwise the error message for that string |
| Prepare.Names | src/data/prepare.rs:35-43 | `names()` lists five names, among them the name of every dataset |
| Prepare.FromStrName | src/data/prepare.rs:18-24 | every dataset's name parses to that dataset and is listed by `names()` |
| Prepare.NamesRoundTrip | src/data/prepare.rs:35-43 | `names()` lists five distinct names, and each parses to the dataset it names |
| Prepare.NameInjective | src/data/prepare.rs:19-24 | distinct datasets have distinct names |
| Prepare.DebugListHas | src/data/prepare.rs:26-28 | a `{:?}`-printed list holds every listed string in quotes |
| Prepare.RejectionNames | src/data/prepare.rs:25-29 | the error for an unknown string holds the string right after the opening text, and every name of `names()` in quotes |
| Prepare.ConfigOf | src/data/prepare.rs:45-98 | every dataset converts with `u8`, `i8` or `f32`, in batches of one million vectors for `f32` and ten million otherwise |
| Prepare.ConfigTypes | src/data/prepare.rs:45-98 | BigANN and FB-SSNPP use `u8`, MSFT-SpaceV `i8`, MSFT-Turing and Yandex-Deep `f32`; the first three have batch size 10,000,000, the last two 1,000,000 |
| Prepare.ConfigFilesRelative | src/data/prepare.rs:45-98 | every dataset's raw file names are relative, so each lands inside its sub-directory of the raw directory |
| Prepare.ConfigFileNames | src/data/prepare.rs:45-98 | each dataset's raw files start with its output name and a dash, its element type is one of `u8`, `i8` and `f32`, and its base and query files end in that type's suffix (`.u8bin`, `.i8bin`, `.fbin`) |
| Prepare.OutNames | src/data/prepare.rs:21 | the output directory carries the dataset's name for every dataset except FB-SSNPP, which is chosen as `fb_ssnnpp` but written as `fb_ssnpp` |
| Prepare.OutNamesDistinct | src/data/prepare.rs:45-98 | distinct datasets get distinct output directories |
| Prepare.DatasetRun | src/data/prepare.rs:45-98 | a dataset's run, when it succeeds, gives the summary of its output directory `standard_dir/<name>` and its batch size |
| Prepare.ConvertDataset | src/data/prepare.rs:45-98 | converting a dataset returns `Ok(())` or the fault of its run, and writes its run's files |
| Prepare.DatasetRunOutcome | src/data/prepare.rs:45-98 | a dataset converts exactly when `raw_dir/base/<base>` and `raw_dir/query/<query>` exist and convert with its element type and batch size; the summary then names its output directory and batch size |
| Prepare.DatasetRunFiles | src/data/prepare.rs:101-103 | every file a dataset's conversion writes lies directly inside `standard_dir/<name>` |
| Prepare.DatasetRunsDisjoint | src/data/prepare.rs:45-98 | two datasets converted into the same standard directory never write the same file |

## Left out

- Arrow IPC serialisation. A written file is modelled as its path and the record batch it holds, appended to the output directory's log. The bytes of the file are not modelled. Neither are `File::create`, `FileWriter::try_new`, `write` and `finish` failing, or the panics their `unwrap`s would raise (src/data/raw.rs:160-164).
- The existence asserts of `RawData::from_dir` (src/data/raw.rs:21, 45-47). A missing base or query file surfaces in the model as the open error of `convert_vectors`, not as a panic. A missing ground-truth file goes unnoticed.
- `create_out_dir` (src/data/prepare.rs:101-113). Its file-system checks and directory creation are left out. The model uses only the path it returns, `standard_dir/<name>`.
- The command line (src/main.rs), directory validation (src/utils.rs), the stale src/prepare.rs, the dead `convert_batch_npy`, progress printing and the `PhantomData` markers.
- Floating-point values. `f32` and `f64` scalars are kept as their IEEE-754 bit patterns, which is what `from_le_bytes` reinterprets; no float arithmetic happens in the converter.
- Operating-system error texts. The open and read errors render one fixed `io::Error` debug text (not found; unexpected end of file). Other causes, such as permission denied, are not distinguished.
- Io.ByteStream.ReadExact: after a short read it leaves the stream at its end. `Read::read_exact` leaves the position unspecified; for a file every later read fails either way.
- A batch size of zero. `step_by(0)` panics; every conversion requires a positive batch size.
- Integer widths. The header values are `u32`, so they fit `usize`. The running total counts rows read, at most `ceil(declared / batch_size) * batch_size`, which is below `declared + batch_size`; with dimensionality 0 every read succeeds and every batch is full, and the bound still holds. Wrap-around of `usize` at these sizes is not modelled.
- Ground-truth conversion and the query-count cross-check. The code has neither: `RawData::convert` converts the base and query files only (src/data/raw.rs:52-66), and the number of queries is returned, not checked.
- Truncated files. The code raises no truncation error: a failed `read_row` inside a batch ends the batch through `break` (src/data/raw.rs:139-144). A truncated file gives the count mismatch or the zero-column panic.
- Panic messages. A panic is modelled by the Arrow error it carries (`Fault.Panic`), not by the text `unwrap` prints.
- Batch file paths. The batch file is placed at `out_dir` followed by `"{name}-{i}.arrow"`, without the replacement `PathBuf::push` makes for a name starting with `/` (src/data/raw.rs:158-159). Only the set names `"base"` and `"query"` reach this code (src/data/raw.rs:53-54), and neither starts with `/`.
- Paths. A name is one path component even when it holds `/` inside it, and `..` is not resolved; only a leading `/` (an absolute name) is interpreted, as `PathBuf::push` does.
