/**
 * The operating-system side of a conversion: paths, read-only input files,
 * a byte stream over an open file, and an output directory that records the
 * Arrow files written into it.
 */
module Io {
  import opened Wrappers
  import opened Number
  import opened Arrow

  /** A file-system path as the list of names pushed onto it. */
  type Path = seq<string>

  /** Whether a name is an absolute path: one that starts at the root, `/`. */
  predicate Absolute(name: string) {
    |name| > 0 && name[0] == '/'
  }

  /**
   * `PathBuf::push`: the name becomes the path's last component. A relative
   * name is appended to the path; an absolute name replaces it.
   */
  function Push(path: Path, name: string): (r: Path)
    ensures |r| > 0 && r[|r| - 1] == name
    ensures !Absolute(name) ==> r[..|r| - 1] == path
    ensures Absolute(name) ==> |r| == 1
  {
    if Absolute(name) then [name] else path + [name]
  }

  /** The input files, by path, with their contents. */
  type FileSystem = map<Path, seq<Byte>>

  /** One Arrow IPC file written by the converter: where, and the batch it holds. */
  datatype ArrowFile = ArrowFile(path: Path, batch: RecordBatch)

  /** An open input file: its bytes and the position of the next read. */
  class ByteStream {
    const data: seq<Byte>
    var pos: nat

    ghost predicate Valid()
      reads this
    {
      pos <= |data|
    }

    /** The bytes not read yet. */
    function Rest(): seq<Byte>
      reads this
      requires Valid()
    {
      data[pos..]
    }

    constructor (data: seq<Byte>)
      ensures Valid() && this.data == data && Rest() == data
    {
      this.data := data;
      pos := 0;
    }

    /**
     * `Read::read_exact`: the next `n` bytes, advancing past them. When fewer
     * than `n` bytes remain it fails, and a file has then been read to its end.
     */
    method ReadExact(n: nat) returns (r: Option<seq<Byte>>)
      requires Valid()
      modifies this
      ensures Valid()
      ensures n <= |old(Rest())| ==> r == Some(old(Rest())[..n]) && Rest() == old(Rest())[n..]
      ensures n > |old(Rest())| ==> r == None && Rest() == []
    {
      if n <= |data| - pos {
        assert data[pos..pos + n] == data[pos..][..n];
        r := Some(data[pos..pos + n]);
        pos := pos + n;
        assert data[pos..] == old(Rest())[n..];
      } else {
        r := None;
        pos := |data|;
      }
    }
  }

  /** `File::open`: a stream at the start of the file, or None when no file is at the path. */
  method Open(fs: FileSystem, path: Path) returns (r: Option<ByteStream>)
    ensures r.Some? <==> path in fs
    ensures r.Some? ==> fresh(r.value) && r.value.Valid() && r.value.Rest() == fs[path]
  {
    if path in fs {
      var h := new ByteStream(fs[path]);
      r := Some(h);
    } else {
      r := None;
    }
  }

  /** An output directory: the files written into it, in the order they were written. */
  class OutputDir {
    const path: Path
    var written: seq<ArrowFile>

    constructor (path: Path)
      ensures this.path == path && written == []
    {
      this.path := path;
      written := [];
    }

    /** `File::create` followed by an Arrow `FileWriter` writing one batch and finishing. */
    method Write(file: ArrowFile)
      modifies this
      ensures written == old(written) + [file]
    {
      written := written + [file];
    }
  }
}
