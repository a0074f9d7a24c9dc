/**
 * AXFile, the platform-independent base: its internal buffer (a pointer and
 * a size) with create, destroy and obtain; the file operations, which the
 * base class leaves unimplemented; and the GetExtention helper.
 */
module Files {
  import opened Options
  import Utils

  newtype byte = x: int | 0 <= x < 256

  /** std::string::npos on a 64-bit build: the largest size_type. */
  const Npos: nat := 0xFFFF_FFFF_FFFF_FFFF

  /** FileOpenMode */
  datatype FileOpenMode = Read | Write | Append | ReadWrite | Truncate

  /** DataMode */
  datatype DataMode = Normal | Binary

  /** AXFile with its InternalFileBuffer: mBuffer and mBufferSize. */
  class File {
    var buffer: array?<byte>
    var bufferSize: nat

    /** A null buffer has size 0; an allocated one has exactly mBufferSize bytes. */
    ghost predicate Valid()
      reads this
    {
      (buffer == null <==> bufferSize == 0) && (buffer != null ==> buffer.Length == bufferSize)
    }

    /** The default constructor: no buffer. */
    constructor ()
      ensures Valid() && buffer == null && bufferSize == 0
    {
      buffer := null;
      bufferSize := 0;
    }

    /** DestroyInternalBuffer: the buffer is released and the pair reset to null and 0. */
    method DestroyInternalBuffer()
      modifies this`buffer, this`bufferSize
      ensures Valid() && buffer == null && bufferSize == 0
    {
      buffer := null;
      bufferSize := 0;
    }

    /**
     * CreateInternalBuffer: destroys any existing buffer; a size of 0 leaves
     * no buffer; otherwise a new buffer of that size, holding the first size
     * bytes of data when data is given. Returns the internal buffer.
     */
    method CreateInternalBuffer(size: nat, data: Option<seq<byte>>) returns (buf: array?<byte>, n: nat)
      requires data.Some? ==> |data.value| >= size
      modifies this`buffer, this`bufferSize
      ensures Valid() && bufferSize == size && buf == buffer && n == bufferSize
      ensures size == 0 ==> buffer == null
      ensures size > 0 ==> buffer != null && fresh(buffer)
      ensures size > 0 && data.Some? ==> buffer[..] == data.value[..size]
    {
      DestroyInternalBuffer();
      if size > 0 {
        bufferSize := size;
        if data.Some? {
          var d := data.value;
          buffer := new byte[size](i requires 0 <= i < size => d[i]);
        } else {
          buffer := new byte[size];
        }
      }
      buf, n := buffer, bufferSize;
    }

    /**
     * ObtainInternalBuffer: hands the caller the buffer and its size and
     * leaves the file without one, so the caller now owns the bytes. Valid()
     * is no demand on callers: the constructor establishes it and every
     * method that changes the buffer keeps it.
     */
    method ObtainInternalBuffer() returns (buf: array?<byte>, n: nat)
      requires Valid()
      modifies this`buffer, this`bufferSize
      ensures buf == old(buffer) && n == old(bufferSize) && (buf == null <==> n == 0)
      ensures Valid() && buffer == null && bufferSize == 0
    {
      buf, n := buffer, bufferSize;
      buffer := null;
      bufferSize := 0;
    }

    /** OpenFile in the base class is unimplemented and reports failure. */
    method OpenFile(path: string, mode: FileOpenMode, dataMode: DataMode) returns (isOpen: bool)
      ensures !isOpen
    {
      isOpen := false;
    }

    /** IsOpen in the base class is unimplemented: no file is ever open. */
    function IsOpen(): (open: bool)
      ensures !open
    {
      false
    }

    /** GetFileSize in the base class is unimplemented and reports 0. */
    function GetFileSize(): (size: nat)
      ensures size == 0
    {
      0
    }

    /** ReadFileToInternalBuffer in the base class reads nothing: the buffer is returned as it is. */
    method ReadFileToInternalBuffer() returns (buf: array?<byte>, n: nat)
      ensures buf == buffer && n == bufferSize
    {
      buf, n := buffer, bufferSize;
    }
  }

  /** The open-file constructor: OpenFile, which in the base class leaves the file closed. */
  method OpenNewFile(path: string, mode: FileOpenMode, dataMode: DataMode) returns (f: File, isOpen: bool)
    ensures fresh(f) && f.Valid() && f.buffer == null && !isOpen && !f.IsOpen()
  {
    f := new File();
    isOpen := f.OpenFile(path, mode, dataMode);
  }

  /**
   * GetExtention as written: the guard compares the period position with
   * the length, which find_first_of never returns; a path without a period
   * reaches substr(npos, ...), which throws std::out_of_range (None here).
   */
  function GetExtentionAsWritten(path: string): (r: Option<string>)
    requires |path| < Npos
    ensures r.None? <==> '.' !in path
  {
    var periodLoc := match Utils.Find(path, '.', 0) case Some(p) => p case None => Npos;
    var strLen := |path|;
    if periodLoc == strLen then Some("")
    else if periodLoc > strLen then None
    else Some(Utils.Substr(path, periodLoc, strLen - periodLoc))
  }

  /** The guard's empty result is never produced. */
  lemma GetExtentionAsWrittenNeverEmptyGuard(path: string)
    requires |path| < Npos
    ensures GetExtentionAsWritten(path) != Some("")
  {
  }

  /**
   * The evidently intended GetExtention: the suffix from the first period,
   * that period included, or "" when there is none.
   */
  function GetExtention(path: string): (r: string)
    ensures '.' !in path ==> r == ""
    ensures '.' in path ==>
      (0 < |r| <= |path| && r[0] == '.' && r == path[|path| - |r|..] && forall k :: 0 <= k < |path| - |r| ==> path[k] != '.')
  {
    match Utils.Find(path, '.', 0)
    case Some(p) => path[p..]
    case None => ""
  }

  /** Where the written version returns, it agrees with the intended one. */
  lemma GetExtentionAgrees(path: string)
    requires |path| < Npos && '.' in path
    ensures GetExtentionAsWritten(path) == Some(GetExtention(path))
  {
    var f := Utils.Find(path, '.', 0);
    assert f.Some?;
    assert Utils.Substr(path, f.value, |path| - f.value) == path[f.value..];
  }

  /** The extension starts at the FIRST period: a stem without one, then a period, then anything. */
  lemma GetExtentionOfStem(stem: string, rest: string)
    requires '.' !in stem
    ensures GetExtention(stem + "." + rest) == "." + rest
  {
    var path := stem + "." + rest;
    assert path[|stem|] == '.';
    assert forall k :: 0 <= k < |stem| ==> path[k] == stem[k];
    Utils.FindFrom(path, '.', 0, |stem|);
    assert path[|stem|..] == "." + rest;
  }

  lemma GetExtentionExample()
    ensures GetExtention("a.b.png") == ".b.png"
    ensures GetExtention("texture") == ""
  {
    GetExtentionOfStem("a", "b.png");
    assert "a" + "." + "b.png" == "a.b.png";
    assert forall k :: 0 <= k < |"texture"| ==> "texture"[k] != '.';
  }
}
