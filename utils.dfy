/** The byte cursor all decoders share: an open file and the free functions
    of src/utils.rs that move its position and read from it. */
module Utils {
  import opened Results
  import opened Bytes
  import opened Text

  /** One entry of the directory a run walks: its file name and contents
      (`fs::read_dir` and `File::open` are not part of this model). */
  datatype Entry = Entry(name: string, data: seq<byte>)

  function Max(a: nat, b: nat): nat {
    if a < b then b else a
  }

  /** A file opened for reading, as `std::fs::File` behaves on a regular file:
      its bytes never change, and one position is shared by every seek and
      read.  A seek past the end is allowed; reading there fails. */
  class File {
    const data: seq<byte>
    var pos: nat

    constructor Open(contents: seq<byte>)
      ensures data == contents && pos == 0
    {
      data := contents;
      pos := 0;
    }

    /** `stream_position`. */
    method StreamPosition() returns (p: nat)
      ensures p == pos
    {
      p := pos;
    }

    /** `seek(SeekFrom::Start(offset))`. */
    method SeekStart(offset: nat)
      modifies this
      ensures pos == offset
    {
      pos := offset;
    }

    /** `seek(SeekFrom::Current(delta))`: refused when it would land before
        byte 0, and then the position does not move. */
    method SeekCurrent(delta: int) returns (r: Result<nat>)
      modifies this
      ensures old(pos) + delta >= 0 ==> r == Ok(old(pos) + delta) && pos == old(pos) + delta
      ensures old(pos) + delta < 0 ==> r == Err(InvalidSeek) && pos == old(pos)
    {
      if pos + delta >= 0 {
        pos := pos + delta;
        r := Ok(pos);
      } else {
        r := Err(InvalidSeek);
      }
    }

    /** `read_exact` into a buffer of len bytes.  An empty buffer is filled
        at once, wherever the cursor is.  When the file ends first, the
        bytes up to the end are consumed and the read fails. */
    method ReadExact(len: nat) returns (r: Result<seq<byte>>)
      modifies this
      ensures (len == 0 || old(pos) + len <= |data|) ==>
        r == Ok(Span(data, old(pos), len)) && pos == old(pos) + len
      ensures (len > 0 && old(pos) + len > |data|) ==>
        r == Err(UnexpectedEof) && pos == Max(old(pos), |data|)
    {
      if len == 0 {
        r := Ok([]);
      } else if pos + len <= |data| {
        SpanSlice(data, pos, len);
        r := Ok(data[pos..pos + len]);
        pos := pos + len;
      } else {
        r := Err(UnexpectedEof);
        pos := Max(pos, |data|);
      }
    }
  }

  /** `padding`: moves the cursor by len bytes from where it is and reads
      nothing. */
  method Padding(f: File, len: int) returns (r: Result<()>)
    modifies f
    ensures r.Ok? <==> old(f.pos) + len >= 0
    ensures r.Ok? ==> f.pos == old(f.pos) + len
    ensures r.Err? ==> r.error == InvalidSeek && f.pos == old(f.pos)
  {
    var moved := f.SeekCurrent(len);
    if moved.Err? {
      return Err(moved.error);
    }
    return Ok(());
  }

  /** `go_to`: an absolute seek (the function is called by the AFF and SKL
      decoders; its body is not part of this model). */
  method GoTo(f: File, offset: nat)
    modifies f
    ensures f.pos == offset
  {
    f.SeekStart(offset);
  }

  /** `read_offset`: the len bytes at absolute position offset, read without
      disturbing the caller's cursor.  What it returns, and whether it
      succeeds, depends on the file and the arguments only. */
  method ReadOffset(f: File, offset: nat, len: nat) returns (r: Result<seq<byte>>)
    modifies f
    ensures r.Ok? <==> len == 0 || offset + len <= |f.data|
    ensures r.Ok? ==> r.value == Span(f.data, offset, len)
    ensures r.Ok? ==> f.pos == old(f.pos)
    ensures r.Err? ==> r.error == UnexpectedEof && f.pos == Max(offset, |f.data|)
  {
    var oldOffset := f.StreamPosition();
    f.SeekStart(offset);
    var buf := f.ReadExact(len);
    if buf.Err? {
      return Err(buf.error);
    }
    f.SeekStart(oldOffset);
    return Ok(buf.value);
  }

  /** `read_u32`: the four bytes at the cursor, little-endian; the cursor
      advances by exactly 4.  It is also the model of `read_f32`, whose 32
      bits the decoders keep uninterpreted. */
  method ReadU32(f: File) returns (r: Result<u32>)
    modifies f
    ensures r.Ok? <==> old(f.pos) + 4 <= |f.data|
    ensures r.Ok? ==> r.value == U32At(f.data, old(f.pos)) && f.pos == old(f.pos) + 4
    ensures r.Err? ==> r.error == UnexpectedEof && f.pos == Max(old(f.pos), |f.data|)
  {
    ghost var p := f.pos;
    var buff := f.ReadExact(4);
    if buff.Err? {
      return Err(buff.error);
    }
    U32AtSpan(f.data, p);
    return Ok(LeU32(buff.value));
  }

  /** Every pool offset stored in a file is relative to the end of a 16-byte
      file header. */
  const PoolBase: u32 := 0x10

  /** A pool string: the len bytes at absolute position offset, which
      `String::from_utf8(..).unwrap()` must accept. */
  function PoolString(data: seq<byte>, offset: nat, len: nat): Result<Str>
  {
    if len > 0 && offset + len > |data| then Err(UnexpectedEof)
    else if !ValidUtf8(Span(data, offset, len)) then Err(InvalidUtf8)
    else Ok(Span(data, offset, len))
  }

  /** The pool reference (raw, len) is usable: `raw + 0x10` fits in a u32,
      and the string is empty or lies inside the file, and is UTF-8. */
  predicate PoolRefOk(data: seq<byte>, raw: u32, len: u32) {
    raw + PoolBase < 0x1_0000_0000 &&
    (len == 0 || raw + PoolBase + len <= |data|) &&
    ValidUtf8(Span(data, raw + PoolBase, len))
  }

  /** The string a usable pool reference designates. */
  function PoolBytes(data: seq<byte>, raw: u32, len: u32): seq<byte>
    requires PoolRefOk(data, raw, len)
  {
    Span(data, raw + PoolBase, len)
  }

  /** A pool reference stored at bytes at..at+8 (raw offset, then length)
      and resolved as the current decoders do: read the offset, add 0x10,
      read the length, read the string. */
  function PoolRef(data: seq<byte>, at: nat): (r: Result<Str>)
    ensures r.Ok? <==> at + 8 <= |data| && PoolRefOk(data, U32At(data, at), U32At(data, at + 4))
    ensures r.Ok? ==> r.value == PoolBytes(data, U32At(data, at), U32At(data, at + 4))
  {
    if |data| < at + 4 then Err(UnexpectedEof)
    else
      match CheckedAdd(U32At(data, at), PoolBase)
      case Err(e) => Err(e)
      case Ok(offset) =>
        if |data| < at + 8 then Err(UnexpectedEof)
        else PoolString(data, offset, U32At(data, at + 4))
  }

  /** A pool reference of length 0 resolves to the empty string wherever
      its offset points, past the end of the file included. */
  lemma PoolRefEmpty(data: seq<byte>, at: nat)
    requires at + 8 <= |data|
    requires U32At(data, at) + PoolBase < 0x1_0000_0000
    requires U32At(data, at + 4) == 0
    ensures PoolRef(data, at) == Ok([])
  {
  }

  /** Reads a pool string the way the decoders do: `read_offset`, then
      `String::from_utf8(..).unwrap()`. */
  method ReadString(f: File, offset: nat, len: nat) returns (r: Result<Str>)
    modifies f
    ensures r == PoolString(f.data, offset, len)
    ensures r.Ok? ==> f.pos == old(f.pos)
  {
    var buf := ReadOffset(f, offset, len);
    if buf.Err? {
      return Err(buf.error);
    }
    if !ValidUtf8(buf.value) {
      return Err(InvalidUtf8);
    }
    return Ok(buf.value);
  }

  /** Reads the pool reference at the cursor and the string it designates:
      `read_u32(f)? + 0x10`, `read_u32(f)?`, `read_offset`, then
      `String::from_utf8(..).unwrap()`, the sequence the current decoders
      repeat for every string.  The cursor moves past the 8 bytes of the
      reference and nowhere else. */
  method ReadPoolRef(f: File) returns (r: Result<Str>)
    modifies f
    ensures r == PoolRef(f.data, old(f.pos))
    ensures r.Ok? ==> f.pos == old(f.pos) + 8
  {
    var raw :- ReadU32(f);
    var offset :- CheckedAdd(raw, PoolBase);
    var len :- ReadU32(f);
    r := ReadString(f, offset, len);
  }
}
