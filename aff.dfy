/** The AFF family: an ordered list of strings (src/parsers/aff.rs).

    Layout: a 256-byte header whose bytes 144..148 hold the raw offset of the
    record block (to which 0x10 is added) and bytes 148..152 its byte length
    info_len; then info_len / 44 records, read from that offset.  Before
    record i the decoder skips 24 bytes when i is even and 16 when it is odd,
    then reads 24 bytes: the string's pool offset and length, 8 unused bytes
    and a second (offset, length) pair that is read and dropped. */
module AffParser {
  import opened Results
  import opened Bytes
  import opened Text
  import opened Maps
  import opened Utils
  import opened Dirs

  const AffHeaderLen: nat := 256
  const AffStride: nat := 44
  const AffInfoLen: nat := 24

  type AffFiles = map<string, seq<Str>>

  /** `Aff::header` on a header that starts at p: (info_offset, info_len),
      failure by failure in the order the function reads. */
  function AffHeader(data: seq<byte>, p: nat): (r: Result<(u32, u32)>)
    ensures r.Ok? <==> p + 152 <= |data| && U32At(data, p + 144) + PoolBase < 0x1_0000_0000
    ensures r.Ok? ==> r.value == (U32At(data, p + 144) + PoolBase, U32At(data, p + 148))
    ensures r.Err? ==>
      r.error == (if p + 148 <= |data| && U32At(data, p + 144) + PoolBase >= 0x1_0000_0000 then Overflow
                  else UnexpectedEof)
  {
    if |data| < p + 148 then Err(UnexpectedEof)
    else
      match CheckedAdd(U32At(data, p + 144), PoolBase)
      case Err(e) => Err(e)
      case Ok(offset) =>
        if |data| < p + 152 then Err(UnexpectedEof)
        else Ok((offset, U32At(data, p + 148)))
  }

  /** `Aff::info` on the record at p: the string of the first pool
      reference; the second reference must still be readable and its
      offset must not overflow. */
  function AffRecord(data: seq<byte>, p: nat): (r: Result<Str>)
    ensures r.Ok? <==>
      p + AffInfoLen <= |data| &&
      PoolRefOk(data, U32At(data, p), U32At(data, p + 4)) &&
      U32At(data, p + 16) + PoolBase < 0x1_0000_0000
    ensures r.Ok? ==> r.value == PoolBytes(data, U32At(data, p), U32At(data, p + 4))
  {
    match PoolRef(data, p)
    case Err(e) => Err(e)
    case Ok(key) =>
      if |data| < p + 20 then Err(UnexpectedEof)
      else
        match CheckedAdd(U32At(data, p + 16), PoolBase)
        case Err(e) => Err(e)
        case Ok(_) =>
          if |data| < p + 24 then Err(UnexpectedEof)
          else Ok(key)
  }

  /** The bytes skipped before record i: it depends on the parity of i and
      on nothing else. */
  function AffPadding(i: nat): nat {
    if i % 2 == 0 then 24 else 16
  }

  /** Where the cursor is when pass i of the record loop begins. */
  function AffCursor(offset: nat, i: nat): nat {
    if i == 0 then offset
    else AffCursor(offset, i - 1) + AffPadding(i - 1) + AffInfoLen
  }

  /** Where record i is read. */
  function AffRecordAt(offset: nat, i: nat): nat {
    AffCursor(offset, i) + AffPadding(i)
  }

  /** Every pair of records takes 88 bytes, 44 each on average: pass i begins
      44i bytes after the offset, 4 more when i is odd. */
  lemma {:induction false} AffCursorClosedForm(offset: nat, i: nat)
    ensures AffCursor(offset, i) == offset + AffStride * i + 4 * (i % 2)
  {
    if i > 0 {
      AffCursorClosedForm(offset, i - 1);
    }
  }

  /** After 2k records the cursor is 88k bytes past info_offset. */
  lemma AffCursorPairs(offset: nat, k: nat)
    ensures AffCursor(offset, 2 * k) == offset + 88 * k
  {
    AffCursorClosedForm(offset, 2 * k);
  }

  /** Record i is read 44i + 24 bytes past the offset when i is even and
      44i + 20 bytes past it when i is odd. */
  lemma AffRecordAtClosedForm(offset: nat, i: nat)
    ensures AffRecordAt(offset, i) == offset + AffStride * i + (if i % 2 == 0 then 24 else 20)
  {
    AffCursorClosedForm(offset, i);
  }

  /** Step i of the record loop, with read the reading of one record. */
  function AffRecordStep(read: (seq<byte>, nat) -> Result<Str>, data: seq<byte>, offset: nat): nat -> Result<Str> {
    (i: nat) => read(data, AffRecordAt(offset, i))
  }

  /** CollectSnoc and CollectStopsAt for the record loop. */
  lemma AffRecordsSnoc(data: seq<byte>, offset: nat, i: nat, values: seq<Str>, value: Str)
    requires Collect(AffRecordStep(AffRecord, data, offset), i) == Ok(values)
    requires AffRecord(data, AffRecordAt(offset, i)) == Ok(value)
    ensures Collect(AffRecordStep(AffRecord, data, offset), i + 1) == Ok(values + [value])
  {
    CollectSnoc(AffRecordStep(AffRecord, data, offset), i, values, value);
  }

  lemma AffRecordsStop(data: seq<byte>, offset: nat, i: nat, n: nat, e: Error)
    requires i < n
    requires Collect(AffRecordStep(AffRecord, data, offset), i).Ok?
    requires AffRecord(data, AffRecordAt(offset, i)) == Err(e)
    ensures Collect(AffRecordStep(AffRecord, data, offset), n) == Err(e)
  {
    CollectStopsAt(AffRecordStep(AffRecord, data, offset), i, n, e);
  }

  /** The strings of one file: the header, then info_len / 44 records read
      from info_offset. */
  function AffDecode(data: seq<byte>): Result<seq<Str>> {
    match AffHeader(data, 0)
    case Err(e) => Err(e)
    case Ok(header) => Collect(AffRecordStep(AffRecord, data, header.0), header.1 / AffStride)
  }

  /** A file decodes exactly when its header does and each of its
      info_len / 44 records does; record i is read at AffRecordAt(info_offset,
      i), whatever the header's length, and the strings come out in record
      order. */
  lemma AffDecodeRecords(data: seq<byte>)
    ensures AffDecode(data).Ok? <==>
      AffHeader(data, 0).Ok? &&
      forall i :: 0 <= i < AffHeader(data, 0).value.1 / AffStride ==>
        AffRecord(data, AffRecordAt(AffHeader(data, 0).value.0, i)).Ok?
    ensures AffDecode(data).Ok? ==>
      |AffDecode(data).value| == AffHeader(data, 0).value.1 / AffStride &&
      forall i :: 0 <= i < AffHeader(data, 0).value.1 / AffStride ==>
        AffRecord(data, AffRecordAt(AffHeader(data, 0).value.0, i)) == Ok(AffDecode(data).value[i])
  {
    if AffHeader(data, 0).Ok? {
      var (offset, len) := AffHeader(data, 0).value;
      var step := AffRecordStep(AffRecord, data, offset);
      assert forall i :: 0 <= i < len / AffStride ==> step(i) == AffRecord(data, AffRecordAt(offset, i));
      CollectSpec(step, len / AffStride);
    }
  }

  /** The strings as they are appended: NULs removed, one per record, in
      record order. */
  function StripAll(values: seq<Str>): (r: seq<Str>)
    ensures |r| == |values|
    ensures forall i :: 0 <= i < |r| ==> NoNul(r[i])
    decreases |values|
  {
    if values == [] then []
    else StripAll(values[..|values| - 1]) + [StripNul(values[|values| - 1])]
  }

  /** One more string is one more stripped string at the end. */
  lemma StripAllSnoc(values: seq<Str>, value: Str)
    ensures StripAll(values + [value]) == StripAll(values) + [StripNul(value)]
  {
    assert (values + [value])[..|values|] == values;
  }

  /** String i of the list is string i of the records with its NULs
      removed. */
  lemma {:induction false} StripAllAt(values: seq<Str>, i: nat)
    requires i < |values|
    ensures StripAll(values)[i] == StripNul(values[i])
    decreases |values|
  {
    if i < |values| - 1 {
      StripAllAt(values[..|values| - 1], i);
    }
  }

  /** What one file decodes to: its list of strings. */
  function AffFile(data: seq<byte>): Result<seq<Str>> {
    match AffDecode(data)
    case Err(e) => Err(e)
    case Ok(values) => Ok(StripAll(values))
  }

  /** No string of a file's list holds a NUL, whatever the records held. */
  lemma AffFileNoNul(data: seq<byte>)
    requires AffFile(data).Ok?
    ensures forall i :: 0 <= i < |AffFile(data).value| ==> NoNul(AffFile(data).value[i])
  {
  }

  /** A record whose first pool reference has length 0 stores the empty
      string, wherever its offset points: [100, 0, 0, 0, 0, 0, 0, 0] and 16
      more bytes is such a record. */
  lemma AffRecordEmpty()
    ensures AffRecord([100, 0, 0, 0, 0, 0, 0, 0] + seq(16, _ => 0), 0) == Ok([])
  {
  }

  /** AffFile as the decoder of a directory run. */
  function AffFileDecoder(): seq<byte> -> Result<seq<Str>> {
    data => AffFile(data)
  }

  /** A whole run over a directory, starting from the collection files:
      every entry's name is given the list of its file. */
  function AffRun(files: AffFiles, dir: seq<Entry>): Result<AffFiles> {
    ReplaceRun(AffFileDecoder(), files, dir)
  }

  /** The list of a file that decodes holds one string per record, in record
      order, each the record's first pool string with its NULs removed. */
  lemma AffFileValues(data: seq<byte>, i: nat)
    requires AffFile(data).Ok?
    requires i < |AffFile(data).value|
    ensures |AffFile(data).value| == AffHeader(data, 0).value.1 / AffStride
    ensures AffRecord(data, AffRecordAt(AffHeader(data, 0).value.0, i)).Ok?
    ensures AffFile(data).value[i] == StripNul(AffRecord(data, AffRecordAt(AffHeader(data, 0).value.0, i)).value)
  {
    AffDecodeRecords(data);
    StripAllAt(AffDecode(data).value, i);
  }

  /** DecodeDirSnoc and DecodeDirStops for the AFF decoder. */
  lemma AffDirSnoc(dir: seq<Entry>, j: nat, entries: seq<(string, seq<Str>)>)
    requires j < |dir|
    requires DecodeDir(AffFileDecoder(), dir, j) == Ok(entries)
    requires AffFile(dir[j].data).Ok?
    ensures DecodeDir(AffFileDecoder(), dir, j + 1) == Ok(entries + [(dir[j].name, AffFile(dir[j].data).value)])
  {
    DecodeDirSnoc(AffFileDecoder(), dir, j, entries);
  }

  lemma AffDirStops(dir: seq<Entry>, j: nat)
    requires j < |dir|
    requires DecodeDir(AffFileDecoder(), dir, j).Ok?
    requires AffFile(dir[j].data).Err?
    ensures DecodeDir(AffFileDecoder(), dir, |dir|) == Err(AffFile(dir[j].data).error)
  {
    DecodeDirStops(AffFileDecoder(), dir, j);
  }

  /** The collection an AFF run fills (`Aff` with its `files` map). */
  class Aff {
    var files: AffFiles

    constructor ()
      ensures files == map[]
    {
      files := map[];
    }

    /** `new_file`: an empty list under name, replacing what was there. */
    method NewFile(name: string)
      modifies this
      ensures files == old(files)[name := []]
    {
      files := files[name := []];
    }

    /** `add_field`: appends value to name's list; a name that has no list
        is left absent, and no other file changes. */
    method AddField(name: string, value: Str)
      modifies this
      ensures name in old(files) ==> files == old(files)[name := old(files)[name] + [value]]
      ensures name !in old(files) ==> files == old(files)
    {
      if name in files {
        files := files[name := files[name] + [value]];
      }
    }

    /** `header`: (info_offset, info_len) as AffHeader describes them; the
        magic, the file type and hash_id are read and dropped, and the
        cursor ends 256 bytes on. */
    static method Header(f: File) returns (r: Result<(u32, u32)>)
      modifies f
      ensures r == AffHeader(f.data, old(f.pos))
      ensures r.Ok? ==> f.pos == old(f.pos) + AffHeaderLen
    {
      ghost var p := f.pos;
      var deadbeef :- ReadU32(f);
      var fileType :- ReadU32(f);
      var _ := Padding(f, 8);
      var hashId :- ReadU32(f);
      var _ := Padding(f, 124);
      assert f.pos == p + 144;
      var raw :- ReadU32(f);
      var infoOffset :- CheckedAdd(raw, PoolBase);
      var infoLen :- ReadU32(f);
      var _ := Padding(f, 104);
      return Ok((infoOffset, infoLen));
    }

    /** `info`: the record at the cursor, read as AffRecord describes it; the
        cursor moves exactly 24 bytes. */
    static method Info(f: File) returns (r: Result<Str>)
      modifies f
      ensures r == AffRecord(f.data, old(f.pos))
      ensures r.Ok? ==> f.pos == old(f.pos) + AffInfoLen
    {
      var key :- ReadPoolRef(f);
      var _ := Padding(f, 8);
      var raw :- ReadU32(f);
      var somethingOffset :- CheckedAdd(raw, PoolBase);
      var somethingLen :- ReadU32(f);
      return Ok(key);
    }

    /** Pass i of `run`'s record loop: the parity padding, `info`, then
        `add_field` with NULs removed, one more string at the end of the
        list of name. */
    method NextRecord(f: File, name: string, offset: nat, i: nat, ghost n: nat, ghost base: AffFiles, ghost values: seq<Str>)
      returns (r: Result<Str>)
      modifies this, f
      requires i < n && f.pos == AffCursor(offset, i)
      requires Collect(AffRecordStep(AffRecord, f.data, offset), i) == Ok(values)
      requires files == base[name := StripAll(values)]
      ensures r.Ok? ==> f.pos == AffCursor(offset, i + 1)
      ensures r.Ok? ==> Collect(AffRecordStep(AffRecord, f.data, offset), i + 1) == Ok(values + [r.value])
      ensures r.Ok? ==> files == base[name := StripAll(values + [r.value])]
      ensures r.Err? ==> Collect(AffRecordStep(AffRecord, f.data, offset), n) == Err(r.error)
    {
      r := ReadRecord(f, offset, i, n, values);
      if r.Ok? {
        StripAllSnoc(values, r.value);
        UpdateTwice(base, name, StripAll(values), StripAll(values + [r.value]));
        AddField(name, StripNul(r.value));
      }
    }

    /** The parity padding and `info` on record i, as one more step of the
        record loop. */
    static method ReadRecord(f: File, offset: nat, i: nat, ghost n: nat, ghost values: seq<Str>) returns (r: Result<Str>)
      modifies f
      requires i < n && f.pos == AffCursor(offset, i)
      requires Collect(AffRecordStep(AffRecord, f.data, offset), i) == Ok(values)
      ensures r.Ok? ==> f.pos == AffCursor(offset, i + 1)
      ensures r.Ok? ==> Collect(AffRecordStep(AffRecord, f.data, offset), i + 1) == Ok(values + [r.value])
      ensures r.Err? ==> Collect(AffRecordStep(AffRecord, f.data, offset), n) == Err(r.error)
    {
      SkipPadding(f, offset, i);
      r := Info(f);
      if r.Err? {
        AffRecordsStop(f.data, offset, i, n, r.error);
      } else {
        AffRecordsSnoc(f.data, offset, i, values, r.value);
      }
    }

    /** The padding before record i: 24 bytes when i is even, 16 when it is
        odd. */
    static method SkipPadding(f: File, offset: nat, i: nat)
      modifies f
      requires f.pos == AffCursor(offset, i)
      ensures f.pos == AffRecordAt(offset, i)
    {
      if i % 2 == 0 {
        var _ := Padding(f, 24);
      } else {
        var _ := Padding(f, 16);
      }
    }

    /** One pass of `run`'s directory loop: the entry gets an empty list,
        the cursor jumps to info_offset, and the info_len / 44 strings are
        appended with NULs removed.  No other file changes. */
    method RunEntry(e: Entry) returns (r: Result<()>)
      modifies this
      ensures r.Ok? <==> AffFile(e.data).Ok?
      ensures r.Ok? ==> files == old(files)[e.name := AffFile(e.data).value]
      ensures r.Err? ==> r.error == AffFile(e.data).error
    {
      NewFile(e.name);
      var f := new File.Open(e.data);
      var header := Header(f);
      if header.Err? {
        return Err(header.error);
      }
      var (infoOffset, infoLen) := header.value;
      ghost var records := Collect(AffRecordStep(AffRecord, e.data, infoOffset), infoLen / AffStride);
      assert AffDecode(e.data) == records;
      GoTo(f, infoOffset);
      r := ReadRecords(f, e.name, infoOffset, infoLen / AffStride, old(files));
    }

    /** The record loop of `run`: n records from offset appended to name's
        list, which starts empty; the rest of the collection is base. */
    method ReadRecords(f: File, name: string, offset: nat, n: nat, ghost base: AffFiles) returns (r: Result<()>)
      modifies this, f
      requires f.pos == AffCursor(offset, 0)
      requires files == base[name := []]
      ensures r.Ok? <==> Collect(AffRecordStep(AffRecord, f.data, offset), n).Ok?
      ensures r.Ok? ==> files == base[name := StripAll(Collect(AffRecordStep(AffRecord, f.data, offset), n).value)]
      ensures r.Err? ==> r.error == Collect(AffRecordStep(AffRecord, f.data, offset), n).error
    {
      ghost var values: seq<Str> := [];
      var i := 0;
      while i < n
        invariant i <= n
        invariant f.pos == AffCursor(offset, i)
        invariant Collect(AffRecordStep(AffRecord, f.data, offset), i) == Ok(values)
        invariant files == base[name := StripAll(values)]
      {
        var value := NextRecord(f, name, offset, i, n, base, values);
        if value.Err? {
          return Err(value.error);
        }
        values := values + [value.value];
        i := i + 1;
      }
      return Ok(());
    }

    /** Pass j of `run`'s directory loop, as one more step of AffRun. */
    method NextEntry(dir: seq<Entry>, j: nat, ghost base: AffFiles, ghost entries: seq<(string, seq<Str>)>)
      returns (r: Result<()>, ghost entry: (string, seq<Str>))
      modifies this
      requires j < |dir|
      requires DecodeDir(AffFileDecoder(), dir, j) == Ok(entries)
      requires files == InsertAll(base, entries)
      ensures r.Ok? ==> AffFile(dir[j].data).Ok? && entry == (dir[j].name, AffFile(dir[j].data).value)
      ensures r.Ok? ==> DecodeDir(AffFileDecoder(), dir, j + 1) == Ok(entries + [entry])
      ensures r.Ok? ==> files == InsertAll(base, entries + [entry])
      ensures r.Err? ==> AffRun(base, dir) == Err(r.error)
    {
      r := RunEntry(dir[j]);
      entry := (dir[j].name, []);
      if r.Err? {
        AffDirStops(dir, j);
      } else {
        entry := (dir[j].name, AffFile(dir[j].data).value);
        AffDirSnoc(dir, j, entries);
        InsertAllSnoc(base, entries, entry.0, entry.1);
      }
    }

    /** `run`: the entries in directory order; the first failure ends the
        run. */
    method Run(dir: seq<Entry>) returns (r: Result<()>)
      modifies this
      ensures r.Ok? <==> AffRun(old(files), dir).Ok?
      ensures r.Ok? ==> files == AffRun(old(files), dir).value
      ensures r.Err? ==> r.error == AffRun(old(files), dir).error
    {
      ghost var entries: seq<(string, seq<Str>)> := [];
      var j := 0;
      while j < |dir|
        invariant j <= |dir|
        invariant DecodeDir(AffFileDecoder(), dir, j) == Ok(entries)
        invariant files == InsertAll(old(files), entries)
      {
        ghost var entry;
        var done;
        done, entry := NextEntry(dir, j, old(files), entries);
        if done.Err? {
          return Err(done.error);
        }
        entries := entries + [entry];
        j := j + 1;
      }
      ReplaceRunDone(AffFileDecoder(), old(files), dir, entries);
      return Ok(());
    }
  }
}
