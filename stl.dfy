/** The STL family: key/value string tables in 40-byte records
    (src/parsers/stl.rs, and the earlier copy src/stl.rs in module LegacyStl).

    Layout, from the start of the file: a 48-byte header whose bytes 36..40
    hold info_len, the byte length of the record block; then info_len / 40
    records.  In the record that starts at p, bytes p+8..p+12 and p+12..p+16
    hold the key's pool offset and length, bytes p+24..p+28 and p+28..p+32 the
    value's. */
module StlParser {
  import opened Results
  import opened Bytes
  import opened Text
  import opened Maps
  import opened Utils
  import opened Dirs

  const StlHeaderLen: nat := 48
  const StlStride: nat := 40

  type Pair = (Str, Str)
  type Fields = map<Str, Str>
  type StlFiles = map<string, Fields>

  /** How one record is read at position p: the current and the earlier
      decoder differ only in the order of their checks. */
  type RecordReader = (seq<byte>, nat) -> Result<Pair>

  /** `Stl::info` on the record at p (src/parsers/stl.rs), failure by failure
      in the order the function reads. */
  function StlRecord(data: seq<byte>, p: nat): (r: Result<Pair>)
    ensures r.Ok? <==>
      p + 32 <= |data| &&
      PoolRefOk(data, U32At(data, p + 8), U32At(data, p + 12)) &&
      PoolRefOk(data, U32At(data, p + 24), U32At(data, p + 28))
    ensures r.Ok? ==>
      r.value.0 == PoolBytes(data, U32At(data, p + 8), U32At(data, p + 12)) &&
      r.value.1 == PoolBytes(data, U32At(data, p + 24), U32At(data, p + 28))
  {
    match PoolRef(data, p + 8)
    case Err(e) => Err(e)
    case Ok(key) =>
      match PoolRef(data, p + 24)
      case Err(e) => Err(e)
      case Ok(value) => Ok((key, value))
  }

  /** Where record k starts. */
  function StlRecordStart(k: nat): nat {
    StlHeaderLen + StlStride * k
  }

  /** The first n records, read in file order. */
  function StlRecords(read: RecordReader, data: seq<byte>, n: nat): Result<seq<Pair>> {
    Collect(StlRecordStep(read, data), n)
  }

  /** Step k of the record loop. */
  function StlRecordStep(read: RecordReader, data: seq<byte>): nat -> Result<Pair> {
    (k: nat) => read(data, StlRecordStart(k))
  }

  /** The pairs of one file: the header, then info_len / 40 records. */
  function StlDecode(read: RecordReader, data: seq<byte>): Result<seq<Pair>> {
    if |data| < 40 then Err(UnexpectedEof)
    else StlRecords(read, data, U32At(data, 36) / StlStride)
  }

  /** A file decodes exactly when its header is complete and each of its
      info_len / 40 records decodes; record k is read at 48 + 40k, and the
      pairs come out in record order. */
  lemma StlDecodeRecords(read: RecordReader, data: seq<byte>)
    ensures StlDecode(read, data).Ok? <==>
      40 <= |data| &&
      forall k :: 0 <= k < U32At(data, 36) / StlStride ==> read(data, StlRecordStart(k)).Ok?
    ensures StlDecode(read, data).Ok? ==>
      |StlDecode(read, data).value| == U32At(data, 36) / StlStride &&
      forall k :: 0 <= k < U32At(data, 36) / StlStride ==>
        read(data, StlRecordStart(k)) == Ok(StlDecode(read, data).value[k])
  {
    if 40 <= |data| {
      var step := StlRecordStep(read, data);
      assert forall k :: 0 <= k < U32At(data, 36) / StlStride ==> step(k) == read(data, StlRecordStart(k));
      CollectSpec(step, U32At(data, 36) / StlStride);
    }
  }

  /** The pairs as they are inserted: NULs removed from key and value. */
  function StripPairs(pairs: seq<Pair>): (r: seq<Pair>)
    ensures |r| == |pairs|
    ensures forall i :: 0 <= i < |r| ==> NoNul(r[i].0) && NoNul(r[i].1)
  {
    seq(|pairs|, i requires 0 <= i < |pairs| => (StripNul(pairs[i].0), StripNul(pairs[i].1)))
  }

  /** The map one file's pairs produce. */
  function StlFields(pairs: seq<Pair>): Fields {
    InsertAll(map[], StripPairs(pairs))
  }

  /** What one file decodes to: its map. */
  function StlFile(read: RecordReader, data: seq<byte>): Result<Fields> {
    match StlDecode(read, data)
    case Err(e) => Err(e)
    case Ok(pairs) => Ok(StlFields(pairs))
  }

  /** StlFile as the decoder of a directory run. */
  function StlFileDecoder(read: RecordReader): seq<byte> -> Result<Fields> {
    data => StlFile(read, data)
  }

  /** A whole run over a directory, starting from the collection files:
      every entry's name is given the map of its file. */
  function StlRun(read: RecordReader, files: StlFiles, dir: seq<Entry>): Result<StlFiles> {
    ReplaceRun(StlFileDecoder(read), files, dir)
  }

  /** One more record is one more insertion. */
  lemma StlFieldsSnoc(pairs: seq<Pair>, kv: Pair)
    ensures StlFields(pairs + [kv]) == StlFields(pairs)[StripNul(kv.0) := StripNul(kv.1)]
  {
    assert StripPairs(pairs + [kv]) == StripPairs(pairs) + [(StripNul(kv.0), StripNul(kv.1))];
    InsertAllSnoc(map[], StripPairs(pairs), StripNul(kv.0), StripNul(kv.1));
  }

  /** A key is stored with the value of the last record that carries it
      (after NUL removal), and every stored key comes from some record. */
  lemma StlFieldsLastWins(pairs: seq<Pair>, i: nat)
    requires i < |pairs|
    requires forall j :: i < j < |pairs| ==> StripNul(pairs[j].0) != StripNul(pairs[i].0)
    ensures StripNul(pairs[i].0) in StlFields(pairs)
    ensures StlFields(pairs)[StripNul(pairs[i].0)] == StripNul(pairs[i].1)
  {
    InsertAllLastWins(map[], StripPairs(pairs), i);
  }

  /** No key and no value of a file's map holds a NUL, whatever the records
      held. */
  lemma StlFieldsNoNul(pairs: seq<Pair>)
    ensures forall k :: k in StlFields(pairs) ==> NoNul(k) && NoNul(StlFields(pairs)[k])
  {
    forall k | k in StlFields(pairs)
      ensures NoNul(k) && NoNul(StlFields(pairs)[k])
    {
      var stripped := StripPairs(pairs);
      InsertAllFrom(map[], stripped, k);
      var i :| 0 <= i < |stripped| && stripped[i] == (k, StlFields(pairs)[k]);
    }
  }

  /** DecodeDirSnoc and DecodeDirStops for an STL decoder. */
  lemma StlDirSnoc(read: RecordReader, dir: seq<Entry>, j: nat, entries: seq<(string, Fields)>)
    requires j < |dir|
    requires DecodeDir(StlFileDecoder(read), dir, j) == Ok(entries)
    requires StlFile(read, dir[j].data).Ok?
    ensures DecodeDir(StlFileDecoder(read), dir, j + 1) == Ok(entries + [(dir[j].name, StlFile(read, dir[j].data).value)])
  {
    DecodeDirSnoc(StlFileDecoder(read), dir, j, entries);
  }

  lemma StlDirStops(read: RecordReader, dir: seq<Entry>, j: nat)
    requires j < |dir|
    requires DecodeDir(StlFileDecoder(read), dir, j).Ok?
    requires StlFile(read, dir[j].data).Err?
    ensures DecodeDir(StlFileDecoder(read), dir, |dir|) == Err(StlFile(read, dir[j].data).error)
  {
    DecodeDirStops(StlFileDecoder(read), dir, j);
  }

  /** The collection an STL run fills (`Stl` with its `files` map). */
  class Stl {
    var files: StlFiles

    constructor ()
      ensures files == map[]
    {
      files := map[];
    }

    /** `new_file`: an empty map under name, replacing what was there. */
    method NewFile(name: string)
      modifies this
      ensures files == old(files)[name := map[]]
    {
      files := files[name := map[]];
    }

    /** `add_field`: inserts into name's map (last write wins); a name that
        has no map is left absent, and no other file changes. */
    method AddField(name: string, key: Str, value: Str)
      modifies this
      ensures name in old(files) ==> files == old(files)[name := old(files)[name][key := value]]
      ensures name !in old(files) ==> files == old(files)
    {
      if name in files {
        files := files[name := files[name][key := value]];
      }
    }

    /** `header`: returns info_len, the u32 at bytes 36..40 of the header;
        the magic and hash_id are read and dropped, and the cursor ends on
        the first record, 48 bytes on. */
    static method Header(f: File) returns (r: Result<u32>)
      modifies f
      ensures r.Ok? <==> old(f.pos) + 40 <= |f.data|
      ensures r.Ok? ==> r.value == U32At(f.data, old(f.pos) + 36) && f.pos == old(f.pos) + StlHeaderLen
      ensures r.Err? ==> r.error == UnexpectedEof
    {
      var deadbeef :- ReadU32(f);
      var _ := Padding(f, 12);
      var hashId :- ReadU32(f);
      var _ := Padding(f, 16);
      var infoLen :- ReadU32(f);
      var _ := Padding(f, 8);
      return Ok(infoLen);
    }

    /** `info`: the record at the cursor, read as StlRecord describes it; the
        cursor moves exactly one stride, the 40 bytes run counts records by. */
    static method Info(f: File) returns (r: Result<Pair>)
      modifies f
      ensures r == StlRecord(f.data, old(f.pos))
      ensures r.Ok? ==> f.pos == old(f.pos) + StlStride
    {
      ghost var p := f.pos;
      var _ := Padding(f, 8);
      assert f.pos == p + 8;
      var key :- ReadPoolRef(f);
      var _ := Padding(f, 8);
      assert f.pos == p + 24;
      var value :- ReadPoolRef(f);
      var _ := Padding(f, 8);
      return Ok((key, value));
    }

    /** Pass k of `run`'s record loop: `info` on the record at the cursor,
        then `add_field` with NULs removed, one more record in the map of
        name. */
    method NextRecord(f: File, name: string, ghost k: nat, ghost n: nat, ghost base: StlFiles, ghost pairs: seq<Pair>)
      returns (r: Result<Pair>)
      modifies this, f
      requires k < n && f.pos == StlRecordStart(k)
      requires StlRecords(StlRecord, f.data, k) == Ok(pairs)
      requires files == base[name := StlFields(pairs)]
      ensures r.Ok? ==> f.pos == StlRecordStart(k + 1) && StlRecords(StlRecord, f.data, k + 1) == Ok(pairs + [r.value])
      ensures r.Ok? ==> files == base[name := StlFields(pairs + [r.value])]
      ensures r.Err? ==> StlRecords(StlRecord, f.data, n) == Err(r.error)
    {
      r := ReadRecord(f, k, n, pairs);
      if r.Ok? {
        StlFieldsSnoc(pairs, r.value);
        UpdateTwice(base, name, StlFields(pairs), StlFields(pairs + [r.value]));
        AddField(name, StripNul(r.value.0), StripNul(r.value.1));
      }
    }

    /** `info` on record k, as one more step of StlRecords. */
    static method ReadRecord(f: File, ghost k: nat, ghost n: nat, ghost pairs: seq<Pair>) returns (r: Result<Pair>)
      modifies f
      requires k < n && f.pos == StlRecordStart(k)
      requires StlRecords(StlRecord, f.data, k) == Ok(pairs)
      ensures r.Ok? ==> f.pos == StlRecordStart(k + 1) && StlRecords(StlRecord, f.data, k + 1) == Ok(pairs + [r.value])
      ensures r.Err? ==> StlRecords(StlRecord, f.data, n) == Err(r.error)
    {
      r := Info(f);
      if r.Err? {
        CollectStopsAt(StlRecordStep(StlRecord, f.data), k, n, r.error);
      } else {
        CollectSnoc(StlRecordStep(StlRecord, f.data), k, pairs, r.value);
      }
    }

    /** One pass of `run`'s directory loop: the entry gets an empty map,
        then its info_len / 40 records are inserted with NULs removed.  No
        other file changes. */
    method RunEntry(e: Entry) returns (r: Result<()>)
      modifies this
      ensures r.Ok? <==> StlFile(StlRecord, e.data).Ok?
      ensures r.Ok? ==> files == old(files)[e.name := StlFile(StlRecord, e.data).value]
      ensures r.Err? ==> r.error == StlFile(StlRecord, e.data).error
    {
      NewFile(e.name);
      var f := new File.Open(e.data);
      var infoLen := Header(f);
      if infoLen.Err? {
        assert StlDecode(StlRecord, e.data) == Err(UnexpectedEof);
        return Err(infoLen.error);
      }
      ghost var records := StlRecords(StlRecord, e.data, infoLen.value / StlStride);
      assert StlDecode(StlRecord, e.data) == records;
      r := ReadRecords(f, e.name, infoLen.value / StlStride, old(files));
    }

    /** The record loop of `run`: n records from the cursor inserted into
        name's map, which starts empty; the rest of the collection is base. */
    method ReadRecords(f: File, name: string, n: nat, ghost base: StlFiles) returns (r: Result<()>)
      modifies this, f
      requires f.pos == StlRecordStart(0)
      requires files == base[name := map[]]
      ensures r.Ok? <==> StlRecords(StlRecord, f.data, n).Ok?
      ensures r.Ok? ==> files == base[name := StlFields(StlRecords(StlRecord, f.data, n).value)]
      ensures r.Err? ==> r.error == StlRecords(StlRecord, f.data, n).error
    {
      ghost var pairs: seq<Pair> := [];
      assert StlFields(pairs) == map[] by {
        assert StripPairs(pairs) == [];
      }
      var k := 0;
      while k < n
        invariant k <= n
        invariant f.pos == StlRecordStart(k)
        invariant StlRecords(StlRecord, f.data, k) == Ok(pairs)
        invariant files == base[name := StlFields(pairs)]
      {
        var kv := NextRecord(f, name, k, n, base, pairs);
        if kv.Err? {
          return Err(kv.error);
        }
        pairs := pairs + [kv.value];
        k := k + 1;
      }
      return Ok(());
    }

    /** Pass j of `run`'s directory loop, as one more step of StlRun. */
    method NextEntry(dir: seq<Entry>, j: nat, ghost base: StlFiles, ghost entries: seq<(string, Fields)>)
      returns (r: Result<()>, ghost entry: (string, Fields))
      modifies this
      requires j < |dir|
      requires DecodeDir(StlFileDecoder(StlRecord), dir, j) == Ok(entries)
      requires files == InsertAll(base, entries)
      ensures r.Ok? ==> StlFile(StlRecord, dir[j].data).Ok? && entry == (dir[j].name, StlFile(StlRecord, dir[j].data).value)
      ensures r.Ok? ==> DecodeDir(StlFileDecoder(StlRecord), dir, j + 1) == Ok(entries + [entry])
      ensures r.Ok? ==> files == InsertAll(base, entries + [entry])
      ensures r.Err? ==> StlRun(StlRecord, base, dir) == Err(r.error)
    {
      r := RunEntry(dir[j]);
      entry := (dir[j].name, map[]);
      if r.Err? {
        StlDirStops(StlRecord, dir, j);
      } else {
        entry := (dir[j].name, StlFile(StlRecord, dir[j].data).value);
        StlDirSnoc(StlRecord, dir, j, entries);
        InsertAllSnoc(base, entries, entry.0, entry.1);
      }
    }

    /** `run`: the entries in directory order; the first failure ends the
        run. */
    method Run(dir: seq<Entry>) returns (r: Result<()>)
      modifies this
      ensures r.Ok? <==> StlRun(StlRecord, old(files), dir).Ok?
      ensures r.Ok? ==> files == StlRun(StlRecord, old(files), dir).value
      ensures r.Err? ==> r.error == StlRun(StlRecord, old(files), dir).error
    {
      ghost var entries: seq<(string, Fields)> := [];
      var j := 0;
      while j < |dir|
        invariant j <= |dir|
        invariant DecodeDir(StlFileDecoder(StlRecord), dir, j) == Ok(entries)
        invariant files == InsertAll(old(files), entries)
      {
        ghost var entry;
        var done;
        done, entry := NextEntry(dir, j, old(files), entries);
        if done.Err? {
          return Err(done.error);
        }
        entries := entries + [entry];
        j := j + 1;
      }
      ReplaceRunDone(StlFileDecoder(StlRecord), old(files), dir, entries);
      return Ok(());
    }
  }
}
