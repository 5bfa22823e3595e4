/** The earlier STL decoder (src/stl.rs).  Its file layout, `header`,
    `new_file` and `add_field` are those of StlParser; its `info` checks the
    `raw + 16` overflow only after it has read the length, and its `run`
    fills a collection of its own, created empty, instead of the caller's. */
module LegacyStl {
  import opened Results
  import opened Bytes
  import opened Text
  import opened Maps
  import opened Utils
  import opened Dirs
  import opened StlParser

  /** A pool reference at bytes at..at+8 resolved as the earlier decoder
      does: read the offset, read the length, then add 0x10 and read the
      string. */
  function LegacyPoolRef(data: seq<byte>, at: nat): Result<Str> {
    if |data| < at + 8 then Err(UnexpectedEof)
    else
      match CheckedAdd(U32At(data, at), PoolBase)
      case Err(e) => Err(e)
      case Ok(offset) => PoolString(data, offset, U32At(data, at + 4))
  }

  /** `Stl::info` of src/stl.rs on the record at p. */
  function LegacyStlRecord(data: seq<byte>, p: nat): Result<Pair> {
    match LegacyPoolRef(data, p + 8)
    case Err(e) => Err(e)
    case Ok(key) =>
      match LegacyPoolRef(data, p + 24)
      case Err(e) => Err(e)
      case Ok(value) => Ok((key, value))
  }

  /** The two decoders resolve a pool reference the same way: one succeeds
      exactly when the other does, with the same string. */
  lemma LegacyPoolRefAgrees(data: seq<byte>, at: nat)
    ensures LegacyPoolRef(data, at).Ok? <==> PoolRef(data, at).Ok?
    ensures LegacyPoolRef(data, at).Ok? ==> LegacyPoolRef(data, at) == PoolRef(data, at)
  {
  }

  /** Hence they read a record the same way: one succeeds exactly when the
      other does, with the same pair. */
  lemma LegacyRecordAgrees(data: seq<byte>, p: nat)
    ensures LegacyStlRecord(data, p).Ok? <==> StlRecord(data, p).Ok?
    ensures LegacyStlRecord(data, p).Ok? ==> LegacyStlRecord(data, p) == StlRecord(data, p)
  {
    LegacyPoolRefAgrees(data, p + 8);
    LegacyPoolRefAgrees(data, p + 24);
  }

  /** They may fail differently: with an overflowing key offset and a
      record cut short before the key length, the current decoder reports
      the overflow and the earlier one the short read. */
  lemma LegacyErrorOrder()
    ensures var data: seq<byte> := [0, 0, 0, 0, 0, 0, 0, 0, 0xF0, 0xFF, 0xFF, 0xFF];
      StlRecord(data, 0) == Err(Overflow) && LegacyStlRecord(data, 0) == Err(UnexpectedEof)
  {
    var data: seq<byte> := [0, 0, 0, 0, 0, 0, 0, 0, 0xF0, 0xFF, 0xFF, 0xFF];
    assert U32At(data, 8) == 0xFFFF_FFF0;
  }

  /** Hence a file gives the same map under both decoders, and a run over a
      directory the same collection. */
  lemma LegacyFileAgrees(data: seq<byte>)
    ensures StlFile(LegacyStlRecord, data).Ok? <==> StlFile(StlRecord, data).Ok?
    ensures StlFile(LegacyStlRecord, data).Ok? ==> StlFile(LegacyStlRecord, data) == StlFile(StlRecord, data)
  {
    StlDecodeRecords(LegacyStlRecord, data);
    StlDecodeRecords(StlRecord, data);
    if 40 <= |data| {
      forall k | 0 <= k < U32At(data, 36) / StlStride {
        LegacyRecordAgrees(data, StlRecordStart(k));
      }
    }
    if StlDecode(StlRecord, data).Ok? {
      assert StlDecode(LegacyStlRecord, data).value == StlDecode(StlRecord, data).value;
    }
  }

  lemma LegacyRunAgrees(files: StlFiles, dir: seq<Entry>)
    ensures StlRun(LegacyStlRecord, files, dir).Ok? <==> StlRun(StlRecord, files, dir).Ok?
    ensures StlRun(LegacyStlRecord, files, dir).Ok? ==> StlRun(LegacyStlRecord, files, dir) == StlRun(StlRecord, files, dir)
  {
    var legacy, current := StlFileDecoder(LegacyStlRecord), StlFileDecoder(StlRecord);
    forall j | 0 <= j < |dir|
      ensures legacy(dir[j].data).Ok? <==> current(dir[j].data).Ok?
      ensures legacy(dir[j].data).Ok? ==> legacy(dir[j].data) == current(dir[j].data)
    {
      LegacyFileAgrees(dir[j].data);
    }
    if DecodeDir(current, dir, |dir|).Ok? {
      assert DecodeDir(legacy, dir, |dir|).value == DecodeDir(current, dir, |dir|).value;
    }
  }

  /** Reads the pool reference at the cursor the earlier way: `read_u32`
      twice, then `read_offset` at `raw + 16` and
      `String::from_utf8(..).unwrap()`.  The cursor moves past the 8 bytes
      of the reference and nowhere else. */
  method ReadLegacyPoolRef(f: File) returns (r: Result<Str>)
    modifies f
    ensures r == LegacyPoolRef(f.data, old(f.pos))
    ensures r.Ok? ==> f.pos == old(f.pos) + 8
  {
    var raw :- ReadU32(f);
    var len :- ReadU32(f);
    var offset :- CheckedAdd(raw, PoolBase);
    r := ReadString(f, offset, len);
  }

  /** `info` of src/stl.rs: the record at the cursor, read as
      LegacyStlRecord describes it; the cursor moves exactly one stride. */
  method Info(f: File) returns (r: Result<Pair>)
    modifies f
    ensures r == LegacyStlRecord(f.data, old(f.pos))
    ensures r.Ok? ==> f.pos == old(f.pos) + StlStride
  {
    ghost var p := f.pos;
    var _ := Padding(f, 8);
    assert f.pos == p + 8;
    var key :- ReadLegacyPoolRef(f);
    var _ := Padding(f, 8);
    assert f.pos == p + 24;
    var value :- ReadLegacyPoolRef(f);
    var _ := Padding(f, 8);
    return Ok((key, value));
  }

  /** Pass k of `run`'s record loop: `info` on the record at the cursor,
      then `add_field` on stl with NULs removed. */
  method NextRecord(stl: Stl, f: File, name: string, ghost k: nat, ghost n: nat, ghost base: StlFiles, ghost pairs: seq<Pair>)
    returns (r: Result<Pair>)
    modifies stl, f
    requires k < n && f.pos == StlRecordStart(k)
    requires StlRecords(LegacyStlRecord, f.data, k) == Ok(pairs)
    requires stl.files == base[name := StlFields(pairs)]
    ensures r.Ok? ==> f.pos == StlRecordStart(k + 1)
    ensures r.Ok? ==> StlRecords(LegacyStlRecord, f.data, k + 1) == Ok(pairs + [r.value])
    ensures r.Ok? ==> stl.files == base[name := StlFields(pairs + [r.value])]
    ensures r.Err? ==> StlRecords(LegacyStlRecord, f.data, n) == Err(r.error)
  {
    r := ReadRecord(f, k, n, pairs);
    if r.Ok? {
      StlFieldsSnoc(pairs, r.value);
      UpdateTwice(base, name, StlFields(pairs), StlFields(pairs + [r.value]));
      stl.AddField(name, StripNul(r.value.0), StripNul(r.value.1));
    }
  }

  /** `info` on record k, as one more step of StlRecords. */
  method ReadRecord(f: File, ghost k: nat, ghost n: nat, ghost pairs: seq<Pair>) returns (r: Result<Pair>)
    modifies f
    requires k < n && f.pos == StlRecordStart(k)
    requires StlRecords(LegacyStlRecord, f.data, k) == Ok(pairs)
    ensures r.Ok? ==> f.pos == StlRecordStart(k + 1)
    ensures r.Ok? ==> StlRecords(LegacyStlRecord, f.data, k + 1) == Ok(pairs + [r.value])
    ensures r.Err? ==> StlRecords(LegacyStlRecord, f.data, n) == Err(r.error)
  {
    r := Info(f);
    if r.Err? {
      CollectStopsAt(StlRecordStep(LegacyStlRecord, f.data), k, n, r.error);
    } else {
      CollectSnoc(StlRecordStep(LegacyStlRecord, f.data), k, pairs, r.value);
    }
  }

  /** One pass of `run`'s directory loop on the collection stl. */
  method RunEntry(stl: Stl, e: Entry) returns (r: Result<()>)
    modifies stl
    ensures r.Ok? <==> StlFile(LegacyStlRecord, e.data).Ok?
    ensures r.Ok? ==> stl.files == old(stl.files)[e.name := StlFile(LegacyStlRecord, e.data).value]
    ensures r.Err? ==> r.error == StlFile(LegacyStlRecord, e.data).error
  {
    stl.NewFile(e.name);
    var f := new File.Open(e.data);
    var infoLen := Stl.Header(f);
    if infoLen.Err? {
      assert StlDecode(LegacyStlRecord, e.data) == Err(UnexpectedEof);
      return Err(infoLen.error);
    }
    ghost var records := StlRecords(LegacyStlRecord, e.data, infoLen.value / StlStride);
    assert StlDecode(LegacyStlRecord, e.data) == records;
    r := ReadRecords(stl, f, e.name, infoLen.value / StlStride, old(stl.files));
  }

  /** The record loop of `run`: n records from the cursor inserted into
      name's map, which starts empty; the rest of the collection is base. */
  method ReadRecords(stl: Stl, f: File, name: string, n: nat, ghost base: StlFiles) returns (r: Result<()>)
    modifies stl, f
    requires f.pos == StlRecordStart(0)
    requires stl.files == base[name := map[]]
    ensures r.Ok? <==> StlRecords(LegacyStlRecord, f.data, n).Ok?
    ensures r.Ok? ==> stl.files == base[name := StlFields(StlRecords(LegacyStlRecord, f.data, n).value)]
    ensures r.Err? ==> r.error == StlRecords(LegacyStlRecord, f.data, n).error
  {
    ghost var pairs: seq<Pair> := [];
    assert StlFields(pairs) == map[] by {
      assert StripPairs(pairs) == [];
    }
    var k := 0;
    while k < n
      invariant k <= n
      invariant f.pos == StlRecordStart(k)
      invariant StlRecords(LegacyStlRecord, f.data, k) == Ok(pairs)
      invariant stl.files == base[name := StlFields(pairs)]
    {
      var kv := NextRecord(stl, f, name, k, n, base, pairs);
      if kv.Err? {
        return Err(kv.error);
      }
      pairs := pairs + [kv.value];
      k := k + 1;
    }
    return Ok(());
  }

  /** Pass j of `run`'s directory loop on stl, as one more step of StlRun
      from an empty collection. */
  method NextEntry(stl: Stl, dir: seq<Entry>, j: nat, ghost base: StlFiles, ghost entries: seq<(string, Fields)>)
    returns (r: Result<()>, ghost entry: (string, Fields))
    modifies stl
    requires j < |dir|
    requires DecodeDir(StlFileDecoder(LegacyStlRecord), dir, j) == Ok(entries)
    requires stl.files == InsertAll(base, entries)
    ensures r.Ok? ==>
      StlFile(LegacyStlRecord, dir[j].data).Ok? && entry == (dir[j].name, StlFile(LegacyStlRecord, dir[j].data).value)
    ensures r.Ok? ==> DecodeDir(StlFileDecoder(LegacyStlRecord), dir, j + 1) == Ok(entries + [entry])
    ensures r.Ok? ==> stl.files == InsertAll(base, entries + [entry])
    ensures r.Err? ==> StlRun(LegacyStlRecord, base, dir) == Err(r.error)
  {
    r := RunEntry(stl, dir[j]);
    entry := (dir[j].name, map[]);
    if r.Err? {
      StlDirStops(LegacyStlRecord, dir, j);
    } else {
      entry := (dir[j].name, StlFile(LegacyStlRecord, dir[j].data).value);
      StlDirSnoc(LegacyStlRecord, dir, j, entries);
      InsertAllSnoc(base, entries, entry.0, entry.1);
    }
  }

  /** `run` of src/stl.rs: a fresh collection, filled entry by entry in
      directory order; the first failure ends the run, and only a complete
      run yields a collection. */
  method Run(dir: seq<Entry>) returns (r: Result<StlFiles>)
    ensures r == StlRun(LegacyStlRecord, map[], dir)
  {
    var stl := new Stl();
    var done := Fill(stl, dir);
    if done.Err? {
      return Err(done.error);
    }
    return Ok(stl.files);
  }

  /** The directory loop of `run` on the collection stl: the entries in
      directory order, the first failure ending the loop. */
  method Fill(stl: Stl, dir: seq<Entry>) returns (r: Result<()>)
    modifies stl
    ensures r.Ok? <==> StlRun(LegacyStlRecord, old(stl.files), dir).Ok?
    ensures r.Ok? ==> stl.files == StlRun(LegacyStlRecord, old(stl.files), dir).value
    ensures r.Err? ==> r.error == StlRun(LegacyStlRecord, old(stl.files), dir).error
  {
    ghost var entries: seq<(string, Fields)> := [];
    var j := 0;
    while j < |dir|
      invariant j <= |dir|
      invariant DecodeDir(StlFileDecoder(LegacyStlRecord), dir, j) == Ok(entries)
      invariant stl.files == InsertAll(old(stl.files), entries)
    {
      ghost var entry;
      var done;
      done, entry := NextEntry(stl, dir, j, old(stl.files), entries);
      if done.Err? {
        return Err(done.error);
      }
      entries := entries + [entry];
      j := j + 1;
    }
    ReplaceRunDone(StlFileDecoder(LegacyStlRecord), old(stl.files), dir, entries);
    return Ok(());
  }
}
