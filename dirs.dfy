/** The directory loop every `run` shares: the entries of a directory are
    decoded one after the other in directory order, the first failure ends
    the run, and each decoded file is stored under its file name. */
module Dirs {
  import opened Results
  import opened Bytes
  import opened Maps
  import opened Utils

  /** One directory entry decoded: its name and what its contents decode to. */
  function DecodeEntry<F>(decode: seq<byte> -> Result<F>, e: Entry): Result<(string, F)> {
    match decode(e.data)
    case Err(err) => Err(err)
    case Ok(v) => Ok((e.name, v))
  }

  /** Step j of the directory loop. */
  function DirStep<F>(decode: seq<byte> -> Result<F>, dir: seq<Entry>): nat --> Result<(string, F)> {
    (j: nat) requires j < |dir| => DecodeEntry(decode, dir[j])
  }

  /** The first n entries decoded, in directory order. */
  function DecodeDir<F>(decode: seq<byte> -> Result<F>, dir: seq<Entry>, n: nat): (r: Result<seq<(string, F)>>)
    requires n <= |dir|
    ensures r.Ok? <==> forall j :: 0 <= j < n ==> decode(dir[j].data).Ok?
    ensures r.Ok? ==> |r.value| == n
    ensures r.Ok? ==> forall j :: 0 <= j < n ==> r.value[j] == (dir[j].name, decode(dir[j].data).value)
  {
    var step := DirStep(decode, dir);
    assert forall j :: 0 <= j < n ==> step(j) == DecodeEntry(decode, dir[j]);
    CollectSpec(step, n);
    Collect(step, n)
  }

  /** One more entry that decodes extends the decoded prefix by one. */
  lemma DecodeDirSnoc<F>(decode: seq<byte> -> Result<F>, dir: seq<Entry>, j: nat, entries: seq<(string, F)>)
    requires j < |dir|
    requires DecodeDir(decode, dir, j) == Ok(entries)
    requires decode(dir[j].data).Ok?
    ensures DecodeDir(decode, dir, j + 1) == Ok(entries + [(dir[j].name, decode(dir[j].data).value)])
  {
    CollectSnoc(DirStep(decode, dir), j, entries, (dir[j].name, decode(dir[j].data).value));
  }

  /** The first entry that fails to decode decides the outcome of the whole
      directory. */
  lemma DecodeDirStops<F>(decode: seq<byte> -> Result<F>, dir: seq<Entry>, j: nat)
    requires j < |dir|
    requires DecodeDir(decode, dir, j).Ok?
    requires decode(dir[j].data).Err?
    ensures DecodeDir(decode, dir, |dir|) == Err(decode(dir[j].data).error)
  {
    CollectStopsAt(DirStep(decode, dir), j, |dir|, decode(dir[j].data).error);
  }

  /** A run whose loop resets the entry of each file it opens
      (`new_file`) and then fills it: the decoded value of each entry
      replaces whatever files held under that name. */
  function ReplaceRun<F>(decode: seq<byte> -> Result<F>, files: map<string, F>, dir: seq<Entry>): Result<map<string, F>> {
    match DecodeDir(decode, dir, |dir|)
    case Err(e) => Err(e)
    case Ok(entries) => Ok(InsertAll(files, entries))
  }

  /** A directory that decodes to entries runs to their insertion. */
  lemma ReplaceRunDone<F>(decode: seq<byte> -> Result<F>, files: map<string, F>, dir: seq<Entry>, entries: seq<(string, F)>)
    requires DecodeDir(decode, dir, |dir|) == Ok(entries)
    ensures ReplaceRun(decode, files, dir) == Ok(InsertAll(files, entries))
  {
  }

  /** One failing file aborts the whole run, with the error of the first
      file that fails; otherwise the run succeeds. */
  lemma ReplaceRunFails<F>(decode: seq<byte> -> Result<F>, files: map<string, F>, dir: seq<Entry>)
    ensures ReplaceRun(decode, files, dir).Ok? <==> forall j :: 0 <= j < |dir| ==> decode(dir[j].data).Ok?
    ensures ReplaceRun(decode, files, dir).Err? ==>
      exists j :: 0 <= j < |dir| && decode(dir[j].data) == Err(ReplaceRun(decode, files, dir).error) &&
        forall i :: 0 <= i < j ==> decode(dir[i].data).Ok?
  {
    var step := DirStep(decode, dir);
    var r := Collect(step, |dir|);
    CollectSpec(step, |dir|);
    if r.Err? {
      var j :| 0 <= j < |dir| && step(j) == Err(r.error) && forall i :: 0 <= i < j ==> step(i).Ok?;
      assert decode(dir[j].data) == Err(r.error);
      forall i | 0 <= i < j ensures decode(dir[i].data).Ok? {
        assert step(i).Ok?;
      }
    }
  }

  /** After a successful run every entry of the directory has a value, even
      a file with no records, and it is the value of the last entry with
      that name. */
  lemma ReplaceRunEntry<F>(decode: seq<byte> -> Result<F>, files: map<string, F>, dir: seq<Entry>, j: nat)
    requires ReplaceRun(decode, files, dir).Ok?
    requires j < |dir|
    requires forall i :: j < i < |dir| ==> dir[i].name != dir[j].name
    ensures decode(dir[j].data).Ok?
    ensures dir[j].name in ReplaceRun(decode, files, dir).value
    ensures ReplaceRun(decode, files, dir).value[dir[j].name] == decode(dir[j].data).value
  {
    var entries := DecodeDir(decode, dir, |dir|).value;
    InsertAllLastWins(files, entries, j);
  }

  /** A successful run leaves the names that are not in the directory as
      they were. */
  lemma ReplaceRunKeeps<F>(decode: seq<byte> -> Result<F>, files: map<string, F>, dir: seq<Entry>, name: string)
    requires ReplaceRun(decode, files, dir).Ok?
    requires forall i :: 0 <= i < |dir| ==> dir[i].name != name
    ensures name in ReplaceRun(decode, files, dir).value <==> name in files
    ensures name in files ==> ReplaceRun(decode, files, dir).value[name] == files[name]
  {
    var entries := DecodeDir(decode, dir, |dir|).value;
    InsertAllKeeps(files, entries, name);
  }
}
