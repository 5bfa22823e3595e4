/** The SKL family: skill trees (src/parsers/skl.rs).

    Layout: a 92-byte header whose bytes 64..68 hold the raw offset of the
    node block (to which 0x10 is added) and bytes 68..72 its byte length;
    then skill_tree_len / 64 nodes of 64 bytes, read from that offset.  A node
    holds id, reward_hash, x, y, is_root and req_points at +0, +4, +12, +16,
    +20 and +24, and at +40 and +44 the raw offset and byte length of its
    array of u32 connections, which lies elsewhere in the file. */
module SklParser {
  import opened Results
  import opened Bytes
  import opened Utils
  import opened Dirs

  const SklHeaderLen: nat := 92
  const SklStride: nat := 64

  /** A skill node.  x and y are `f32` in the file; the model keeps their
      32 bits as they are stored. */
  datatype SkillNode = SkillNode(
    id: u32,
    reqPoints: u32,
    rewardHash: u32,
    isRoot: bool,
    x: u32,
    y: u32,
    connections: seq<u32>)

  type SklFiles = map<string, seq<SkillNode>>

  /** `Skl::header` on a header that starts at p: (skill_tree_offset,
      skill_tree_len), failure by failure in the order the function reads.
      Both raw offsets of the header are biased by 0x10, so either can
      overflow. */
  function SklHeader(data: seq<byte>, p: nat): (r: Result<(u32, u32)>)
    ensures r.Ok? <==>
      p + SklHeaderLen <= |data| &&
      U32At(data, p + 64) + PoolBase < 0x1_0000_0000 &&
      U32At(data, p + 80) + PoolBase < 0x1_0000_0000
    ensures r.Ok? ==> r.value == (U32At(data, p + 64) + PoolBase, U32At(data, p + 68))
  {
    if |data| < p + 68 then Err(UnexpectedEof)
    else
      match CheckedAdd(U32At(data, p + 64), PoolBase)
      case Err(e) => Err(e)
      case Ok(offset) =>
        if |data| < p + 84 then Err(UnexpectedEof)
        else
          match CheckedAdd(U32At(data, p + 80), PoolBase)
          case Err(e) => Err(e)
          case Ok(_) =>
            if |data| < p + 92 then Err(UnexpectedEof)
            else Ok((offset, U32At(data, p + 68)))
  }

  /** Step k of the connection loop: the u32 at offset + 4k. */
  function ConnectionStep(data: seq<byte>, offset: nat): nat -> Result<u32> {
    (k: nat) =>
      if offset + 4 * k + 4 <= |data| then Ok(U32At(data, offset + 4 * k))
      else Err(UnexpectedEof)
  }

  /** `get_connections`: len / 4 consecutive u32 values from offset. */
  function Connections(data: seq<byte>, offset: nat, len: u32): (r: Result<seq<u32>>)
    ensures r.Ok? <==> len / 4 == 0 || offset + 4 * (len / 4) <= |data|
    ensures r.Ok? ==> |r.value| == len / 4
    ensures r.Ok? ==> forall k :: 0 <= k < len / 4 ==> r.value[k] == U32At(data, offset + 4 * k)
    ensures r.Err? ==> r.error == UnexpectedEof
  {
    var step := ConnectionStep(data, offset);
    var n := len / 4;
    assert forall k :: 0 <= k < n ==> (step(k).Ok? <==> offset + 4 * k + 4 <= |data|);
    assert n > 0 && offset + 4 * n <= |data| ==>
      forall k :: 0 <= k < n ==> offset + 4 * k + 4 <= offset + 4 * n;
    CollectSpec(step, n);
    Collect(step, n)
  }

  /** `Skl::field` on the node at p, failure by failure in the order the
      function reads; the fields go to the places `SklField::new` gives
      them. */
  function SklNode(data: seq<byte>, p: nat): Result<SkillNode>
  {
    if |data| < p + 44 then Err(UnexpectedEof)
    else
      match CheckedAdd(U32At(data, p + 40), PoolBase)
      case Err(e) => Err(e)
      case Ok(offset) =>
        if |data| < p + 48 then Err(UnexpectedEof)
        else
          match Connections(data, offset, U32At(data, p + 44))
          case Err(e) => Err(e)
          case Ok(connections) =>
            Ok(SkillNode(U32At(data, p), U32At(data, p + 24), U32At(data, p + 4), U32At(data, p + 20) == 1,
                         U32At(data, p + 12), U32At(data, p + 16), connections))
  }

  /** Where `field` finds each member of a node, and when it fails: the
      node must be readable up to +48, the connection offset must not
      overflow, and the connection array must lie inside the file. */
  lemma SklNodeLayout(data: seq<byte>, p: nat)
    ensures SklNode(data, p).Ok? <==>
      p + 48 <= |data| &&
      U32At(data, p + 40) + PoolBase < 0x1_0000_0000 &&
      Connections(data, U32At(data, p + 40) + PoolBase, U32At(data, p + 44)).Ok?
    ensures SklNode(data, p).Ok? ==>
      var node := SklNode(data, p).value;
      node.id == U32At(data, p) &&
      node.rewardHash == U32At(data, p + 4) &&
      node.x == U32At(data, p + 12) &&
      node.y == U32At(data, p + 16) &&
      (node.isRoot <==> U32At(data, p + 20) == 1) &&
      node.reqPoints == U32At(data, p + 24) &&
      node.connections == Connections(data, U32At(data, p + 40) + PoolBase, U32At(data, p + 44)).value
  {
  }

  /** Where node i of a block at offset starts: 64i bytes after it. */
  function SklNodeAt(offset: nat, i: nat): nat {
    offset + SklStride * i
  }

  /** Step i of the node loop, with read the reading of one node. */
  function SklNodeStep(read: (seq<byte>, nat) -> Result<SkillNode>, data: seq<byte>, offset: nat): nat -> Result<SkillNode> {
    (i: nat) => read(data, SklNodeAt(offset, i))
  }

  /** The nodes of one file: the header, then skill_tree_len / 64 nodes read
      from skill_tree_offset. */
  function SklDecode(data: seq<byte>): Result<seq<SkillNode>> {
    match SklHeader(data, 0)
    case Err(e) => Err(e)
    case Ok(header) => Collect(SklNodeStep(SklNode, data, header.0), header.1 / SklStride)
  }

  /** A file whose header fails fails with the header's error. */
  lemma SklDecodeHeader(data: seq<byte>)
    requires SklHeader(data, 0).Err?
    ensures SklDecode(data) == Err(SklHeader(data, 0).error)
  {
  }

  /** A file whose header gives (offset, len) decodes exactly when each of
      its len / 64 nodes does; node i is read at offset + 64i, and the nodes
      come out in file order. */
  lemma SklDecodeNodes(data: seq<byte>, offset: u32, len: u32)
    requires SklHeader(data, 0) == Ok((offset, len))
    ensures SklDecode(data).Ok? <==>
      forall i :: 0 <= i < len / SklStride ==> SklNode(data, SklNodeAt(offset, i)).Ok?
    ensures SklDecode(data).Ok? ==> |SklDecode(data).value| == len / SklStride
    ensures SklDecode(data).Ok? ==>
      forall i :: 0 <= i < len / SklStride ==> SklNode(data, SklNodeAt(offset, i)) == Ok(SklDecode(data).value[i])
  {
    var step := SklNodeStep(SklNode, data, offset);
    assert forall i :: 0 <= i < len / SklStride ==> step(i) == SklNode(data, SklNodeAt(offset, i));
    CollectSpec(step, len / SklStride);
  }

  /** SklDecode as the decoder of a directory run. */
  function SklFileDecoder(): seq<byte> -> Result<seq<SkillNode>> {
    data => SklDecode(data)
  }

  /** The nodes already stored under name, or none. */
  function Existing(files: SklFiles, name: string): seq<SkillNode> {
    if name in files then files[name] else []
  }

  /** `add_field`: the entry of name is created empty if missing, then the
      node is appended to it. */
  function AddNode(files: SklFiles, name: string, node: SkillNode): SklFiles {
    files[name := Existing(files, name) + [node]]
  }

  /** The nodes of one file appended one by one under its name. */
  function AddNodes(files: SklFiles, name: string, nodes: seq<SkillNode>): SklFiles
    decreases |nodes|
  {
    if nodes == [] then files
    else AddNode(AddNodes(files, name, nodes[..|nodes| - 1]), name, nodes[|nodes| - 1])
  }

  /** One more node is one more `add_field`. */
  lemma AddNodesSnoc(files: SklFiles, name: string, nodes: seq<SkillNode>, node: SkillNode)
    ensures AddNodes(files, name, nodes + [node]) == AddNode(AddNodes(files, name, nodes), name, node)
  {
    assert (nodes + [node])[..|nodes|] == nodes;
  }

  /** Appending a file's nodes: a file with no nodes leaves the collection
      as it was (no entry is created); otherwise its nodes go after those
      already stored under its name, in order, and no other name changes. */
  lemma {:induction false} AddNodesSpec(files: SklFiles, name: string, nodes: seq<SkillNode>)
    ensures nodes == [] ==> AddNodes(files, name, nodes) == files
    ensures nodes != [] ==> AddNodes(files, name, nodes) == files[name := Existing(files, name) + nodes]
    decreases |nodes|
  {
    if nodes != [] {
      var init, last := nodes[..|nodes| - 1], nodes[|nodes| - 1];
      AddNodesSpec(files, name, init);
      assert nodes == init + [last];
      if init == [] {
        assert AddNodes(files, name, nodes) == AddNode(files, name, last);
      } else {
        var before := files[name := Existing(files, name) + init];
        assert AddNodes(files, name, nodes) == AddNode(before, name, last);
        assert Existing(before, name) + [last] == Existing(files, name) + nodes;
      }
    }
  }

  /** Every decoded file of a run appended in directory order. */
  function AppendAll(files: SklFiles, entries: seq<(string, seq<SkillNode>)>): SklFiles
    decreases |entries|
  {
    if entries == [] then files
    else
      var last := entries[|entries| - 1];
      AddNodes(AppendAll(files, entries[..|entries| - 1]), last.0, last.1)
  }

  /** All the nodes the entries carry under name, in entry order. */
  function NodesOf(entries: seq<(string, seq<SkillNode>)>, name: string): seq<SkillNode>
    decreases |entries|
  {
    if entries == [] then []
    else
      var last := entries[|entries| - 1];
      NodesOf(entries[..|entries| - 1], name) + (if last.0 == name then last.1 else [])
  }

  /** After a run, a name holds what it held before followed by the nodes of
      every file of that name, in directory order: a repeated name
      accumulates, and a name whose files have no nodes gets no entry. */
  lemma {:induction false} AppendAllSpec(files: SklFiles, entries: seq<(string, seq<SkillNode>)>, name: string)
    ensures name in AppendAll(files, entries) <==> name in files || NodesOf(entries, name) != []
    ensures Existing(AppendAll(files, entries), name) == Existing(files, name) + NodesOf(entries, name)
    decreases |entries|
  {
    if entries != [] {
      var init, last := entries[..|entries| - 1], entries[|entries| - 1];
      var before := AppendAll(files, init);
      AppendAllSpec(files, init, name);
      AddNodesSpec(before, last.0, last.1);
      if last.0 == name && last.1 != [] {
        assert Existing(AppendAll(files, entries), name) == Existing(before, name) + last.1;
      } else {
        assert Existing(AppendAll(files, entries), name) == Existing(before, name);
      }
    }
  }

  /** A whole run over a directory, starting from the collection files. */
  function SklRun(files: SklFiles, dir: seq<Entry>): Result<SklFiles> {
    match DecodeDir(SklFileDecoder(), dir, |dir|)
    case Err(e) => Err(e)
    case Ok(entries) => Ok(AppendAll(files, entries))
  }

  /** A directory that decodes to entries runs to their appending. */
  lemma SklRunDone(files: SklFiles, dir: seq<Entry>, entries: seq<(string, seq<SkillNode>)>)
    requires DecodeDir(SklFileDecoder(), dir, |dir|) == Ok(entries)
    ensures SklRun(files, dir) == Ok(AppendAll(files, entries))
  {
  }

  /** One more decoded file is one more AddNodes. */
  lemma AppendAllSnoc(files: SklFiles, entries: seq<(string, seq<SkillNode>)>, name: string, nodes: seq<SkillNode>)
    ensures AppendAll(files, entries + [(name, nodes)]) == AddNodes(AppendAll(files, entries), name, nodes)
  {
    assert (entries + [(name, nodes)])[..|entries|] == entries;
  }

  /** DecodeDirSnoc and DecodeDirStops for the SKL decoder. */
  lemma SklDirSnoc(dir: seq<Entry>, j: nat, entries: seq<(string, seq<SkillNode>)>)
    requires j < |dir|
    requires DecodeDir(SklFileDecoder(), dir, j) == Ok(entries)
    requires SklDecode(dir[j].data).Ok?
    ensures DecodeDir(SklFileDecoder(), dir, j + 1) == Ok(entries + [(dir[j].name, SklDecode(dir[j].data).value)])
  {
    DecodeDirSnoc(SklFileDecoder(), dir, j, entries);
  }

  lemma SklDirStops(dir: seq<Entry>, j: nat)
    requires j < |dir|
    requires DecodeDir(SklFileDecoder(), dir, j).Ok?
    requires SklDecode(dir[j].data).Err?
    ensures DecodeDir(SklFileDecoder(), dir, |dir|) == Err(SklDecode(dir[j].data).error)
  {
    DecodeDirStops(SklFileDecoder(), dir, j);
  }

  /** The collection an SKL run fills (`Skl` with its `files` map). */
  class Skl {
    var files: SklFiles

    constructor ()
      ensures files == map[]
    {
      files := map[];
    }

    /** `add_field`: the entry of name is created empty if it is missing
        (`or_insert`), then node is appended; no other file changes. */
    method AddField(name: string, node: SkillNode)
      modifies this
      ensures name in old(files) ==> files == old(files)[name := old(files)[name] + [node]]
      ensures name !in old(files) ==> files == old(files)[name := [node]]
    {
      if name in files {
        files := files[name := files[name] + [node]];
      } else {
        files := files[name := [node]];
      }
    }

    /** `header`: (skill_tree_offset, skill_tree_len) as SklHeader describes
        them; every other header field is read and dropped, and the cursor
        ends 92 bytes on. */
    static method Header(f: File) returns (r: Result<(u32, u32)>)
      modifies f
      ensures r == SklHeader(f.data, old(f.pos))
      ensures r.Ok? ==> f.pos == old(f.pos) + SklHeaderLen
    {
      ghost var p := f.pos;
      var deadbeef :- ReadU32(f);
      var fileType :- ReadU32(f);
      var _ := Padding(f, 4);
      var hashId :- ReadU32(f);
      var _ := Padding(f, 16);
      var _ := Padding(f, 32);
      assert f.pos == p + 64;
      var raw :- ReadU32(f);
      var treeOffset :- CheckedAdd(raw, PoolBase);
      var treeLen :- ReadU32(f);
      var _ := Padding(f, 8);
      assert f.pos == p + 80;
      var rawSomething :- ReadU32(f);
      var somethingOffset :- CheckedAdd(rawSomething, PoolBase);
      var somethingLen :- ReadU32(f);
      var idk :- ReadU32(f);
      return Ok((treeOffset, treeLen));
    }

    /** `get_connections`: the connection array read from offset; on
        success the cursor is back where it was. */
    static method GetConnections(f: File, offset: u32, len: u32) returns (r: Result<seq<u32>>)
      modifies f
      ensures r == Connections(f.data, offset, len)
      ensures r.Ok? ==> f.pos == old(f.pos)
    {
      var connections: seq<u32> := [];
      var oldPos := f.StreamPosition();
      GoTo(f, offset);
      var numConnections := len / 4;
      var k := 0;
      while k < numConnections
        invariant k <= numConnections
        invariant f.pos == offset + 4 * k
        invariant Collect(ConnectionStep(f.data, offset), k) == Ok(connections)
      {
        var connection := ReadU32(f);
        if connection.Err? {
          CollectStopsAt(ConnectionStep(f.data, offset), k, numConnections, connection.error);
          return Err(connection.error);
        }
        CollectSnoc(ConnectionStep(f.data, offset), k, connections, connection.value);
        connections := connections + [connection.value];
        k := k + 1;
      }
      GoTo(f, oldPos);
      return Ok(connections);
    }

    /** `field`: the node at the cursor, read as SklNode describes it; the
        cursor moves exactly one stride, the 64 bytes run counts nodes by,
        wherever the connection array lies. */
    static method Field(f: File) returns (r: Result<SkillNode>)
      modifies f
      ensures r == SklNode(f.data, old(f.pos))
      ensures r.Ok? ==> f.pos == old(f.pos) + SklStride
    {
      ghost var p := f.pos;
      var id :- ReadU32(f);
      var rewardHash :- ReadU32(f);
      var _ := Padding(f, 4);
      assert f.pos == p + 12;
      var x :- ReadU32(f);
      var y :- ReadU32(f);
      var rawRoot :- ReadU32(f);
      var isRoot := rawRoot == 1;
      var reqPoints :- ReadU32(f);
      var _ := Padding(f, 12);
      assert f.pos == p + 40;
      var rawConnections :- ReadU32(f);
      var connectionOffset :- CheckedAdd(rawConnections, PoolBase);
      var connectionLen :- ReadU32(f);
      assert f.pos == p + 48;
      var connections :- GetConnections(f, connectionOffset, connectionLen);
      var _ := Padding(f, 16);
      return Ok(SkillNode(id, reqPoints, rewardHash, isRoot, x, y, connections));
    }

    /** One pass of `run`'s directory loop: the cursor jumps to
        skill_tree_offset and the skill_tree_len / 64 nodes are appended
        under the entry's name. */
    method RunEntry(e: Entry) returns (r: Result<()>)
      modifies this
      ensures r.Ok? <==> SklDecode(e.data).Ok?
      ensures r.Ok? ==> files == AddNodes(old(files), e.name, SklDecode(e.data).value)
      ensures r.Err? ==> r.error == SklDecode(e.data).error
    {
      var f := new File.Open(e.data);
      var header := Header(f);
      if header.Err? {
        SklDecodeHeader(e.data);
        return Err(header.error);
      }
      var (infoOffset, infoLen) := header.value;
      GoTo(f, infoOffset);
      r := ReadNodes(f, e.name, infoOffset, infoLen / SklStride);
    }

    /** Pass i of `run`'s node loop: `field` on node i, then `add_field`,
        one more node at the end of the nodes of name. */
    method NextNode(f: File, name: string, offset: nat, i: nat, ghost n: nat, ghost base: SklFiles, ghost nodes: seq<SkillNode>)
      returns (r: Result<SkillNode>)
      modifies this, f
      requires i < n && f.pos == SklNodeAt(offset, i)
      requires Collect(SklNodeStep(SklNode, f.data, offset), i) == Ok(nodes)
      requires files == AddNodes(base, name, nodes)
      ensures r.Ok? ==> f.pos == SklNodeAt(offset, i + 1)
      ensures r.Ok? ==> Collect(SklNodeStep(SklNode, f.data, offset), i + 1) == Ok(nodes + [r.value])
      ensures r.Ok? ==> files == AddNodes(base, name, nodes + [r.value])
      ensures r.Err? ==> Collect(SklNodeStep(SklNode, f.data, offset), n) == Err(r.error)
    {
      r := Field(f);
      if r.Err? {
        CollectStopsAt(SklNodeStep(SklNode, f.data, offset), i, n, r.error);
      } else {
        CollectSnoc(SklNodeStep(SklNode, f.data, offset), i, nodes, r.value);
        AddNodesSnoc(base, name, nodes, r.value);
        AddField(name, r.value);
      }
    }

    /** The node loop of `run`: n nodes from offset appended under name. */
    method ReadNodes(f: File, name: string, offset: nat, n: nat) returns (r: Result<()>)
      modifies this, f
      requires f.pos == SklNodeAt(offset, 0)
      ensures r.Ok? <==> Collect(SklNodeStep(SklNode, f.data, offset), n).Ok?
      ensures r.Ok? ==> files == AddNodes(old(files), name, Collect(SklNodeStep(SklNode, f.data, offset), n).value)
      ensures r.Err? ==> r.error == Collect(SklNodeStep(SklNode, f.data, offset), n).error
    {
      ghost var nodes: seq<SkillNode> := [];
      var i := 0;
      while i < n
        invariant i <= n
        invariant f.pos == SklNodeAt(offset, i)
        invariant Collect(SklNodeStep(SklNode, f.data, offset), i) == Ok(nodes)
        invariant files == AddNodes(old(files), name, nodes)
      {
        var node := NextNode(f, name, offset, i, n, old(files), nodes);
        if node.Err? {
          return Err(node.error);
        }
        nodes := nodes + [node.value];
        i := i + 1;
      }
      return Ok(());
    }

    /** Pass j of `run`'s directory loop, as one more step of SklRun. */
    method NextEntry(dir: seq<Entry>, j: nat, ghost base: SklFiles, ghost entries: seq<(string, seq<SkillNode>)>)
      returns (r: Result<()>, ghost entry: (string, seq<SkillNode>))
      modifies this
      requires j < |dir|
      requires DecodeDir(SklFileDecoder(), dir, j) == Ok(entries)
      requires files == AppendAll(base, entries)
      ensures r.Ok? ==> SklDecode(dir[j].data).Ok? && entry == (dir[j].name, SklDecode(dir[j].data).value)
      ensures r.Ok? ==> DecodeDir(SklFileDecoder(), dir, j + 1) == Ok(entries + [entry])
      ensures r.Ok? ==> files == AppendAll(base, entries + [entry])
      ensures r.Err? ==> SklRun(base, dir) == Err(r.error)
    {
      r := RunEntry(dir[j]);
      entry := (dir[j].name, []);
      if r.Err? {
        SklDirStops(dir, j);
      } else {
        entry := (dir[j].name, SklDecode(dir[j].data).value);
        SklDirSnoc(dir, j, entries);
        AppendAllSnoc(base, entries, entry.0, entry.1);
      }
    }

    /** `run`: the entries in directory order; the first failure ends the
        run. */
    method Run(dir: seq<Entry>) returns (r: Result<()>)
      modifies this
      ensures r.Ok? <==> SklRun(old(files), dir).Ok?
      ensures r.Ok? ==> files == SklRun(old(files), dir).value
      ensures r.Err? ==> r.error == SklRun(old(files), dir).error
    {
      ghost var entries: seq<(string, seq<SkillNode>)> := [];
      var j := 0;
      while j < |dir|
        invariant j <= |dir|
        invariant DecodeDir(SklFileDecoder(), dir, j) == Ok(entries)
        invariant files == AppendAll(old(files), entries)
      {
        ghost var entry;
        var done;
        done, entry := NextEntry(dir, j, old(files), entries);
        if done.Err? {
          return Err(done.error);
        }
        entries := entries + [entry];
        j := j + 1;
      }
      SklRunDone(old(files), dir, entries);
      return Ok(());
    }
  }
}
