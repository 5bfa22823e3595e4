# diablo4-data-harvest: the binary decoders, modelled in Dafny

diablo4-data-harvest reads three families of Diablo IV game-data files and
gathers what they hold into one collection per family, keyed by file name:

- STL string tables: key/value pairs in 40-byte records.
- AFF files: an ordered list of strings in records that average 44 bytes.
  The padding before a record depends on the parity of its index.
- SKL skill trees: 64-byte nodes. Each node points to an array of u32
  connections elsewhere in the file.

Every string lives in a string pool. A record holds the string's pool offset,
relative to the end of a 16-byte header (the decoder adds 0x10), and its
length.

This project models the decoding core:

- the file cursor primitives of `src/utils.rs`;
- the decoders of `src/parsers/stl.rs`, `src/parsers/aff.rs` and
  `src/parsers/skl.rs`;
- the earlier STL decoder `src/stl.rs`.

The model follows the source's own imperative form:

- `File` is a class with an immutable byte sequence and a mutable cursor.
- `Stl`, `Aff` and `Skl` are classes whose `files` map the decoders update in
  place.
- `header`, `info`, `field`, `get_connections` and `run` are methods that
  advance the cursor read by read, as the Rust code does.

Each method is proved against a specification function: `StlRecord`,
`AffHeader`, `SklNode`, `StlRun` and so on. The properties the decoders
promise are lemmas about those functions:

- record positions and strides;
- floor-divided record counts;
- field offsets;
- NUL stripping;
- last-write-wins insertion;
- accumulation under a repeated name;
- the first failure ending a run;
- agreement between the two STL decoders.

Modules:

- `Results`: the error kinds; `Result`, whose `:-` is Rust's `?`; and
  `Collect`, the specification of every loop `for _ in 0..n { ...? }`.
- `Bytes`: bytes, `u32`, little-endian decoding and the checked `u32`
  addition.
- `Text`: UTF-8 well-formedness and NUL removal.
- `Maps`: repeated `HashMap::insert`.
- `Utils`: the `File` cursor and `src/utils.rs`.
- `Dirs`: the directory loop every `run` shares.
- `StlParser`, `AffParser`, `SklParser`: the three decoders.
- `LegacyStl`: `src/stl.rs`. Its `header`, `new_file` and `add_field` are
  the same code as in `src/parsers/stl.rs`, so it uses `StlParser.Stl`'s
  `Header`, `NewFile` and `AddField`.

Errors:

- A read past the end of a file and a seek before its start are the I/O
  errors `UnexpectedEof` and `InvalidSeek`.
- The two panics the decoders can raise are modelled as errors that end the
  run, like the I/O errors: an overflowing `raw + 0x10` is `Overflow`, and
  `String::from_utf8(..).unwrap()` on malformed bytes is `InvalidUtf8`.

## Model

| member | source | states |
|---|---|---|
| Results.CollectSpec | src/parsers/stl.rs:74-78 | a `for _ in 0..n` loop whose body uses `?` succeeds exactly when every pass does; it then yields the n results in pass order; otherwise it fails with the error of the first failing pass, and every earlier pass succeeded |
| Results.CollectStopsAt | src/parsers/stl.rs:75-76 | once passes 0..k succeed and pass k fails, the loop fails with pass k's error whatever its length: `?` leaves the loop there |
| Bytes.U32AtSpan | src/utils.rs:19-21 | `u32::from_le_bytes` on the four bytes at position i is b0 + 2^8·b1 + 2^16·b2 + 2^24·b3 of those bytes |
| Bytes.LeU32OfLeBytes | src/utils.rs:21 | decoding the little-endian bytes of any u32 gives that u32 back |
| Bytes.LeBytesOfLeU32 | src/utils.rs:21 | any four bytes are recovered from the u32 they decode to: `from_le_bytes` loses nothing and its result is below 2^32 |
| Bytes.SpanSlice | src/utils.rs:11-12 | the len bytes a buffer read at offset receives are exactly data[offset..offset + len] |
| Bytes.CheckedAddWraps | src/parsers/stl.rs:48 | the `+ 0x10u32` of a debug build panics exactly when the sum a release build would compute wraps below the raw offset, and otherwise the two builds agree |
| Text.StripNul | src/parsers/stl.rs:77 | the string stored after `replace(char::from(0), "")` holds no zero byte |
| Text.StripNulMultiset | src/parsers/stl.rs:77 | removing U+0000 removes every zero byte and keeps every other byte as many times as the string holds it |
| Text.StripNulAppend | src/parsers/stl.rs:77 | the removal works byte by byte: it distributes over concatenation and keeps the order of what it keeps |
| Text.StripNulIdentity | src/parsers/stl.rs:77 | a string is stored unchanged exactly when it holds no NUL, and stripping twice is stripping once |
| Text.StripNulKeepsUtf8 | src/parsers/stl.rs:77 | removing NULs from well-formed UTF-8 leaves well-formed UTF-8, so what is stored is still a `String` |
| Maps.InsertAll | src/parsers/stl.rs:28 | after inserting a sequence of pairs, the keys are those present before plus those the pairs carry |
| Maps.InsertAllLastWins | src/parsers/stl.rs:28 | `HashMap::insert` repeated: a key holds the value of the last pair that carries it |
| Maps.InsertAllKeeps | src/parsers/stl.rs:26-29 | a key that no pair carries keeps its value, or stays absent |
| Utils.File.Open | src/parsers/stl.rs:72 | an opened file holds its bytes, with the cursor at 0 |
| Utils.File.StreamPosition | src/utils.rs:9 | `stream_position` returns the cursor and moves nothing |
| Utils.File.SeekStart | src/utils.rs:10 | `SeekFrom::Start(offset)` puts the cursor at offset, inside or past the end of the file |
| Utils.File.SeekCurrent | src/utils.rs:4 | `SeekFrom::Current(delta)` moves the cursor by delta; a target before byte 0 is refused with InvalidSeek and the cursor stays |
| Utils.File.ReadExact | src/utils.rs:11-12 | `read_exact` succeeds exactly when len is 0 or len bytes remain; it returns the len bytes at the cursor (none when len is 0, wherever the cursor is) and advances the cursor by len; otherwise it fails with UnexpectedEof, the cursor at the end of the file or past it |
| Utils.Padding | src/utils.rs:3-6 | `padding` moves the cursor by exactly len and reads nothing; it fails only for a target before byte 0, and the cursor then stays |
| Utils.GoTo | src/parsers/aff.rs:72 | `go_to` puts the cursor at the absolute offset |
| Utils.ReadOffset | src/utils.rs:8-16 | `read_offset` succeeds exactly when len is 0 or offset + len fits in the file; it returns the len bytes at offset, independent of the cursor, and on success the cursor is back where it was |
| Utils.ReadU32 | src/utils.rs:18-24 | `read_u32` succeeds exactly when 4 bytes remain at the cursor; it returns their little-endian value and advances the cursor by exactly 4; otherwise it fails with UnexpectedEof |
| Utils.PoolRef | src/parsers/stl.rs:48-51 | a pool reference (raw offset, length) at `at` resolves exactly when both words are readable, raw + 0x10 does not overflow, and the string is empty or lies inside the file, and is UTF-8; it resolves to the len bytes at raw + 0x10 (the empty string for length 0, wherever raw points) |
| Utils.PoolRefEmpty | src/utils.rs:11-12 | a pool reference of length 0 whose offset does not overflow resolves to the empty string even when the offset points past the end of the file |
| Utils.ReadString | src/parsers/stl.rs:50-51 | `read_offset` followed by `String::from_utf8(..).unwrap()`: the pool string at offset (empty when len is 0, wherever offset lies), or the first failure; on success the cursor does not move |
| Utils.ReadPoolRef | src/parsers/stl.rs:48-51 | the two `read_u32`, the `+ 0x10`, then the string read: PoolRef at the cursor (the empty string for length 0, wherever the offset points); on success the cursor moves past the 8 bytes of the reference only |
| Dirs.DecodeDir | src/parsers/stl.rs:66-79 | the first n directory entries decode exactly when each does; they give each entry's name with its decoded contents, in directory order |
| Dirs.ReplaceRunFails | src/parsers/stl.rs:66-78 | a run succeeds exactly when every file decodes; otherwise it fails with the error of the first file that fails, every earlier file having decoded |
| Dirs.ReplaceRunEntry | src/parsers/stl.rs:70 | after a successful run every directory entry has a value, even a file with no records, and it is the value decoded from the last entry of that name |
| Dirs.ReplaceRunKeeps | src/parsers/stl.rs:66-79 | a successful run leaves the names that are not in the directory as they were |
| StlParser.StlRecord | src/parsers/stl.rs:46-61 | `info` on a record at p succeeds exactly when the record is readable to p + 32 and both pool references resolve (a reference of length 0 resolves wherever it points); the key is the string at raw(p+8) + 0x10 with the length at p+12, and the value the one at raw(p+24) + 0x10 with the length at p+28 |
| StlParser.StlDecodeRecords | src/parsers/stl.rs:73-75 | a file decodes exactly when its header is complete and each of its info_len / 40 records decodes (floor division); record k is read at 48 + 40k, and the pairs come out in record order |
| StlParser.StlFieldsNoNul | src/parsers/stl.rs:77 | after `replace(char::from(0), "")` on key and value, no key and no value of a file's map holds a NUL, whatever the records held |
| Maps.InsertAllFrom | src/parsers/stl.rs:28 | every key after the insertions keeps its old value or holds the value that one of the inserted pairs carried with it |
| StlParser.StlFieldsSnoc | src/parsers/stl.rs:76-77 | one more record is one more insertion of its stripped key and value into the file's map |
| StlParser.StlFieldsLastWins | src/parsers/stl.rs:25-30 | a key is stored with the value of the last record that carries it, after NUL removal |
| StlParser.Stl.constructor | src/parsers/stl.rs:15-19 | a new collection is empty |
| StlParser.Stl.NewFile | src/parsers/stl.rs:21-23 | `new_file` puts an empty map under the name and replaces what was there; no other file changes |
| StlParser.Stl.AddField | src/parsers/stl.rs:25-30 | `add_field` inserts into the name's map, last write winning; a name without a map stays absent; no other file changes |
| StlParser.Stl.Header | src/parsers/stl.rs:33-44 | `header` succeeds exactly when the file holds 40 bytes from the cursor; it returns the u32 at bytes 36..40 and leaves the cursor 48 bytes on; every failure is UnexpectedEof |
| StlParser.Stl.Info | src/parsers/stl.rs:46-61 | `info` returns StlRecord at the cursor and moves the cursor exactly 40 bytes, the stride `run` counts records by |
| StlParser.Stl.ReadRecord | src/parsers/stl.rs:76 | `info` on record k extends the first k records by one, or ends the record loop with its error |
| StlParser.Stl.NextRecord | src/parsers/stl.rs:75-78 | one pass of the record loop: the record is read and inserted, and the file's map is the map of the records read so far |
| StlParser.Stl.ReadRecords | src/parsers/stl.rs:74-78 | the record loop reads n records from 48 and leaves the map of their stripped pairs under the name; no other file changes |
| StlParser.Stl.RunEntry | src/parsers/stl.rs:67-78 | one directory entry: it succeeds exactly when the file decodes, and then the name holds the file's map in place of what it held |
| StlParser.Stl.NextEntry | src/parsers/stl.rs:66-79 | one pass of the directory loop is one more step of StlRun; a failure is the failure of the whole run |
| StlParser.Stl.Run | src/parsers/stl.rs:63-86 | `run` leaves exactly the collection StlRun gives for the directory, or fails with its error |
| AffParser.AffHeader | src/parsers/aff.rs:32-45 | `header` succeeds exactly when 152 bytes are readable and raw + 16 does not overflow; it returns (u32 at 144..148 + 16, u32 at 148..152); the error is Overflow only when the offset is readable and overflows |
| AffParser.AffRecord | src/parsers/aff.rs:47-59 | `info` succeeds exactly when 24 bytes are readable, the first pool reference resolves (a length of 0 resolves wherever it points) and the second offset does not overflow; only the first string is returned |
| AffParser.AffRecordEmpty | src/parsers/aff.rs:47-59 | the record [100, 0, 0, 0, 0, 0, 0, 0] followed by 16 zero bytes, read at 0, yields the empty string although its offset 0x74 lies past the end |
| AffParser.AffCursorClosedForm | src/parsers/aff.rs:75-80 | pass i of the record loop begins 44i bytes past info_offset, 4 more when i is odd |
| AffParser.AffCursorPairs | src/parsers/aff.rs:75-80 | after 2k records the cursor is info_offset + 88k |
| AffParser.AffRecordAtClosedForm | src/parsers/aff.rs:76-79 | record i is read 44i + 24 bytes past info_offset when i is even and 44i + 20 when it is odd |
| AffParser.AffDecodeRecords | src/parsers/aff.rs:71-80 | a file decodes exactly when its header does and each of its info_len / 44 records does (floor division); record i is read at its parity-padded position from info_offset, whatever the header's length; the strings come out in record order |
| AffParser.AffFileNoNul | src/parsers/aff.rs:81 | after `replace(char::from(0), "")`, no string of a file's list holds a NUL |
| AffParser.StripAllAt | src/parsers/aff.rs:81 | string i of the appended list is the string of record i with its NULs removed |
| AffParser.AffFileValues | src/parsers/aff.rs:74-81 | the list of a decoded file holds info_len / 44 strings; string i is the first pool string of record i with its NULs removed |
| AffParser.Aff.constructor | src/parsers/aff.rs:15-19 | a new collection is empty |
| AffParser.Aff.NewFile | src/parsers/aff.rs:21-23 | `new_file` puts an empty list under the name and replaces what was there; no other file changes |
| AffParser.Aff.AddField | src/parsers/aff.rs:25-30 | `add_field` appends to the name's list; a name without a list stays absent; no other file changes |
| AffParser.Aff.Header | src/parsers/aff.rs:32-45 | `header` returns AffHeader at the cursor and leaves the cursor 256 bytes on |
| AffParser.Aff.Info | src/parsers/aff.rs:47-59 | `info` returns AffRecord at the cursor and moves the cursor exactly 24 bytes |
| AffParser.Aff.SkipPadding | src/parsers/aff.rs:76-79 | before record i the cursor skips 24 bytes when i is even and 16 when it is odd |
| AffParser.Aff.ReadRecord | src/parsers/aff.rs:76-80 | the parity padding and `info` extend the first i records by one, or end the record loop with its error |
| AffParser.Aff.NextRecord | src/parsers/aff.rs:75-82 | one pass of the record loop: the string is read and appended stripped; the name's list is the stripped strings read so far |
| AffParser.Aff.ReadRecords | src/parsers/aff.rs:74-82 | the record loop reads n records from info_offset and leaves their stripped strings, in order, under the name; no other file changes |
| AffParser.Aff.RunEntry | src/parsers/aff.rs:65-82 | one directory entry: the name's list is reset, and on success it holds exactly the file's strings |
| AffParser.Aff.NextEntry | src/parsers/aff.rs:64-83 | one pass of the directory loop is one more step of AffRun; a failure is the failure of the whole run |
| AffParser.Aff.Run | src/parsers/aff.rs:61-90 | `run` leaves exactly the collection AffRun gives for the directory, or fails with its error |
| SklParser.SklHeader | src/parsers/skl.rs:29-46 | `header` succeeds exactly when bytes 0..92 are readable and neither raw offset (at 64 and 80) overflows when 0x10 is added; it returns (u32 at 64..68 + 0x10, u32 at 68..72) |
| SklParser.Connections | src/parsers/skl.rs:67-81 | `get_connections` succeeds exactly when len / 4 is 0 or the array lies inside the file; it returns len / 4 values, the k-th being the u32 at offset + 4k; the only error is UnexpectedEof |
| SklParser.SklNodeLayout | src/parsers/skl.rs:48-65 | `field` succeeds exactly when the node is readable to +48, the connection offset does not overflow and the connection array is readable; id, reward_hash, x, y, is_root and req_points come from +0, +4, +12, +16, +20 and +24; is_root holds exactly when the word is 1; connections come from the offset at +40 (+ 0x10) and the length at +44 |
| SklParser.SklDecodeNodes | src/parsers/skl.rs:92-99 | a file decodes exactly when each of its skill_tree_len / 64 nodes does (floor division); node i is read at skill_tree_offset + 64i, and the nodes come out in file order |
| SklParser.AddNodesSpec | src/parsers/skl.rs:22-27 | appending a file's nodes one `add_field` at a time: no nodes leaves the collection as it was, with no entry created; otherwise the nodes go after those already stored under the name, and no other name changes |
| SklParser.AppendAllSpec | src/parsers/skl.rs:86-99 | after a run, a name holds what it held before followed by the nodes of every file of that name, in directory order; it has an entry exactly when it had one or some node was added |
| SklParser.Skl.constructor | src/parsers/skl.rs:16-20 | a new collection is empty |
| SklParser.Skl.AddField | src/parsers/skl.rs:22-27 | `add_field` creates the entry on the first node (`or_insert`) and appends the node; no other file changes |
| SklParser.Skl.Header | src/parsers/skl.rs:29-46 | `header` returns SklHeader at the cursor and leaves the cursor 92 bytes on |
| SklParser.Skl.GetConnections | src/parsers/skl.rs:67-81 | `get_connections` returns Connections, and on success the cursor is back where it was |
| SklParser.Skl.Field | src/parsers/skl.rs:48-65 | `field` returns SklNode at the cursor and moves the cursor exactly 64 bytes, the stride `run` counts nodes by, wherever the connection array lies |
| SklParser.Skl.NextNode | src/parsers/skl.rs:96-99 | one pass of the node loop: the node is read and appended after the nodes read so far |
| SklParser.Skl.ReadNodes | src/parsers/skl.rs:94-99 | the node loop reads n nodes from skill_tree_offset and appends them, in order, under the name |
| SklParser.Skl.RunEntry | src/parsers/skl.rs:87-99 | one directory entry: it succeeds exactly when the file decodes, and then its nodes are appended under its name |
| SklParser.Skl.NextEntry | src/parsers/skl.rs:86-100 | one pass of the directory loop is one more step of SklRun; a failure is the failure of the whole run |
| SklParser.Skl.Run | src/parsers/skl.rs:83-107 | `run` leaves exactly the collection SklRun gives for the directory, or fails with its error |
| LegacyStl.LegacyPoolRefAgrees | src/stl.rs:45-48 | reading the offset and length first and adding 16 afterwards succeeds exactly when the current order does, with the same string |
| LegacyStl.LegacyRecordAgrees | src/stl.rs:43-58 | the earlier `info` succeeds exactly when the current one does, with the same pair |
| LegacyStl.LegacyErrorOrder | src/stl.rs:45-47 | the two decoders can fail differently: on a 12-byte record whose key offset overflows, the current one reports Overflow and the earlier one UnexpectedEof |
| LegacyStl.LegacyFileAgrees | src/stl.rs:72-77 | a file gives the same map under both decoders, or fails under both |
| LegacyStl.LegacyRunAgrees | src/stl.rs:65-78 | a run over a directory gives the same collection under both decoders, or fails under both |
| LegacyStl.ReadLegacyPoolRef | src/stl.rs:45-48 | the earlier reading of a pool reference at the cursor: LegacyPoolRef, which fails when the 8 bytes are not readable or raw + 0x10 overflows and is otherwise the pool string (empty for length 0, wherever it points); on success the cursor is 8 bytes on |
| LegacyStl.Info | src/stl.rs:43-58 | the earlier `info` returns LegacyStlRecord at the cursor and moves the cursor exactly 40 bytes |
| LegacyStl.ReadRecord | src/stl.rs:75 | `info` on record k extends the first k records by one, or ends the record loop with its error |
| LegacyStl.NextRecord | src/stl.rs:74-77 | one pass of the record loop: the record is read and inserted stripped into the file's map |
| LegacyStl.ReadRecords | src/stl.rs:73-77 | the record loop reads n records and leaves the map of their stripped pairs under the name; no other file changes |
| LegacyStl.RunEntry | src/stl.rs:66-77 | one directory entry: the name gets an empty map, then on success exactly the file's map |
| LegacyStl.NextEntry | src/stl.rs:65-78 | one pass of the directory loop is one more step of the run from an empty collection |
| LegacyStl.Fill | src/stl.rs:65-78 | the directory loop leaves exactly the collection the run gives, or fails with its error |
| LegacyStl.Run | src/stl.rs:60-87 | `run` starts from an empty collection and yields exactly the collection StlRun gives from it; a failing file ends the run with no collection |

## Left out

- The JSON output at the end of every `run` is not modelled: `serde_json::to_string_pretty`, `File::create` and the write, and the `println!` calls in `src/stl.rs`. `Run` leaves the collection in `files`; `LegacyStl.Run` returns it.
- LegacyStl.Run: returns the collection it built, where the source serializes it to `string_list.json` and returns `()`.
- The directory walk and file opening are inputs, not operations. `fs::read_dir`, the per-entry `file?`, `File::open` and the file-name `to_str().unwrap()` become a sequence of entries, each a name and the file's bytes. Their failures, non-UTF-8 file names and the order `read_dir` yields are not modelled; the sequence gives the order.
- The bodies of `utils::go_to` and `utils::read_f32` are not among the files modelled. `GoTo` assumes `go_to` is an absolute seek that cannot fail, which is how the AFF and SKL decoders use it. `ReadU32` stands in for `read_f32`: x and y are kept as their 32 bits, and floating point is not modelled.
- Integer overflow: `raw + 0x10` on u32 is modelled as it behaves in a debug build, a failure (`Overflow`) that ends the run. The wrap-around of a release build is not modelled.
- `String::from_utf8(..).unwrap()` panics on malformed bytes; this is modelled as the failure `InvalidUtf8` that ends the run. UTF-8 well-formedness is written out after section 3 of RFC 3629.
- StlParser.Stl.Run: says nothing about `files` after a failure, where the source leaves the files decoded before the failing one and part of the failing one.
- AffParser.Aff.Run: says nothing about `files` after a failure, which the source leaves partly filled.
- SklParser.Skl.Run: says nothing about `files` after a failure, which the source leaves partly filled.
- LegacyStl.Fill: says nothing about the collection after a failure; `run` drops it in both the source and the model.
- SklParser.Skl.GetConnections: says nothing about the cursor after a failure. The source does not restore it then either, and the failure ends the run.
- The cursor after a failed `header`, `info` or `field` is not stated; the `Utils` members state it for `read_exact`, `padding` and `read_offset`. A short `read_exact` is taken to consume the file up to its end.
- The loop bodies of each `run` are factored into helper methods: `RunEntry`, `ReadRecords`, `NextRecord`, `ReadRecord`, `NextEntry`, `SkipPadding` and `Fill`. Each performs exactly the statements of the source loop it names. The source has no such functions.
- `HashMap` iteration order is not modelled: the collections are Dafny maps.
- `data_view`, `tab_title`, the GUI (`src/app.rs`), the dispatch in `src/main.rs` and the trait declarations in `src/parsers/mod.rs` are not part of this model.
- `u64`/`usize` conversions of offsets and lengths are exact here: every value is at most 2^32 + 15, so none of them can overflow.
