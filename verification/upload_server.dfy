/** The chunked-upload server of backend/server.py as three atomic
    transitions over four stores:
    - `memory`: the module-level registry, loaded from metadata.json once at
      start-up and afterwards written only by the metadata handler;
    - `disk`: the registry in metadata.json, which the chunk and completion
      handlers re-read into a local variable and write back;
    - `chunks`: uploads/chunks, one entry per (file id, chunk index);
    - `files`: the merged files in uploads/, by file name. */
module UploadServer {
  import opened Wrappers
  import ChunkNames
  import ActionCodec

  newtype byte = b: int | 0 <= b < 256

  type Bytes = seq<byte>

  /** One metadata entry: `file_name`, `total_chunks`, `uploaded_chunks`. */
  datatype FileRecord = FileRecord(fileName: string, totalChunks: int, uploadedChunks: seq<int>)

  type Registry = map<string, FileRecord>

  /** The chunk file "{fileId}_chunk_{index}", as the pair it is built from. */
  datatype ChunkKey = ChunkKey(fileId: string, index: int)

  /** The file name a chunk key stands for. */
  function ChunkPath(k: ChunkKey): string
  {
    ChunkNames.ChunkFileName(k.fileId, k.index)
  }

  /** Distinct keys name distinct chunk files, so a map keyed by the pair
      is a faithful chunk directory. */
  lemma ChunkPathsDistinct(k1: ChunkKey, k2: ChunkKey)
    requires k1 != k2
    ensures ChunkPath(k1) != ChunkPath(k2)
  {
    if ChunkPath(k1) == ChunkPath(k2) {
      ChunkNames.ChunkFileNameInjective(k1.fileId, k1.index, k2.fileId, k2.index);
    }
  }

  datatype Store = Store(
    memory: Registry,
    disk: Registry,
    chunks: map<ChunkKey, Bytes>,
    files: map<string, Bytes>)

  /** The JSON body of POST /upload/metadata; a field is `None` when absent. */
  datatype MetadataRequest = MetadataRequest(
    fileId: Option<string>,
    fileName: Option<string>,
    totalChunks: Option<int>)

  /** The form of POST /upload/chunk. `totalChunks` is the form value, or 0
      when the form has none. */
  datatype ChunkRequest = ChunkRequest(
    fileId: Option<string>,
    chunkIndex: Option<int>,
    chunk: Option<Bytes>,
    totalChunks: int)

  datatype Response =
    | MetadataReceived(fileId: string)
    | InvalidMetadata
    | MissingChunkData
    | ChunkUploaded(chunkIndex: int)
    | FileIdNotFound
    | MissingSomeChunks(missing: set<int>)
    | MissingChunkFile(chunk: int)
    | UploadComplete(fileName: string)

  datatype Reply = Reply(store: Store, response: Response)

  /** A Python string is falsy when absent or empty. */
  predicate Present(s: Option<string>)
  {
    s.Some? && s.value != ""
  }

  // ---------------------------------------------------------------------
  // Start-up

  /** Module load: the in-process registry starts as a copy of
      metadata.json (an absent or blank file reads as the empty registry). */
  function Startup(disk: Registry, chunks: map<ChunkKey, Bytes>, files: map<string, Bytes>): (s: Store)
    ensures s.memory == s.disk == disk
    ensures s.chunks == chunks && s.files == files
  {
    Store(disk, disk, chunks, files)
  }

  // ---------------------------------------------------------------------
  // POST /upload/metadata

  /** Registers a file in the in-process registry and writes the WHOLE
      in-process registry to metadata.json. A zero total is accepted; only
      an absent total is refused. */
  function UploadMetadata(s: Store, req: MetadataRequest): (r: Reply)
    ensures r.response == InvalidMetadata <==>
      !Present(req.fileId) || !Present(req.fileName) || req.totalChunks.None?
    ensures r.response == InvalidMetadata ==> r.store == s
    ensures r.response != InvalidMetadata ==>
      && r.response == MetadataReceived(req.fileId.value)
      && r.store.memory.Keys == s.memory.Keys + {req.fileId.value}
      && r.store.memory[req.fileId.value]
         == FileRecord(req.fileName.value, req.totalChunks.value, [])
      && (forall id :: id in s.memory && id != req.fileId.value ==>
            r.store.memory[id] == s.memory[id])
      && r.store.disk == r.store.memory
      && r.store.chunks == s.chunks && r.store.files == s.files
  {
    if !Present(req.fileId) || !Present(req.fileName) || req.totalChunks.None? then
      Reply(s, InvalidMetadata)
    else
      var id := req.fileId.value;
      var memory := s.memory[id := FileRecord(req.fileName.value, req.totalChunks.value, [])];
      Reply(s.(memory := memory, disk := memory), MetadataReceived(id))
  }

  // ---------------------------------------------------------------------
  // POST /upload/chunk

  /** `chunk_index` appended unless already recorded. */
  function RecordIndex(uploaded: seq<int>, index: int): (r: seq<int>)
    ensures index in r
    ensures forall i :: i in r <==> i in uploaded || i == index
    ensures index in uploaded ==> r == uploaded
    ensures index !in uploaded ==> |r| == |uploaded| + 1 && r[..|uploaded|] == uploaded
  {
    if index in uploaded then uploaded else uploaded + [index]
  }

  /** Saves the chunk, then updates the record of `fileId` in
      metadata.json: a missing record is created with the id as its name
      and a total of 0, the index is recorded once, and the total is
      replaced only by a positive form value. The in-process registry is
      neither read nor written. */
  function UploadChunk(s: Store, req: ChunkRequest): (r: Reply)
    ensures r.response == MissingChunkData <==>
      !Present(req.fileId) || req.chunkIndex.None? || req.chunk.None?
    ensures r.response == MissingChunkData ==> r.store == s
    ensures r.response != MissingChunkData ==>
      var id := req.fileId.value;
      var index := req.chunkIndex.value;
      var prev := if id in s.disk then s.disk[id] else FileRecord(id, 0, []);
      && r.response == ChunkUploaded(index)
      && r.store.chunks == s.chunks[ChunkKey(id, index) := req.chunk.value]
      && r.store.disk.Keys == s.disk.Keys + {id}
      && r.store.disk[id].fileName == prev.fileName
      && r.store.disk[id].totalChunks
         == (if req.totalChunks > 0 then req.totalChunks else prev.totalChunks)
      && (forall i :: i in r.store.disk[id].uploadedChunks <==> i in prev.uploadedChunks || i == index)
      && (index in prev.uploadedChunks ==> r.store.disk[id].uploadedChunks == prev.uploadedChunks)
      && (index !in prev.uploadedChunks ==> r.store.disk[id].uploadedChunks == prev.uploadedChunks + [index])
      && (forall other :: other in s.disk && other != id ==> r.store.disk[other] == s.disk[other])
      && r.store.memory == s.memory && r.store.files == s.files
  {
    if !Present(req.fileId) || req.chunkIndex.None? || req.chunk.None? then
      Reply(s, MissingChunkData)
    else
      var id := req.fileId.value;
      var index := req.chunkIndex.value;
      var chunks := s.chunks[ChunkKey(id, index) := req.chunk.value];
      var prev := if id in s.disk then s.disk[id] else FileRecord(id, 0, []);
      var uploaded := RecordIndex(prev.uploadedChunks, index);
      var total := if req.totalChunks > 0 then req.totalChunks else prev.totalChunks;
      var disk := s.disk[id := FileRecord(prev.fileName, total, uploaded)];
      Reply(s.(chunks := chunks, disk := disk), ChunkUploaded(index))
  }

  // ---------------------------------------------------------------------
  // POST /upload/complete

  /** `set(range(total)) - set(uploaded)`. */
  function MissingChunks(total: int, uploaded: seq<int>): (m: set<int>)
    ensures forall i :: i in m <==> 0 <= i < total && i !in uploaded
    decreases total
  {
    if total <= 0 then {}
    else MissingChunks(total - 1, uploaded) + (if total - 1 in uploaded then {} else {total - 1})
  }

  /** The first index in [from, total) whose chunk file does not exist. */
  function FirstAbsentChunk(chunks: map<ChunkKey, Bytes>, id: string, from: int, total: int): (r: Option<int>)
    ensures r.Some? ==>
      && from <= r.value < total
      && ChunkKey(id, r.value) !in chunks
      && forall j :: from <= j < r.value ==> ChunkKey(id, j) in chunks
    ensures r.None? ==> forall j :: from <= j < total ==> ChunkKey(id, j) in chunks
    decreases total - from
  {
    if from >= total then None
    else if ChunkKey(id, from) !in chunks then Some(from)
    else FirstAbsentChunk(chunks, id, from + 1, total)
  }

  predicate AllChunksPresent(chunks: map<ChunkKey, Bytes>, id: string, from: int, total: int)
  {
    forall j :: from <= j < total ==> ChunkKey(id, j) in chunks
  }

  /** The chunks from `from` to `total - 1`, concatenated in index order. */
  function MergeChunks(chunks: map<ChunkKey, Bytes>, id: string, from: int, total: int): (m: Bytes)
    requires AllChunksPresent(chunks, id, from, total)
    ensures from >= total ==> m == []
    ensures from < total ==>
      var first := chunks[ChunkKey(id, from)];
      |m| >= |first| && m[..|first|] == first
    decreases total - from
  {
    if from >= total then []
    else chunks[ChunkKey(id, from)] + MergeChunks(chunks, id, from + 1, total)
  }

  /** The chunk store after the merge deleted chunks 0 .. total-1 of `id`. */
  function RemoveChunks(chunks: map<ChunkKey, Bytes>, id: string, total: int): (r: map<ChunkKey, Bytes>)
    ensures forall k :: k in r <==> k in chunks && !(k.fileId == id && 0 <= k.index < total)
    ensures forall k :: k in r ==> r[k] == chunks[k]
  {
    map k | k in chunks && !(k.fileId == id && 0 <= k.index < total) :: chunks[k]
  }

  /** Completes an upload: the record must exist in metadata.json, every
      index below its total must be recorded, and every such chunk file
      must exist; then the chunks are concatenated in index order into the
      file named by the record, deleted, and the record is removed from
      metadata.json. Every refusal leaves all stores as they were. */
  function CompleteUpload(s: Store, fileId: Option<string>): (r: Reply)
    ensures r.response.UploadComplete? || r.store == s
    ensures r.response == FileIdNotFound <==> fileId.None? || fileId.value !in s.disk
    ensures r.response.MissingSomeChunks? ==>
      var rec := s.disk[fileId.value];
      && r.response.missing != {}
      && r.response.missing == MissingChunks(rec.totalChunks, rec.uploadedChunks)
    ensures r.response.MissingChunkFile? ==>
      var rec := s.disk[fileId.value];
      && MissingChunks(rec.totalChunks, rec.uploadedChunks) == {}
      && 0 <= r.response.chunk < rec.totalChunks
      && ChunkKey(fileId.value, r.response.chunk) !in s.chunks
      && AllChunksPresent(s.chunks, fileId.value, 0, r.response.chunk)
    ensures fileId.Some? && fileId.value in s.disk ==>
      var rec := s.disk[fileId.value];
      var missing := MissingChunks(rec.totalChunks, rec.uploadedChunks);
      && (missing != {} ==> r.response == MissingSomeChunks(missing))
      && (missing == {} && !AllChunksPresent(s.chunks, fileId.value, 0, rec.totalChunks) ==>
            r.response.MissingChunkFile?)
      && (missing == {} && AllChunksPresent(s.chunks, fileId.value, 0, rec.totalChunks) ==>
            r.response == UploadComplete(rec.fileName))
    ensures r.response.UploadComplete? ==>
      var id := fileId.value;
      var rec := s.disk[id];
      && MissingChunks(rec.totalChunks, rec.uploadedChunks) == {}
      && AllChunksPresent(s.chunks, id, 0, rec.totalChunks)
      && r.response.fileName == rec.fileName
      && r.store.files == s.files[rec.fileName := MergeChunks(s.chunks, id, 0, rec.totalChunks)]
      && r.store.chunks == RemoveChunks(s.chunks, id, rec.totalChunks)
      && r.store.disk == s.disk - {id}
      && r.store.memory == s.memory
  {
    if fileId.None? || fileId.value !in s.disk then Reply(s, FileIdNotFound)
    else
      var id := fileId.value;
      var rec := s.disk[id];
      var missing := MissingChunks(rec.totalChunks, rec.uploadedChunks);
      if missing != {} then Reply(s, MissingSomeChunks(missing))
      else
        match FirstAbsentChunk(s.chunks, id, 0, rec.totalChunks)
        case Some(i) => Reply(s, MissingChunkFile(i))
        case None =>
          var data := MergeChunks(s.chunks, id, 0, rec.totalChunks);
          var store := Store(
            s.memory,
            s.disk - {id},
            RemoveChunks(s.chunks, id, rec.totalChunks),
            s.files[rec.fileName := data]);
          Reply(store, UploadComplete(rec.fileName))
  }

  // ---------------------------------------------------------------------
  // Uploaded indices stay duplicate-free

  predicate NoDuplicates(xs: seq<int>)
  {
    forall i, j :: 0 <= i < j < |xs| ==> xs[i] != xs[j]
  }

  predicate DuplicateFree(reg: Registry)
  {
    forall id :: id in reg ==> NoDuplicates(reg[id].uploadedChunks)
  }

  predicate Consistent(s: Store)
  {
    DuplicateFree(s.memory) && DuplicateFree(s.disk)
  }

  lemma RecordIndexNoDuplicates(uploaded: seq<int>, index: int)
    requires NoDuplicates(uploaded)
    ensures NoDuplicates(RecordIndex(uploaded, index))
  {
    var r := RecordIndex(uploaded, index);
    if index !in uploaded {
      forall i, j | 0 <= i < j < |r|
        ensures r[i] != r[j]
      {
        if j == |uploaded| {
          assert r[i] == uploaded[i];
        }
      }
    }
  }

  /** No handler ever records an index twice. */
  lemma HandlersKeepDuplicateFree(s: Store, mreq: MetadataRequest, creq: ChunkRequest, fileId: Option<string>)
    requires Consistent(s)
    ensures Consistent(UploadMetadata(s, mreq).store)
    ensures Consistent(UploadChunk(s, creq).store)
    ensures Consistent(CompleteUpload(s, fileId).store)
  {
    MetadataKeepsDuplicateFree(s, mreq);
    ChunkKeepsDuplicateFree(s, creq);
    CompleteKeepsDuplicateFree(s, fileId);
  }

  lemma MetadataKeepsDuplicateFree(s: Store, req: MetadataRequest)
    requires Consistent(s)
    ensures Consistent(UploadMetadata(s, req).store)
  {
  }

  lemma ChunkKeepsDuplicateFree(s: Store, req: ChunkRequest)
    requires Consistent(s)
    ensures Consistent(UploadChunk(s, req).store)
  {
    var r := UploadChunk(s, req);
    if r.response != MissingChunkData {
      var id := req.fileId.value;
      var prev := if id in s.disk then s.disk[id] else FileRecord(id, 0, []);
      RecordIndexNoDuplicates(prev.uploadedChunks, req.chunkIndex.value);
    }
  }

  lemma CompleteKeepsDuplicateFree(s: Store, fileId: Option<string>)
    requires Consistent(s)
    ensures Consistent(CompleteUpload(s, fileId).store)
  {
  }

  /** Sending the same chunk twice leaves every store as after the first
      time. */
  lemma UploadChunkIdempotent(s: Store, req: ChunkRequest)
    ensures UploadChunk(UploadChunk(s, req).store, req) == UploadChunk(s, req)
  {
  }

  // ---------------------------------------------------------------------
  // Completion

  /** Completion succeeds exactly when the record exists, every index below
      its total is recorded, and every one of those chunk files exists. */
  lemma CompleteUploadSucceedsIff(s: Store, id: string)
    ensures CompleteUpload(s, Some(id)).response.UploadComplete? <==>
      && id in s.disk
      && MissingChunks(s.disk[id].totalChunks, s.disk[id].uploadedChunks) == {}
      && AllChunksPresent(s.chunks, id, 0, s.disk[id].totalChunks)
  {
  }

  /** Completion leaves the chunks of other files, and the indices of this
      file outside [0, total), where they were. */
  lemma CompleteUploadKeepsOtherChunks(s: Store, id: string, k: ChunkKey)
    requires CompleteUpload(s, Some(id)).response.UploadComplete?
    requires k in s.chunks
    requires k.fileId != id || k.index < 0 || k.index >= s.disk[id].totalChunks
    ensures k in CompleteUpload(s, Some(id)).store.chunks
    ensures CompleteUpload(s, Some(id)).store.chunks[k] == s.chunks[k]
  {
  }

  /** The merged file ends with the last chunk: chunks are appended in
      ascending index order. */
  lemma {:induction false} MergeAppend(chunks: map<ChunkKey, Bytes>, id: string, from: int, total: int)
    requires from <= total
    requires AllChunksPresent(chunks, id, from, total + 1)
    ensures MergeChunks(chunks, id, from, total + 1)
         == MergeChunks(chunks, id, from, total) + chunks[ChunkKey(id, total)]
    decreases total - from
  {
    if from < total {
      MergeAppend(chunks, id, from + 1, total);
    }
  }

  /** The merge of a range is the merge of its two halves, in order. */
  lemma {:induction false} MergeSplit(chunks: map<ChunkKey, Bytes>, id: string, from: int, mid: int, total: int)
    requires from <= mid <= total
    requires AllChunksPresent(chunks, id, from, total)
    ensures MergeChunks(chunks, id, from, total)
         == MergeChunks(chunks, id, from, mid) + MergeChunks(chunks, id, mid, total)
    decreases mid - from
  {
    if from < mid {
      MergeSplit(chunks, id, from + 1, mid, total);
    }
  }

  lemma {:induction false} MergeLength(chunks: map<ChunkKey, Bytes>, id: string, from: int, total: int, size: nat)
    requires from <= total
    requires AllChunksPresent(chunks, id, from, total)
    requires forall j :: from <= j < total ==> |chunks[ChunkKey(id, j)]| == size
    ensures |MergeChunks(chunks, id, from, total)| == (total - from) * size
    decreases total - from
  {
    if from < total {
      MergeLength(chunks, id, from + 1, total, size);
      ActionCodec.MulSucc(size, total - from - 1);
    }
  }

  /** When every chunk has `size` bytes, chunk j of the merged file is
      exactly bytes [j * size, (j + 1) * size). */
  lemma MergeUniform(chunks: map<ChunkKey, Bytes>, id: string, total: int, size: nat, j: int)
    requires 0 <= j < total
    requires AllChunksPresent(chunks, id, 0, total)
    requires forall i :: 0 <= i < total ==> |chunks[ChunkKey(id, i)]| == size
    ensures |MergeChunks(chunks, id, 0, total)| == total * size
    ensures 0 <= j * size && (j + 1) * size <= total * size
    ensures MergeChunks(chunks, id, 0, total)[j * size .. (j + 1) * size] == chunks[ChunkKey(id, j)]
  {
    var m := MergeChunks(chunks, id, 0, total);
    var before := MergeChunks(chunks, id, 0, j);
    var after := MergeChunks(chunks, id, j, total);
    assert |m| == total * size by {
      MergeLength(chunks, id, 0, total, size);
    }
    assert m == before + after by {
      MergeSplit(chunks, id, 0, j, total);
    }
    assert |before| == j * size by {
      MergeLength(chunks, id, 0, j, size);
    }
    assert |after| >= size && after[..size] == chunks[ChunkKey(id, j)];
    assert (j + 1) * size == j * size + size by {
      ActionCodec.MulSucc(size, j);
    }
    assert m[j * size .. (j + 1) * size] == after[..size];
  }

  // ---------------------------------------------------------------------
  // Scenarios

  const ChunkA: Bytes := [65, 65, 65, 65]
  const ChunkB: Bytes := [66, 66, 66, 66]
  const ChunkC: Bytes := [67, 67, 67, 67]

  function Register(s: Store, id: string, name: string, total: int): Store
  {
    UploadMetadata(s, MetadataRequest(Some(id), Some(name), Some(total))).store
  }

  function Send(s: Store, id: string, index: int, data: Bytes, total: int): Store
  {
    UploadChunk(s, ChunkRequest(Some(id), Some(index), Some(data), total)).store
  }

  /** File "f1" registered with three chunks, then chunks 0 and 2 sent. */
  function TwoOfThree(): Store
  {
    var s1 := Register(Startup(map[], map[], map[]), "f1", "x.bin", 3);
    Send(Send(s1, "f1", 0, ChunkA, 3), "f1", 2, ChunkC, 3)
  }

  lemma TwoOfThreeState()
    ensures TwoOfThree().disk == map["f1" := FileRecord("x.bin", 3, [0, 2])]
    ensures TwoOfThree().chunks == map[ChunkKey("f1", 0) := ChunkA, ChunkKey("f1", 2) := ChunkC]
    ensures Send(TwoOfThree(), "f1", 1, ChunkB, 3).files == map[]
    ensures Send(TwoOfThree(), "f1", 1, ChunkB, 3).disk == map["f1" := FileRecord("x.bin", 3, [0, 2, 1])]
    ensures Send(TwoOfThree(), "f1", 1, ChunkB, 3).chunks
         == map[ChunkKey("f1", 0) := ChunkA, ChunkKey("f1", 2) := ChunkC, ChunkKey("f1", 1) := ChunkB]
  {
    var s1 := Register(Startup(map[], map[], map[]), "f1", "x.bin", 3);
    assert s1.disk == map["f1" := FileRecord("x.bin", 3, [])] && s1.chunks == map[] && s1.files == map[];
    var s2 := Send(s1, "f1", 0, ChunkA, 3);
    assert s2.disk == map["f1" := FileRecord("x.bin", 3, [0])]
        && s2.chunks == map[ChunkKey("f1", 0) := ChunkA] && s2.files == map[] by {
      SendToOnlyRecord(s1, "f1", 0, ChunkA, 3);
      assert RecordIndex([], 0) == [0];
    }
    var s3 := Send(s2, "f1", 2, ChunkC, 3);
    assert s3 == TwoOfThree();
    assert s3.disk == map["f1" := FileRecord("x.bin", 3, [0, 2])]
        && s3.chunks == map[ChunkKey("f1", 0) := ChunkA, ChunkKey("f1", 2) := ChunkC]
        && s3.files == map[] by {
      SendToOnlyRecord(s2, "f1", 2, ChunkC, 3);
      assert 2 !in [0];
      assert RecordIndex([0], 2) == [0, 2];
    }
    assert 1 !in [0, 2];
    assert RecordIndex([0, 2], 1) == [0, 2, 1];
    SendToOnlyRecord(s3, "f1", 1, ChunkB, 3);
  }

  /** A chunk sent with a positive total for the only file in
      metadata.json. */
  lemma SendToOnlyRecord(s: Store, id: string, index: int, data: Bytes, total: int)
    requires id != "" && total > 0
    requires s.disk.Keys == {id}
    ensures Send(s, id, index, data, total).disk
         == map[id := FileRecord(s.disk[id].fileName, total, RecordIndex(s.disk[id].uploadedChunks, index))]
    ensures Send(s, id, index, data, total).chunks == s.chunks[ChunkKey(id, index) := data]
    ensures Send(s, id, index, data, total).files == s.files
  {
  }

  /** Three four-byte chunks: after chunks 0 and 2, completion reports
      exactly {1} missing and changes nothing. */
  lemma ThreeChunkUploadEarly()
    ensures CompleteUpload(TwoOfThree(), Some("f1")) == Reply(TwoOfThree(), MissingSomeChunks({1}))
  {
    TwoOfThreeState();
    CompleteWithGap(TwoOfThree());
  }

  lemma CompleteWithGap(s: Store)
    requires s.disk == map["f1" := FileRecord("x.bin", 3, [0, 2])]
    ensures CompleteUpload(s, Some("f1")) == Reply(s, MissingSomeChunks({1}))
  {
    assert MissingChunks(3, [0, 2]) == {1};
  }

  /** After chunk 1 arrives too, completion writes "AAAABBBBCCCC", deletes
      the three chunk files and the record. */
  lemma ThreeChunkUploadDone()
    ensures
      var done := CompleteUpload(Send(TwoOfThree(), "f1", 1, ChunkB, 3), Some("f1"));
      && done.response == UploadComplete("x.bin")
      && done.store.files == map["x.bin" := ChunkA + ChunkB + ChunkC]
      && done.store.chunks == map[]
      && done.store.disk == map[]
  {
    TwoOfThreeState();
    CompleteThreeChunks(Send(TwoOfThree(), "f1", 1, ChunkB, 3));
  }

  lemma CompleteThreeChunks(s: Store)
    requires s.disk == map["f1" := FileRecord("x.bin", 3, [0, 2, 1])]
    requires s.chunks == map[ChunkKey("f1", 0) := ChunkA, ChunkKey("f1", 2) := ChunkC, ChunkKey("f1", 1) := ChunkB]
    requires s.files == map[]
    ensures
      var done := CompleteUpload(s, Some("f1"));
      && done.response == UploadComplete("x.bin")
      && done.store.files == map["x.bin" := ChunkA + ChunkB + ChunkC]
      && done.store.chunks == map[]
      && done.store.disk == map[]
  {
    var c := s.chunks;
    assert MissingChunks(3, [0, 2, 1]) == {};
    assert ChunkKey("f1", 0) in c && ChunkKey("f1", 1) in c && ChunkKey("f1", 2) in c;
    assert AllChunksPresent(c, "f1", 0, 3);
    assert MergeChunks(c, "f1", 3, 3) == [];
    assert MergeChunks(c, "f1", 2, 3) == ChunkC;
    assert MergeChunks(c, "f1", 1, 3) == ChunkB + ChunkC;
    assert MergeChunks(c, "f1", 0, 3) == ChunkA + ChunkB + ChunkC;
    ThreeChunkRemoved(c);
  }

  lemma ThreeChunkRemoved(c: map<ChunkKey, Bytes>)
    requires c.Keys == {ChunkKey("f1", 0), ChunkKey("f1", 1), ChunkKey("f1", 2)}
    ensures RemoveChunks(c, "f1", 3) == map[]
  {
    assert RemoveChunks(c, "f1", 3).Keys == {};
  }

  /** A chunk sent for an id that has no record creates one named after the
      id with a total of 0 (unless the form carries a positive total).
      Completion then finds nothing missing, writes an empty file named
      after the id, and leaves the chunk itself behind. */
  lemma UnregisteredChunkCompletesEmpty(s: Store, id: string, index: int, data: Bytes)
    requires id != "" && id !in s.disk
    ensures Send(s, id, index, data, 0).disk[id] == FileRecord(id, 0, [index])
    ensures
      var r := CompleteUpload(Send(s, id, index, data, 0), Some(id));
      && r.response == UploadComplete(id)
      && r.store.files[id] == []
      && ChunkKey(id, index) in r.store.chunks
  {
    var s1 := Send(s, id, index, data, 0);
    assert MissingChunks(0, [index]) == {};
  }

  // ---------------------------------------------------------------------
  // The stale in-process registry

  /** Registering a second file copies the in-process registry, which never
      saw the first file's chunk, over metadata.json: the first file's
      recorded upload is lost and its completion, which would have
      succeeded, now reports chunk 0 missing although the chunk is stored. */
  lemma StaleRegistryLosesUpload()
    ensures
      var s1 := Send(Register(Startup(map[], map[], map[]), "a", "a.txt", 1), "a", 0, ChunkA, 1);
      var s2 := Register(s1, "b", "b.txt", 1);
      && CompleteUpload(s1, Some("a")).response == UploadComplete("a.txt")
      && ChunkKey("a", 0) in s2.chunks
      && s2.disk["a"] == FileRecord("a.txt", 1, [])
      && CompleteUpload(s2, Some("a")).response == MissingSomeChunks({0})
  {
    var s1 := Send(Register(Startup(map[], map[], map[]), "a", "a.txt", 1), "a", 0, ChunkA, 1);
    assert s1.disk["a"] == FileRecord("a.txt", 1, [0]);
    assert MissingChunks(1, [0]) == {};
    var s2 := Register(s1, "b", "b.txt", 1);
    assert s2.disk["a"] == FileRecord("a.txt", 1, []);
    assert MissingChunks(1, []) == {0};
  }

  /** The metadata handler as its neighbours are written: re-read
      metadata.json, add the record, write it back. Every other file's
      record is left as it was. */
  function UploadMetadataOnDisk(s: Store, req: MetadataRequest): (r: Reply)
    ensures r.response == InvalidMetadata <==>
      !Present(req.fileId) || !Present(req.fileName) || req.totalChunks.None?
    ensures r.response == InvalidMetadata ==> r.store == s
    ensures r.response != InvalidMetadata ==>
      && r.response == MetadataReceived(req.fileId.value)
      && r.store.disk.Keys == s.disk.Keys + {req.fileId.value}
      && r.store.disk[req.fileId.value] == FileRecord(req.fileName.value, req.totalChunks.value, [])
      && (forall id :: id in s.disk && id != req.fileId.value ==> r.store.disk[id] == s.disk[id])
      && r.store.memory == s.memory && r.store.chunks == s.chunks && r.store.files == s.files
  {
    if !Present(req.fileId) || !Present(req.fileName) || req.totalChunks.None? then
      Reply(s, InvalidMetadata)
    else
      var id := req.fileId.value;
      Reply(s.(disk := s.disk[id := FileRecord(req.fileName.value, req.totalChunks.value, [])]),
            MetadataReceived(id))
  }

  /** With the corrected handler, registering any other file never changes
      how completing a file turns out. */
  lemma RegisterOnDiskKeepsOtherCompletions(s: Store, req: MetadataRequest, id: string)
    requires !Present(req.fileId) || req.fileId.value != id
    ensures CompleteUpload(UploadMetadataOnDisk(s, req).store, Some(id)).response
         == CompleteUpload(s, Some(id)).response
  {
  }

  /** The scenario above, with the corrected handler: the first file still
      completes after the second is registered. */
  lemma RegisterOnDiskKeepsUpload()
    ensures
      var s1 := Send(Register(Startup(map[], map[], map[]), "a", "a.txt", 1), "a", 0, ChunkA, 1);
      var s2 := UploadMetadataOnDisk(s1, MetadataRequest(Some("b"), Some("b.txt"), Some(1))).store;
      CompleteUpload(s2, Some("a")).response == UploadComplete("a.txt")
  {
    var s1 := Send(Register(Startup(map[], map[], map[]), "a", "a.txt", 1), "a", 0, ChunkA, 1);
    assert s1.disk["a"] == FileRecord("a.txt", 1, [0]);
    assert MissingChunks(1, [0]) == {};
    RegisterOnDiskKeepsOtherCompletions(s1, MetadataRequest(Some("b"), Some("b.txt"), Some(1)), "a");
  }
}
