/**
 * The bytes behind the file records: objects on disk under
 * `FILE_BASE_PATH + file_id`, written through a gzip sink by the current
 * handlers (uncompressed by the earlier ones), and read back by the
 * download generator `iter_file` in 4096-byte pieces.
 */
module Storage {
  import opened Common

  /** The size `iter_file` asks `read` for. */
  const CHUNK_SIZE: nat := 4096

  /**
   * gzip is an opaque, invertible transform here: a fixed member header
   * followed by the payload. What the model relies on is the round trip
   * and that a gzip object is never empty (a real one holds at least a
   * 10-byte header and an 8-byte trailer), so its size is always truthy.
   */
  const GZIP_HEADER: seq<byte> := [0x1f, 0x8b, 8, 0, 0, 0, 0, 0, 0, 0xff]

  function Compress(data: seq<byte>): (c: seq<byte>)
    ensures |c| > 0
  {
    GZIP_HEADER + data
  }

  /**
   * Reading a gzip object back; `None` is the `BadGzipFile` error a read of
   * a non-gzip object raises. Only compressed payloads decompress, so the
   * transform is a bijection onto its image.
   */
  function Decompress(c: seq<byte>): (r: Option<seq<byte>>)
    ensures r.Some? ==> Compress(r.value) == c
    ensures c == [] ==> r.None?
  {
    if |c| >= |GZIP_HEADER| && c[..|GZIP_HEADER|] == GZIP_HEADER then
      assert c == c[..|GZIP_HEADER|] + c[|GZIP_HEADER|..];
      Some(c[|GZIP_HEADER|..])
    else None
  }

  /** Decompressing what was compressed gives the payload back. */
  lemma DecompressCompress(data: seq<byte>)
    ensures Decompress(Compress(data)) == Some(data)
  {
    assert Compress(data)[..|GZIP_HEADER|] == GZIP_HEADER;
    assert Compress(data)[|GZIP_HEADER|..] == data;
  }

  /** `FILE_BASE_PATH + file.id`: one path per file id. */
  datatype Path = Path(base: string, fileId: FileId)

  function StoragePath(base: string, id: FileId): (p: Path)
    ensures p.fileId == id
  {
    Path(base, id)
  }

  /** What `file_like.read(size=4096)` returns at offset `pos` of the decompressed stream. */
  function Read(content: seq<byte>, pos: nat): (chunk: seq<byte>)
    requires pos <= |content|
    ensures |chunk| <= CHUNK_SIZE
    ensures chunk == [] <==> pos == |content|
    ensures |chunk| < CHUNK_SIZE ==> pos + |chunk| == |content|
    ensures pos + |chunk| <= |content| && chunk == content[pos..pos + |chunk|]
  {
    if |content| - pos <= CHUNK_SIZE then content[pos..] else content[pos..pos + CHUNK_SIZE]
  }

  /**
   * The `while True` loop of `iter_file`: read 4096 bytes until a read
   * comes back empty, yielding every non-empty piece. The pieces are
   * non-empty, at most 4096 bytes, full except for the last one, and
   * concatenate to the content.
   */
  method IterFile(content: seq<byte>) returns (chunks: seq<seq<byte>>)
    ensures Concat(chunks) == content
    ensures forall i :: 0 <= i < |chunks| ==> 0 < |chunks[i]| <= CHUNK_SIZE
    ensures forall i :: 0 <= i < |chunks| - 1 ==> |chunks[i]| == CHUNK_SIZE
  {
    chunks := [];
    var pos := 0;
    while true
      invariant pos <= |content|
      invariant Concat(chunks) == content[..pos]
      invariant forall i :: 0 <= i < |chunks| ==> 0 < |chunks[i]| <= CHUNK_SIZE
      invariant forall i :: 0 <= i < |chunks| - 1 ==> |chunks[i]| == CHUNK_SIZE
      invariant chunks != [] && |chunks[|chunks| - 1]| < CHUNK_SIZE ==> pos == |content|
      decreases |content| - pos
    {
      var chunk := Read(content, pos);
      if chunk == [] {
        break;
      }
      ConcatAppend(chunks, chunk);
      assert content[..pos + |chunk|] == content[..pos] + chunk;
      chunks := chunks + [chunk];
      pos := pos + |chunk|;
    }
    assert content[..pos] == content;
  }

  /** The file system the handlers write to: one byte object per path. */
  class Disk {
    var objects: map<Path, seq<byte>>

    constructor ()
      ensures objects == map[]
    {
      objects := map[];
    }

    /** `shutil.copyfileobj(src, gzip.open(p, "wb"))`: replaces the object with the compressed payload. */
    method WriteCompressed(p: Path, data: seq<byte>)
      modifies this
      ensures objects == old(objects)[p := Compress(data)]
    {
      objects := objects[p := Compress(data)];
    }

    /**
     * `gzip.open(p, "wb")` followed by one `write` per request chunk, in
     * arrival order: the object ends as the compression of the chunks'
     * concatenation.
     */
    method WriteCompressedChunks(p: Path, chunks: seq<seq<byte>>)
      modifies this
      ensures objects == old(objects)[p := Compress(Concat(chunks))]
    {
      var written: seq<byte> := [];
      objects := objects[p := Compress(written)];
      var i := 0;
      while i < |chunks|
        invariant i <= |chunks|
        invariant written == Concat(chunks[..i])
        invariant objects == old(objects)[p := Compress(written)]
      {
        ConcatAppend(chunks[..i], chunks[i]);
        assert chunks[..i + 1] == chunks[..i] + [chunks[i]];
        written := written + chunks[i];
        objects := objects[p := Compress(written)];
        i := i + 1;
      }
      assert chunks[..i] == chunks;
    }

    /** `open(p, "wb")` and `for line in source_file: target_file.write(line)`, uncompressed. */
    method WriteLines(p: Path, lines: seq<seq<byte>>)
      modifies this
      ensures objects == old(objects)[p := Concat(lines)]
    {
      objects := objects[p := []];
      var i := 0;
      while i < |lines|
        invariant i <= |lines|
        invariant objects == old(objects)[p := Concat(lines[..i])]
      {
        ConcatAppend(lines[..i], lines[i]);
        assert lines[..i + 1] == lines[..i] + [lines[i]];
        objects := objects[p := objects[p] + lines[i]];
        i := i + 1;
      }
      assert lines[..i] == lines;
    }

    /** `os.remove(p)`: `false` is the `FileNotFoundError` for a missing object. */
    method Remove(p: Path) returns (removed: bool)
      modifies this
      ensures removed == (p in old(objects))
      ensures objects == old(objects) - {p}
    {
      removed := p in objects;
      objects := objects - {p};
    }
  }
}
