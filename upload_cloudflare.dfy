/**
 * The Remix-side upload of app/utils/upload.server.cloudflare.ts: the
 * multipart part handler that gathers a stream's chunks into one buffer,
 * the `audio` form field check and the `<uuid>.webm` object it writes,
 * and the read-back that answers 404 for a missing object.
 * `crypto.randomUUID()` is the parameter `id`.
 */
module UploadCloudflare {
  import opened Wrappers
  import opened Bytes
  import opened ObjectStore

  /** `chunks.reduce((acc, chunk) => acc + chunk.length, 0)`. */
  function TotalLength(chunks: seq<seq<Byte>>): nat
  {
    if chunks == [] then 0 else TotalLength(chunks[..|chunks| - 1]) + |chunks[|chunks| - 1]|
  }

  /** The chunks laid end to end. */
  function Concat(chunks: seq<seq<Byte>>): (flat: seq<Byte>)
    ensures |flat| == TotalLength(chunks)
  {
    if chunks == [] then [] else Concat(chunks[..|chunks| - 1]) + chunks[|chunks| - 1]
  }

  /** Every chunk of the stream lands in the buffer, in order, at the offset of the chunks before it. */
  lemma {:induction false} ConcatPlacesChunks(chunks: seq<seq<Byte>>, i: nat, j: nat)
    requires i < |chunks| && j < |chunks[i]|
    ensures TotalLength(chunks[..i]) + j < TotalLength(chunks)
    ensures Concat(chunks)[TotalLength(chunks[..i]) + j] == chunks[i][j]
    decreases |chunks|
  {
    var n := |chunks| - 1;
    assert chunks[..n] + [chunks[n]] == chunks;
    if i < n {
      assert chunks[..n][..i] == chunks[..i];
      ConcatPlacesChunks(chunks[..n], i, j);
    } else {
      assert chunks[..i] == chunks[..n];
    }
  }

  lemma {:induction false} TotalLengthPrefix(chunks: seq<seq<Byte>>, i: nat)
    requires i <= |chunks|
    ensures TotalLength(chunks[..i]) <= TotalLength(chunks)
    decreases |chunks|
  {
    if i < |chunks| {
      var n := |chunks| - 1;
      assert chunks[..n][..i] == chunks[..i];
      TotalLengthPrefix(chunks[..n], i);
    } else {
      assert chunks[..i] == chunks;
    }
  }

  /** `buffer.set(chunk, offset)`: the chunk overwrites the buffer from `offset` on. */
  method CopyAt(buffer: array<Byte>, offset: nat, chunk: seq<Byte>)
    requires offset + |chunk| <= buffer.Length
    modifies buffer
    ensures buffer[..offset] == old(buffer[..offset])
    ensures buffer[offset..offset + |chunk|] == chunk
  {
    forall j | 0 <= j < |chunk| {
      buffer[offset + j] := chunk[j];
    }
  }

  /**
   * `uploadHandler`: pushes each chunk of the stream, allocates a buffer of
   * the summed length, and copies each chunk in at the running offset.
   */
  method UploadHandler(data: seq<seq<Byte>>) returns (buffer: array<Byte>)
    ensures buffer.Length == TotalLength(data)
    ensures buffer[..] == Concat(data)
  {
    var chunks: seq<seq<Byte>> := [];
    for k := 0 to |data|
      invariant chunks == data[..k]
    {
      chunks := chunks + [data[k]];
    }
    assert chunks == data;
    buffer := new Byte[TotalLength(chunks)];
    var offset := 0;
    for i := 0 to |chunks|
      invariant offset == TotalLength(chunks[..i]) <= buffer.Length
      invariant buffer[..offset] == Concat(chunks[..i])
    {
      var chunk := chunks[i];
      assert chunks[..i + 1][..i] == chunks[..i];
      TotalLengthPrefix(chunks, i + 1);
      CopyAt(buffer, offset, chunk);
      assert buffer[..offset + |chunk|] == buffer[..offset] + buffer[offset..offset + |chunk|];
      offset := offset + |chunk|;
    }
    assert chunks[..|chunks|] == chunks;
    assert buffer[..] == buffer[..offset];
  }

  /** What `formData.get("audio")` yields: a file part or a plain text field. */
  datatype FormValue = FilePart(body: seq<Byte>) | TextField(text: string)

  datatype UploadError = NoAudioFileUploaded

  const AudioExtension := ".webm"

  /**
   * `uploadAudioFile`: a missing or textual `audio` field throws and stores
   * nothing; otherwise the part is stored under `<id>.webm` and
   * `/audio/<id>.webm` is returned.
   */
  method UploadAudioFile(audio: Option<FormValue>, id: string, bucket: Bucket) returns (r: Result<string, UploadError>)
    modifies bucket
    ensures r.Failure? <==> audio.None? || audio.value.TextField?
    ensures r.Failure? ==> bucket.objects == old(bucket.objects)
    ensures r.Success? ==> r.value == "/audio/" + id + AudioExtension
    ensures r.Success? ==>
      bucket.objects == old(bucket.objects)[id + AudioExtension := StoredObject(audio.value.body, None)]
  {
    if audio.None? || audio.value.TextField? {
      return Failure(NoAudioFileUploaded);
    }
    var fileName := id + AudioExtension;
    bucket.Put(fileName, StoredObject(audio.value.body, None));
    r := Success("/audio/" + fileName);
  }

  datatype AudioResponse = NotFound | Found(body: seq<Byte>, contentType: Option<string>)

  /** `getAudioFile`: 404 "Not found" when the key is absent, otherwise the object's body and metadata. */
  method GetAudioFile(fileName: string, bucket: Bucket) returns (resp: AudioResponse)
    ensures resp.NotFound? <==> fileName !in bucket.objects
    ensures resp.Found? ==> resp == Found(bucket.objects[fileName].body, bucket.objects[fileName].contentType)
  {
    var obj := bucket.Get(fileName);
    if obj.None? {
      return NotFound;
    }
    resp := Found(obj.value.body, obj.value.contentType);
  }
}
