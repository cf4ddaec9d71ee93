/**
 * Storage naming of src/utils/upload.ts: a generated file name that keeps
 * the original extension, the `audio/` key prefix, the stored content type,
 * and the public URL derived from a key. `Date.now()` and the base-36 text of
 * `Math.random()` are the parameters `timestamp` and `random`.
 */
module Upload {
  import opened Wrappers
  import opened Bytes
  import opened Strings
  import opened ObjectStore

  /** The parts of a browser `File` the upload code reads. */
  datatype File = File(name: string, fileType: string, size: int, body: seq<Byte>)

  /** The last piece of a split: no separator in it, and unless it is the whole string, a separator precedes it. */
  lemma {:induction false} SplitLast(s: string, sep: char)
    ensures var parts := Split(s, sep); var last := parts[|parts| - 1];
      && sep !in last
      && |last| <= |s| && s[|s| - |last|..] == last
      && (|parts| == 1 ==> last == s)
      && (|parts| > 1 ==> |last| < |s| && s[|s| - |last| - 1] == sep)
    decreases |s|
  {
    if |s| > 0 {
      var rest := Split(s[1..], sep);
      SplitLast(s[1..], sep);
      var parts := Split(s, sep);
      if s[0] == sep {
        assert parts == [""] + rest;
      } else {
        assert parts == [[s[0]] + rest[0]] + rest[1..];
      }
    }
  }

  /** `originalName.split(".").pop() || "webm"`. */
  function Extension(originalName: string): (ext: string)
    ensures ext != "" && '.' !in ext
    ensures '.' !in originalName ==> ext == if originalName == "" then "webm" else originalName
    ensures '.' in originalName ==>
      exists i :: 0 <= i < |originalName| && originalName[i] == '.' && '.' !in originalName[i + 1..] &&
        ext == if i + 1 == |originalName| then "webm" else originalName[i + 1..]
  {
    var parts := Split(originalName, '.');
    var last := parts[|parts| - 1];
    SplitLast(originalName, '.');
    assert '.' !in originalName ==> parts == [originalName] by {
      if '.' !in originalName { SplitNoSep(originalName, '.'); }
    }
    var i := |originalName| - |last| - 1;
    assert '.' in originalName ==> 0 <= i && originalName[i] == '.' && originalName[i + 1..] == last;
    if last == "" then "webm" else last
  }

  /** `generateFileName(originalName)`: `${timestamp}-${random}.${ext}`. */
  function GenerateFileName(originalName: string, timestamp: string, random: string): (name: string)
    ensures StartsWith(name, timestamp + "-" + random + ".")
    ensures |name| == |timestamp| + |random| + 2 + |Extension(originalName)|
    ensures name[|name| - |Extension(originalName)|..] == Extension(originalName)
  {
    timestamp + "-" + random + "." + Extension(originalName)
  }

  /** A generated name carries the extension of the original name. */
  lemma GeneratedNameKeepsExtension(originalName: string, timestamp: string, random: string)
    ensures Extension(GenerateFileName(originalName, timestamp, random)) == Extension(originalName)
  {
    var ext := Extension(originalName);
    var head := timestamp + "-" + random;
    var name := GenerateFileName(originalName, timestamp, random);
    assert name == head + ['.'] + ext;
    assert name[|head|] == '.';
    var r := Extension(name);
    var i :| 0 <= i < |name| && name[i] == '.' && '.' !in name[i + 1..]
      && r == if i + 1 == |name| then "webm" else name[i + 1..];
    assert name[|head| + 1..] == ext;
  }

  /** `file.type || "audio/webm"`. */
  function ContentType(fileType: string): (t: string)
    ensures t != ""
    ensures fileType != "" ==> t == fileType
    ensures fileType == "" ==> t == "audio/webm"
  {
    if fileType == "" then "audio/webm" else fileType
  }

  const AudioPrefix := "audio/"

  /** `getR2PublicUrl(key)`: `/audio/` followed by the key with its first `audio/` removed. */
  function GetR2PublicUrl(key: string): (url: string)
    ensures StartsWith(key, AudioPrefix) ==> url == "/audio/" + key[|AudioPrefix|..]
  {
    "/audio/" + RemoveFirst(key, AudioPrefix)
  }

  /** The URL of a key `uploadAudioToR2` returns is `/audio/` and the file name, even when the name itself starts with `audio/`. */
  lemma PublicUrlOfUploadKey(fileName: string)
    ensures GetR2PublicUrl(AudioPrefix + fileName) == "/audio/" + fileName
  {
    assert (AudioPrefix + fileName)[..|AudioPrefix|] == AudioPrefix;
    assert (AudioPrefix + fileName)[|AudioPrefix|..] == fileName;
  }

  /** `uploadAudioToR2(bucket, file)`: stores the body under `audio/<generated name>` and returns that key. */
  method UploadAudioToR2(bucket: Bucket, file: File, timestamp: string, random: string) returns (key: string)
    modifies bucket
    ensures key == AudioPrefix + GenerateFileName(file.name, timestamp, random)
    ensures bucket.objects == old(bucket.objects)[key := StoredObject(file.body, Some(ContentType(file.fileType)))]
  {
    var fileName := GenerateFileName(file.name, timestamp, random);
    key := AudioPrefix + fileName;
    bucket.Put(key, StoredObject(file.body, Some(ContentType(file.fileType))));
  }

  /** `deleteAudioFromR2(bucket, key)`. */
  method DeleteAudioFromR2(bucket: Bucket, key: string)
    modifies bucket
    ensures bucket.objects == old(bucket.objects) - {key}
  {
    bucket.Delete(key);
  }
}
