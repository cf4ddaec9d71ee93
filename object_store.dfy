/** The R2 bucket the audio files are written to: a map from object key to body and content type. */
module ObjectStore {
  import opened Wrappers
  import opened Bytes

  datatype StoredObject = StoredObject(body: seq<Byte>, contentType: Option<string>)

  class Bucket {
    var objects: map<string, StoredObject>

    constructor (initial: map<string, StoredObject>)
      ensures objects == initial
    {
      objects := initial;
    }

    /** `bucket.put(key, body, {httpMetadata})`: writes or overwrites that key only. */
    method Put(key: string, obj: StoredObject)
      modifies this
      ensures objects == old(objects)[key := obj]
    {
      objects := objects[key := obj];
    }

    /** `bucket.get(key)`: `null` when there is no such object. */
    method Get(key: string) returns (obj: Option<StoredObject>)
      ensures obj.Some? <==> key in objects
      ensures obj.Some? ==> obj.value == objects[key]
    {
      obj := if key in objects then Some(objects[key]) else None;
    }

    /** `bucket.delete(key)`: removes that key only; a missing key is no error. */
    method Delete(key: string)
      modifies this
      ensures objects == old(objects) - {key}
    {
      objects := objects - {key};
    }
  }
}
