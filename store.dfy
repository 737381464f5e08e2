/**
 * The object-store interface shared by every backend, and its error
 * taxonomy. `ObjectStore` stands for the `Store` trait over an abstract
 * medium: a map from key to bytes, plus per-key faults so that a read or a
 * write of a chosen key fails with a chosen error.
 */
module StoreInterface {
  import opened Wrappers
  import opened Bytes

  datatype IoErrorKind = NotFound | OtherKind(name: string)
  datatype IoError = IoError(kind: IoErrorKind, message: string)
  datatype ReqwestError = ReqwestError(message: string)
  datatype S3Error = S3Error(message: string)

  /** One variant per backend; the cache passes them on unchanged. */
  datatype StoreError = Io(io: IoError) | Reqwest(reqwest: ReqwestError) | R2(s3: S3Error)

  /** What `get_object` answers for `key` on a medium holding `objects`. */
  function Lookup(objects: map<string, seq<uint8>>, getFaults: map<string, StoreError>, key: string)
    : (r: Result<Option<seq<uint8>>, StoreError>)
    ensures r.Err? <==> key in getFaults
    ensures r == Ok(None) <==> key !in getFaults && key !in objects
  {
    if key in getFaults then Err(getFaults[key])
    else if key in objects then Ok(Some(objects[key]))
    else Ok(None)
  }

  /** The medium after `put_object(key, content)`: an upsert, or no change when the write fails. */
  function Put(objects: map<string, seq<uint8>>, putFaults: map<string, StoreError>, key: string, content: seq<uint8>)
    : (m: map<string, seq<uint8>>)
    ensures key !in putFaults ==> key in m && m[key] == content
  {
    if key in putFaults then objects else objects[key := content]
  }

  /** A failed put changes nothing; any put leaves every other key's presence and value as they were. */
  lemma PutLeavesOthers(objects: map<string, seq<uint8>>, putFaults: map<string, StoreError>,
                        key: string, content: seq<uint8>, other: string)
    ensures key in putFaults ==> Put(objects, putFaults, key, content) == objects
    ensures var m := Put(objects, putFaults, key, content);
      other != key ==> (other in m <==> other in objects) && (other in m ==> m[other] == objects[other])
  {
  }

  class ObjectStore {
    var objects: map<string, seq<uint8>>
    const getFaults: map<string, StoreError>
    const putFaults: map<string, StoreError>

    constructor (objects: map<string, seq<uint8>>, getFaults: map<string, StoreError>, putFaults: map<string, StoreError>)
      ensures this.objects == objects && this.getFaults == getFaults && this.putFaults == putFaults
    {
      this.objects := objects;
      this.getFaults := getFaults;
      this.putFaults := putFaults;
    }

    /** Reads never change the medium; absence is `Ok(None)`, not an error. */
    method GetObject(key: string) returns (r: Result<Option<seq<uint8>>, StoreError>)
      ensures r == Lookup(objects, getFaults, key)
      ensures key !in getFaults ==> r == Ok(if key in objects then Some(objects[key]) else None)
    {
      r := Lookup(objects, getFaults, key);
    }

    /** An unconditional upsert of `key`; a failed write leaves the medium as it was. */
    method PutObject(key: string, content: seq<uint8>) returns (r: Result<(), StoreError>)
      modifies this
      ensures r == (if key in putFaults then Err(putFaults[key]) else Ok(()))
      ensures objects == Put(old(objects), putFaults, key, content)
    {
      if key in putFaults {
        r := Err(putFaults[key]);
      } else {
        objects := objects[key := content];
        r := Ok(());
      }
    }
  }
}
