/** The key-value datastore the counter persists to, reduced to the three
    calls the counter makes: Has, Get and Put. Each call may fail for reasons
    outside the model (I/O, a lost connection); the failure is chosen
    nondeterministically, and a failing call changes nothing. */
module KVStore {
  import opened Base

  /** A datastore key (go-datastore's `Key` is a string path). */
  type Key = string

  datatype StoreError =
    | ErrNotFound   // Get of an absent key
    | HasFailed
    | GetFailed
    | PutFailed

  class Datastore {
    /** The persisted contents: key to stored bytes. */
    var data: map<Key, seq<byte>>

    constructor (initial: map<Key, seq<byte>>)
      ensures data == initial
    {
      data := initial;
    }

    /** Whether `key` is present; on failure `has` is false. */
    method Has(key: Key) returns (has: bool, err: Option<StoreError>)
      ensures err.None? ==> has == (key in data)
      ensures err.Some? ==> err == Some(HasFailed) && !has
    {
      var fails: bool :| true;
      if fails {
        has, err := false, Some(HasFailed);
      } else {
        has, err := key in data, None;
      }
    }

    /** The bytes stored at `key`; an absent key is ErrNotFound. */
    method Get(key: Key) returns (value: seq<byte>, err: Option<StoreError>)
      ensures err.None? ==> key in data && value == data[key]
      ensures err.Some? ==> value == [] && (err == Some(GetFailed) || err == Some(ErrNotFound))
      ensures err == Some(ErrNotFound) <==> key !in data
    {
      var fails: bool :| true;
      if key !in data {
        value, err := [], Some(ErrNotFound);
      } else if fails {
        value, err := [], Some(GetFailed);
      } else {
        value, err := data[key], None;
      }
    }

    /** Overwrites the bytes at `key`; every other key keeps its bytes. */
    method Put(key: Key, value: seq<byte>) returns (err: Option<StoreError>)
      modifies this
      ensures err.None? ==> data == old(data)[key := value]
      ensures err.Some? ==> err == Some(PutFailed) && data == old(data)
    {
      var fails: bool :| true;
      if fails {
        err := Some(PutFailed);
      } else {
        data := data[key := value];
        err := None;
      }
    }
  }
}
