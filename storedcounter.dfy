/** StoredCounter: a uint64 counter whose only state is one key of a
    datastore, holding the value as an unsigned varint. */
module Counter {
  import opened Base
  import opened Varint
  import opened KVStore

  datatype Error =
    | Store(cause: StoreError)                          // passed through from the datastore
    | BelowCurrent(number: uint64, current: uint64)     // Set would move the counter backward

  /** The value the counter holds in store contents `m`: the decoded bytes at
      `name`, or 0 when the key is absent. Bytes that are not a well-formed
      varint decode to 0, since the byte count Uvarint reports is ignored. */
  function Current(m: map<Key, seq<byte>>, name: Key): uint64 {
    if name in m then Uvarint(m[name]).value else 0
  }

  /** The value a successful Next writes and returns: 0 on an absent key,
      otherwise the stored value plus one in wrapping uint64 arithmetic. */
  function NextValue(m: map<Key, seq<byte>>, name: Key): uint64 {
    if name in m then (Uvarint(m[name]).value + 1) % TWO_TO_64 else 0
  }

  /** The store contents after a successful Next. */
  function AfterNext(m: map<Key, seq<byte>>, name: Key): map<Key, seq<byte>> {
    m[name := Encode(NextValue(m, name))]
  }

  /** Set's guard: the key is absent or holds a value not above `number`. */
  predicate SetAllowed(m: map<Key, seq<byte>>, name: Key, number: uint64) {
    name !in m || Uvarint(m[name]).value <= number
  }

  /** The store contents after `n` successful Next calls. */
  function Iterate(m: map<Key, seq<byte>>, name: Key, n: nat): map<Key, seq<byte>> {
    if n == 0 then m else AfterNext(Iterate(m, name, n - 1), name)
  }

  /** The values returned by `n` successful Next calls, in order. */
  function Issued(m: map<Key, seq<byte>>, name: Key, n: nat): (r: seq<uint64>)
    ensures |r| == n
  {
    if n == 0 then [] else Issued(m, name, n - 1) + [NextValue(Iterate(m, name, n - 1), name)]
  }

  class StoredCounter {
    /** The datastore handle, shared with the caller. */
    const ds: Datastore
    /** The one key this counter reads and writes. */
    const name: Key

    /** Builds the counter; no datastore call is made. */
    constructor New(ds: Datastore, name: Key)
      ensures this.ds == ds && this.name == name
    {
      this.ds := ds;
      this.name := name;
    }

    /** Writes and returns the next value. A failing Has or Get returns 0 with
        its error and writes nothing; a failing Put returns the value it
        tried to write together with the Put error. */
    method Next() returns (next: uint64, err: Option<Error>)
      modifies ds
      ensures err.None? ==> next == NextValue(old(ds.data), name)
      ensures err.None? ==> ds.data == old(ds.data)[name := Encode(next)]
      ensures err.Some? ==> ds.data == old(ds.data)
      ensures err.Some? ==> err.value in {Store(HasFailed), Store(GetFailed), Store(PutFailed)}
      ensures err == Some(Store(PutFailed)) ==> next == NextValue(old(ds.data), name)
      ensures err == Some(Store(HasFailed)) || err == Some(Store(GetFailed)) ==> next == 0
      ensures err == Some(Store(GetFailed)) ==> name in old(ds.data)
    {
      var has, hasErr := ds.Has(name);
      if hasErr.Some? {
        return 0, Some(Store(hasErr.value));
      }
      next := 0;
      if has {
        var curBytes, getErr := ds.Get(name);
        if getErr.Some? {
          return 0, Some(Store(getErr.value));
        }
        var cur := Uvarint(curBytes).value;
        // Go's uint64 addition wraps around
        next := (cur + 1) % TWO_TO_64;
      }
      var buf := new byte[MAX_VARINT_LEN_64];
      EncodeLength(next);
      var size := PutUvarint(buf, next);
      var putErr := ds.Put(name, buf[..size]);
      err := if putErr.Some? then Some(Store(putErr.value)) else None;
    }

    /** Reads the current value without writing: 0 on an absent key. */
    method Get() returns (cur: uint64, err: Option<Error>)
      ensures err.None? ==> cur == Current(ds.data, name)
      ensures err.Some? ==> cur == 0
      ensures err.Some? ==> err == Some(Store(HasFailed)) || (err == Some(Store(GetFailed)) && name in ds.data)
    {
      var has, hasErr := ds.Has(name);
      if hasErr.Some? {
        return 0, Some(Store(hasErr.value));
      }
      if !has {
        return 0, None;
      }
      var curBytes, getErr := ds.Get(name);
      if getErr.Some? {
        return 0, Some(Store(getErr.value));
      }
      cur := Uvarint(curBytes).value;
      err := None;
    }

    /** Writes `number` unless the stored value is above it. A rejected Set
        and a failing Has or Get write nothing. */
    method Set(number: uint64) returns (err: Option<Error>)
      modifies ds
      ensures err.None? ==> SetAllowed(old(ds.data), name, number)
      ensures err.None? ==> ds.data == old(ds.data)[name := Encode(number)]
      ensures err.Some? ==> ds.data == old(ds.data)
      ensures err.Some? ==> err.value in {Store(HasFailed), Store(GetFailed), Store(PutFailed),
                                          BelowCurrent(number, Current(old(ds.data), name))}
      ensures err.Some? && err.value.BelowCurrent? ==> !SetAllowed(old(ds.data), name, number)
      ensures !SetAllowed(old(ds.data), name, number) ==> err.Some? && err.value != Store(PutFailed)
      ensures err == Some(Store(GetFailed)) ==> name in old(ds.data)
    {
      var has, hasErr := ds.Has(name);
      if hasErr.Some? {
        return Some(Store(hasErr.value));
      }
      if has {
        var curBytes, getErr := ds.Get(name);
        if getErr.Some? {
          return Some(Store(getErr.value));
        }
        var cur := Uvarint(curBytes).value;
        if cur > number {
          return Some(BelowCurrent(number, cur));
        }
      }
      var buf := new byte[MAX_VARINT_LEN_64];
      EncodeLength(number);
      var size := PutUvarint(buf, number);
      var putErr := ds.Put(name, buf[..size]);
      err := if putErr.Some? then Some(Store(putErr.value)) else None;
    }
  }
  /** What a successful Next returns is what Get reads afterwards, and no
      key but `name` changes. */
  lemma NextThenGet(m: map<Key, seq<byte>>, name: Key)
    ensures Current(AfterNext(m, name), name) == NextValue(m, name)
    ensures forall k :: k != name ==> (k in AfterNext(m, name) <==> k in m)
    ensures forall k :: k != name && k in m ==> AfterNext(m, name)[k] == m[k]
  {
    RoundTrip(NextValue(m, name));
  }

  /** On a key holding the encoding of `v`, Next writes and returns v + 1,
      wrapping to 0 after the largest uint64. */
  lemma Increment(m: map<Key, seq<byte>>, name: Key, v: uint64)
    requires name in m && m[name] == Encode(v)
    ensures v < TWO_TO_64 - 1 ==> NextValue(m, name) == v + 1
    ensures v == TWO_TO_64 - 1 ==> NextValue(m, name) == 0
  {
    RoundTrip(v);
  }

  /** From an absent key, n successful Next calls leave the encoding of
      n - 1 stored. */
  lemma {:induction false} FreshStore(m: map<Key, seq<byte>>, name: Key, n: nat)
    requires name !in m && 0 < n <= TWO_TO_64
    ensures Iterate(m, name, n) == m[name := Encode(n - 1)]
  {
    if n > 1 {
      FreshStore(m, name, n - 1);
      var before := Iterate(m, name, n - 1);
      Increment(before, name, n - 2);
      assert NextValue(before, name) == n - 1;
    }
  }

  /** From an absent key, n successful Next calls return 0, 1, ..., n - 1. */
  lemma {:induction false} FreshRun(m: map<Key, seq<byte>>, name: Key, n: nat)
    requires name !in m && n <= TWO_TO_64
    ensures forall i :: 0 <= i < n ==> Issued(m, name, n)[i] == i
  {
    if n > 0 {
      FreshRun(m, name, n - 1);
      var before := Iterate(m, name, n - 1);
      if n > 1 {
        FreshStore(m, name, n - 1);
        Increment(before, name, n - 2);
      }
      assert NextValue(before, name) == n - 1;
      assert Issued(m, name, n) == Issued(m, name, n - 1) + [n - 1];
    }
  }

  /** A stored value cut short (all continuation bytes) reads as 0, so the
      next Next restarts the counter at 1. */
  lemma TruncatedValueRestartsAtOne(m: map<Key, seq<byte>>, name: Key, x: uint64, k: nat)
    requires k < |Encode(x)| && name in m && m[name] == Encode(x)[..k]
    ensures Current(m, name) == 0
    ensures NextValue(m, name) == 1
  {
    TruncatedDecodesToZero(x, k);
  }

  /** A stored value whose payload overflows 64 bits is read as 0, so the
      next Next restarts the counter at 1. */
  lemma OverflowingValueRestartsAtOne(m: map<Key, seq<byte>>, name: Key)
    requires name in m && Overflows(m[name])
    ensures Current(m, name) == 0
    ensures NextValue(m, name) == 1
  {
    OverflowDecodesToZero(m[name]);
  }

  /** A successful Set is read back by Get and never moves the value down. */
  lemma SetThenGet(m: map<Key, seq<byte>>, name: Key, number: uint64)
    ensures Current(m[name := Encode(number)], name) == number
    ensures SetAllowed(m, name, number) ==> Current(m, name) <= Current(m[name := Encode(number)], name)
  {
    RoundTrip(number);
  }

  /** On a fresh key, Set(5) then Set(10) both pass the guard and Get reads
      10; a following Set(3) is rejected. */
  lemma SetForwardThenBackward(m: map<Key, seq<byte>>, name: Key)
    requires name !in m
    ensures SetAllowed(m, name, 5)
    ensures SetAllowed(m[name := Encode(5)], name, 10)
    ensures Current(m[name := Encode(5)][name := Encode(10)], name) == 10
    ensures !SetAllowed(m[name := Encode(5)][name := Encode(10)], name, 3)
  {
    var m1 := m[name := Encode(5)];
    SetThenGet(m, name, 5);
    SetThenGet(m1, name, 10);
  }

  /** Two Next calls on a fresh key, then a new counter over the same store
      and key: when every call succeeds the values are 0, 1 and 2, because
      the count lives only in the store. */
  method RebuiltCounterContinues(ds: Datastore, name: Key) returns (a: uint64, b: uint64, c: uint64, ok: bool)
    requires name !in ds.data
    modifies ds
    ensures ok ==> a == 0 && b == 1 && c == 2
    ensures ok ==> ds.data == old(ds.data)[name := Encode(2)]
  {
    var first := new StoredCounter.New(ds, name);
    var err;
    b, c, ok := 0, 0, false;
    a, err := first.Next();
    if err.Some? {
      return;
    }
    Increment(ds.data, name, 0);
    b, err := first.Next();
    if err.Some? {
      return;
    }
    Increment(ds.data, name, 1);
    var second := new StoredCounter.New(ds, name);
    c, err := second.Next();
    ok := err.None?;
  }
}
