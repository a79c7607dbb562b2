# StoredCounter in Dafny

A model of `StoredCounter` from `extern/go-storedcounter`: a `uint64` counter
whose only state is one key in a key-value datastore. The value is stored as
an unsigned base-128 varint, the format of Go's `encoding/binary`
(`PutUvarint`/`Uvarint`), which is also unsigned LEB128 (section 7.6 of the
DWARF v4 standard). The counter offers three calls:

- `Next` writes and returns the next value: 0 on an absent key, otherwise the
  stored value plus one, wrapping to 0 after 2^64 - 1.
- `Get` returns the stored value, or 0 on an absent key, and never writes.
- `Set(number)` writes `number` unless the stored value is above it.

Files:

- `base.dfy` (module `Base`): Go's `byte` and `uint64` as subset types of
  `int`, and an `Option` used for Go's `error` results.
- `varint.dfy` (module `Varint`): the encoder as a function `Encode`, Go's
  `PutUvarint` as a method that fills an `array<byte>`, and Go's `Uvarint` as a
  function that reproduces its three outcomes: a value with its byte count, a
  buffer that ends too early (n == 0), and an overflow (n < 0).
- `datastore.dfy` (module `KVStore`): the datastore as a class whose `data`
  field is a `map<Key, seq<byte>>`. It has the three calls the counter uses
  (`Has`, `Get`, `Put`), and each may fail nondeterministically.
- `storedcounter.dfy` (module `Counter`): the `StoredCounter` class with its
  `ds` and `name` fields and the methods `Next`, `Get`, `Set`. Beside it are
  specification functions over the store contents (`Current`, `NextValue`,
  `AfterNext`, `SetAllowed`, `Iterate`, `Issued`) and lemmas about them.

Each counter method is proved against the specification functions. Its
`ensures` give the new store contents as `old(ds.data)[name := Encode(v)]`
or `old(ds.data)`, so no key other than `name` is ever touched. The lemmas
prove what those states mean: Get reads back what Next or Set wrote, the
values count up from 0, a backward Set is rejected, and a truncated or
overflowing stored value restarts the count.

`Next` returns 0 only when `Has` or `Get` fails. When `Put` fails, it returns
the value it tried to write together with the error (storedcounter.go:48).

## Model

| member | source | states |
|---|---|---|
| `Varint.Encode` | extern/go-storedcounter/storedcounter.go:45-46 | the PutUvarint encoding of a value is non-empty and its last byte has no continuation bit |
| `Varint.EncodeContinues` | extern/go-storedcounter/storedcounter.go:45-46 | every byte of an encoding except the last has the continuation bit set |
| `Varint.EncodeLength` | extern/go-storedcounter/storedcounter.go:45-46 | the encoding has exactly as many bytes as the value has base-128 digits, so it is 1 to MaxVarintLen64 (10) bytes long and fits the 10-byte buffer |
| `Varint.PutUvarint` | extern/go-storedcounter/storedcounter.go:45-46 | fills the front of the buffer with the encoding, returns its length as `size`, and leaves the rest of the buffer untouched |
| `Varint.UvarintFrom` | extern/go-storedcounter/storedcounter.go:42 | Uvarint's loop: a failure (n <= 0) yields value 0; a success consumes at most 10 bytes and the value fits 64 bits; an overflow reports -10 or -11 |
| `Varint.Uvarint` | extern/go-storedcounter/storedcounter.go:42 | Go's Uvarint: value 0 whenever n <= 0, and a success reads at most 10 bytes of the buffer |
| `Varint.UvarintFromEncode` | extern/go-storedcounter/storedcounter.go:42 | decoding an encoding that starts at group i returns its value and consumes all of it, provided the value fits the bits left at group i |
| `Varint.RoundTrip` | extern/go-storedcounter/storedcounter.go:42-46 | Uvarint of the encoding of x returns x, and the byte count is the length of the encoding |
| `Varint.AllContinuationFrom` | extern/go-storedcounter/storedcounter.go:42 | a buffer of at most 10 bytes, all with the continuation bit, decodes to (0, 0) |
| `Varint.OverflowFrom` | extern/go-storedcounter/storedcounter.go:42 | from any group before the tenth, bytes that overflow 64 bits (tenth byte above 1, or an eleventh byte requested) give value 0 and a negative count |
| `Varint.OverflowDecodesToZero` | extern/go-storedcounter/storedcounter.go:42 | Uvarint of bytes carrying more than 64 bits of payload returns value 0 with a negative byte count |
| `Varint.TruncatedDecodesToZero` | extern/go-storedcounter/storedcounter.go:42 | every strict prefix of an encoding decodes to value 0 with byte count 0 |
| `KVStore.Datastore.Has` | extern/go-storedcounter/storedcounter.go:31 | on success reports whether the key is present; on failure returns HasFailed and false |
| `KVStore.Datastore.Get` | extern/go-storedcounter/storedcounter.go:38 | on success returns the stored bytes of a present key; ErrNotFound exactly when the key is absent; otherwise may fail with GetFailed |
| `KVStore.Datastore.Put` | extern/go-storedcounter/storedcounter.go:48 | on success the key maps to the new bytes and every other key is unchanged; on failure nothing changes |
| `Counter.StoredCounter.New` | extern/go-storedcounter/storedcounter.go:19-22 | keeps the store handle and key and makes no datastore call |
| `Counter.StoredCounter.Next` | extern/go-storedcounter/storedcounter.go:26-49 | on success returns NextValue of the old store and stores its encoding at `name` only; a Has or Get failure returns 0, writes nothing and passes the error on; a Put failure returns NextValue with the error and leaves the store unchanged |
| `Counter.StoredCounter.Get` | extern/go-storedcounter/storedcounter.go:52-71 | changes nothing (no modifies clause); on success returns the decoded stored value, or 0 on an absent key; a Has or Get failure returns 0 with that error |
| `Counter.StoredCounter.Set` | extern/go-storedcounter/storedcounter.go:74-97 | on success the guard held (key absent or stored value <= number) and only `name` now holds the encoding of number; if the guard fails, no Put happens and the result is BelowCurrent(number, current) or an earlier Has/Get error; every error leaves the store unchanged |
| `Counter.NextThenGet` | extern/go-storedcounter/storedcounter.go:36-48 | after a successful Next, reading the key decodes to exactly the value Next returned; no other key changes |
| `Counter.Increment` | extern/go-storedcounter/storedcounter.go:37-44 | if the key holds the encoding of v, Next returns v + 1, or 0 when v = 2^64 - 1 |
| `Counter.FreshStore` | extern/go-storedcounter/storedcounter.go:36-48 | from an absent key, n >= 1 successful Next calls leave the encoding of n - 1 stored at the key |
| `Counter.FreshRun` | extern/go-storedcounter/storedcounter.go:36-48 | from an absent key, n successful Next calls return 0, 1, ..., n - 1 in order |
| `Counter.TruncatedValueRestartsAtOne` | extern/go-storedcounter/storedcounter.go:42-43 | a stored value cut short is read as 0, so the next Next returns 1 |
| `Counter.OverflowingValueRestartsAtOne` | extern/go-storedcounter/storedcounter.go:42-43 | a stored value whose payload overflows 64 bits is read as 0, so the next Next returns 1 |
| `Counter.SetThenGet` | extern/go-storedcounter/storedcounter.go:83-96 | after a successful Set(number), reading the key gives number; when Set's guard passes, the value read afterwards is not below the value read before |
| `Counter.RebuiltCounterContinues` | extern/go-storedcounter/storedcounter.go:19-48 | two Next calls on a fresh key and one Next on a new counter built over the same store and key return 0, 1 and 2 when all succeed, and leave the encoding of 2 stored |
| `Counter.SetForwardThenBackward` | extern/go-storedcounter/storedcounter.go:83-96 | on a fresh key, Set(5) then Set(10) both pass the guard and the key reads 10; Set(3) afterwards fails the guard |

## Left out

- The `sync.Mutex` (storedcounter.go:14, 28-29, 54-55, 76-77) only gives in-process mutual exclusion. Each call is modelled as one atomic step, so interleavings of concurrent calls are not modelled.
- `context.TODO()` and the internals of the go-datastore library are not part of this model. The datastore is a map with three calls, and each call may fail for a reason chosen nondeterministically.
- A failing `Put` is assumed to leave the store unchanged. The real datastore gives no such promise.
- The text of the `xerrors.Errorf` message is not modelled. The error is the value `BelowCurrent(number, current)`.
- Several counters or processes using the same key at once are not modelled. The source makes no promise about that case.
- Uvarint combines groups with bitwise OR and shifts. The model uses addition and multiplication by powers of 128 instead. The two agree because each group occupies its own bits and an accepted value never exceeds 64 bits.
