# Sensor ingestion and its store, modelled in Dafny

The system reads fixed 16-byte binary records from a sensor device, decodes
each into a measurement (time stamp, type number, reading), attaches it to a
device, and stores it as a Value row. The Value table keeps the pair
(time, value_type_id) unique, and the ingestion loop reads the first insert
that this rule rejects as "all values read". It stops there.

The model has four modules:

- `Bytes` (`bytes.dfy`): Python's `|` and `<<` on non-negative integers
  (`Or`, `Shl`), the or-and-shift accumulation loop of the reader (`OrFold`),
  and the little-endian value `LeValue` with its encoder `LeEncode`.
- `Record` (`record.dfy`): the 16-byte record. `Decode` assembles the time
  stamp from bytes 0..7 and the type number from bytes 8..11, exactly as the
  reader's loops do. It keeps bytes 12..15 as the reading. `Encode` is its
  inverse.
- `Store` (`store.dfy`): the tables Location, Device, ValueType and Value.
  Each table is a map from integer primary key to row, so each key names one
  row by construction. The module has the value insert with its unique
  constraint, the upserts the reader uses when seeding, and the cascading
  deletes (location → devices → values, value type → values).
- `Reader` (`reader.dfy`): `start`'s seeding and the ingestion loop of
  `Reader._run`. The loop is a method whose loop body is the method
  `Iteration`. `FreshPrefix` is an independent reference for where the loop
  must stop.

The loop runs sequentially. Its input is the finite sequence of records the
device yields before `stop()` is seen at the loop head, so running out of
records is the stop request. `random.choice` is `Choose`, which returns some
device of the current list and leaves open which one.

## Model

| member | source | states |
|---|---|---|
| Bytes.OrOfDisjoint | rdp/sensor/reader.py:42 | when the accumulator fits below bit n, or-ing in `b << n` equals adding it, so the reader's `|=` acts as `+` |
| Bytes.OrFoldIsLeValue | rdp/sensor/reader.py:40-45 | after n iterations, the `acc \|= s[off+i] << 8*i` loop holds the sum of s[off+i]·256^i over i < n, and that value is below 2^(8n) |
| Bytes.LeValueBound | rdp/sensor/reader.py:40-45 | k bytes read little-endian give a value below 256^k |
| Bytes.LeValueOfEncode | rdp/sensor/reader.py:40-45 | decoding the k-byte little-endian encoding of any n < 256^k gives n back |
| Bytes.LeEncodeOfValue | rdp/sensor/reader.py:40-45 | encoding the value of any byte string at its own width gives the same bytes back |
| Record.Decode | rdp/sensor/reader.py:40-47 | the time stamp is the little-endian value of bytes 0..7 and is below 2^64; the type number is that of bytes 8..11 and is below 2^32; the reading is the last four bytes |
| Record.DecodeEncode | rdp/sensor/reader.py:40-47 | decoding the encoding of any well-formed measurement gives it back |
| Record.EncodeDecode | rdp/sensor/reader.py:40-47 | encoding the decoding of any 16-byte record gives the same bytes |
| Record.FieldsIndependent | rdp/sensor/reader.py:40-47 | each field depends only on its own bytes: records that agree on bytes 0..7 (or 8..11, or 12..15) agree on that field |
| Record.DecodeExample | rdp/sensor/reader.py:40-47 | bytes 01 00 00 00 00 00 00 00 05 00 00 00 followed by four reading bytes decode to time 1, type 5 and those reading bytes |
| Store.AddValue | rdp/crud/model.py:51-64 | an insert fails with IntegrityError exactly when its (time, value_type_id) pair is already stored, and then the store is unchanged; otherwise it adds exactly one row under a fresh key above all existing ones, keeps every other row, adds exactly that pair, and keeps the unique constraint and referential integrity |
| Store.SecondWriteRejected | rdp/crud/model.py:62-64 | after a successful write, a second write with the same pair is rejected and the first row stays |
| Store.AddOrUpdateLocation | rdp/sensor/reader.py:19 | the upsert creates or overwrites exactly location `id`, leaves the other tables alone, and keeps the store valid |
| Store.AddOrUpdateDevice | rdp/sensor/reader.py:20-22 | the upsert creates or overwrites exactly device `id`, leaves the other tables alone, and keeps the store valid when its location exists |
| Store.UpsertsIdempotent | rdp/sensor/reader.py:19-22 | repeating an upsert with the same arguments changes nothing further |
| Store.DeleteValueType | rdp/crud/model.py:37-45 | a missing type gives NoResultFound; otherwise the type goes, exactly the values with that value_type_id go, every other row stays unchanged, and validity is kept |
| Store.DeleteDevice | rdp/crud/model.py:14-25 | a missing device gives NoResultFound; otherwise the device goes, exactly the values with that device_id go, every other row stays unchanged, and validity is kept |
| Store.DeleteLocation | rdp/crud/model.py:27-35 | a missing location gives NoResultFound; otherwise the location goes, exactly its devices go, exactly the values of those devices go, the rest stays, and every remaining device and value still refers to an existing row |
| Reader.Seed | rdp/sensor/reader.py:18-22 | after seeding, location 1 is "Weiz" and devices 1, 2 and 3 exist with the source's names and location_id 1; other devices and all values are untouched; validity is kept |
| Reader.SeedIdempotent | rdp/sensor/reader.py:19-22 | seeding twice gives the same store as seeding once |
| Reader.SeedEmptyDevices | rdp/sensor/reader.py:19-22 | on an empty store the device list after seeding is exactly {1, 2, 3}, and the store is valid |
| Reader.FreshPrefix | rdp/sensor/reader.py:54-58 | the reference stop point: the length of the longest prefix of the record pairs where no pair is already stored or repeats an earlier one; at that index the pair is stored or repeated |
| Reader.FreshPrefixUnique | rdp/sensor/reader.py:54-58 | any length whose prefix is fresh and repetition-free and that ends at a stored or repeated pair (or at the end of the stream) equals `FreshPrefix` |
| Reader.Choose | rdp/sensor/reader.py:55 | the chosen device id is a member of the current device list |
| Reader.Tick | rdp/sensor/reader.py:60-63 | after each successful write the counter stays in 0..99, equals the number of writes mod 100, and one report is made per 100 writes |
| Reader.ProgressStep | rdp/sensor/reader.py:55 | a successful insert of the next record extends the written prefix by one row, in stream order, on a listed device, and keeps the store's invariants |
| Reader.WrittenPairs | rdp/sensor/reader.py:54-58 | under the unique constraint, every written record carries a pair that was not stored before, no two written records share a pair, and every stored pair is old or written by the loop |
| Reader.StopPoint | rdp/sensor/reader.py:54-58 | where the loop ended, at the end of the stream or at a record whose pair is stored, is exactly `FreshPrefix` |
| Reader.Iteration | rdp/sensor/reader.py:34-63 | one pass of the loop body: an empty device list stops with NoDevice, a stored pair stops with AllValuesRead and changes nothing, and otherwise one row is written and the counter advances |
| Reader.Ingest | rdp/sensor/reader.py:31-63 | the loop writes exactly the first `FreshPrefix` records, each under a fresh increasing key on a device of the list, and keeps every earlier row. It stops with AllValuesRead at the first record whose pair is already stored (from earlier data or an earlier record), with StopRequested when the records run out, and with NoDevice only on an empty device list. The counter equals writes mod 100 |
| Reader.Start | rdp/sensor/reader.py:18-24 | seed, then run the loop: location 1 and devices 1..3 (at location 1) exist, the loop never fails for lack of devices, and it writes exactly the first `FreshPrefix` records, in stream order under fresh increasing keys, each row holding its record's time, type number and reading on a device of the list; every seeded row is kept and no other row is added; it ends at the end of the records or at a record whose pair is stored; the counter is writes mod 100; a valid store stays valid |

## Left out

- Threading: `Thread` creation, `start()` returning at once, and `stop()` with its `join()` are not modelled. The stop flag is only read at the loop head, and the finite record sequence stands for the records read before it is seen. The model has no `stop()`. A second `stop()` calls `join()` on `None` in the code, so it is not a safe no-op.
- `time.sleep(0.1)` pacing, `logger` calls and the `print` loop: these have no effect on the store. The 100-write report is kept as a count (`reports`).
- Device I/O: `open("/dev/rdp_cdev")` on every iteration (the path ignores `self._device`), and `f.read(16)` without a length check. Records are taken to be exactly 16 bytes. An unreadable device is not modelled.
- The float reading: `struct.unpack("f", ...)` is IEEE-754 in native byte order. The reading is kept as its four raw bytes.
- `random.choice`: replaced by `Choose`, which picks some member of the device list without saying which. There is no probability distribution.
- The `Crud` layer is not part of this model. What the store does in its place is a modelling choice:
  - upserts overwrite the row;
  - a new value's key is `nextValueId`, which only counts up. SQLite hands out one more than the largest key in the table, so after the top value is deleted it reuses that key where the model does not;
  - deleting a missing row gives NoResultFound;
  - a value insert does not check that the value type or the device exists.
- SQLite's signed 64-bit INTEGER: a time stamp of 2^63 or more decodes fine but may not be storable. Time stamps are unbounded integers here.
- The REST layer and request schemas (`rdp/api/main.py`, `rdp/api/api_types.py`), including value type upserts and the value query filters.
- Store.AddValue: a rejection is reported only for the unique constraint. Foreign-key failures are not modelled, because the reader passes a raw type number that need not exist. A reading whose four bytes are a NaN float is stored by SQLite as NULL, which fails the NOT NULL column `value` (rdp/crud/model.py:55) with IntegrityError; the reader then stops with "All Values read" at a fresh pair. The reading is opaque bytes here, so this rejection and that stop are not modelled, and Reader.Ingest and Reader.Start stop with AllValuesRead only at a stored pair.
- Reader.Ingest: does not model the stop a NaN reading causes (see the Store.AddValue line); it stops with AllValuesRead only at a stored pair.
- Reader.Start: the same NaN stop is not modelled, as for Reader.Ingest.
