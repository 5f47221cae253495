/**
 The relational store behind the reader: the tables Location, Device,
 ValueType and Value of `rdp/crud/model.py`, each a map from its integer
 primary key to the row, so a key names at most one row by construction.
 Foreign keys are plain ints; the cascades of the ORM relationships are
 written out in the delete operations.
 */
module Store {
  import opened Bytes

  /** The (time, value_type_id) pair the store keeps unique across Values. */
  type Pair = (int, int)

  datatype Location = Location(name: string, description: string)

  datatype Device = Device(name: string, description: string, locationId: int)

  datatype ValueType = ValueType(typeName: string, typeUnit: string)

  /** A measurement row; `reading` is the raw bytes of the stored float. */
  datatype Value = Value(time: int, reading: seq<byte>, valueTypeId: int, deviceId: int)

  /** The four tables, and the next key the Value table will hand out. */
  datatype Db = Db(
    locations: map<int, Location>,
    devices: map<int, Device>,
    valueTypes: map<int, ValueType>,
    values: map<int, Value>,
    nextValueId: int)

  datatype StoreError = IntegrityError | NoResultFound

  datatype Result<T> = Ok(value: T) | Err(error: StoreError)

  /** The store after a value insert, and the new row's key or the error. */
  datatype Commit = Commit(db: Db, result: Result<int>)

  const Empty := Db(map[], map[], map[], map[], 1)

  function PairOf(v: Value): Pair
  {
    (v.time, v.valueTypeId)
  }

  /** Every (time, value_type_id) pair some stored value carries. */
  function Pairs(values: map<int, Value>): set<Pair>
  {
    set k | k in values :: PairOf(values[k])
  }

  /** The unique constraint "value integrity": no two values share a pair. */
  predicate UniquePairs(values: map<int, Value>)
  {
    forall a, b :: a in values && b in values && a != b ==> PairOf(values[a]) != PairOf(values[b])
  }

  /** What the database itself keeps on every write: the unique constraint,
      and value keys below the next one to be handed out. */
  predicate Constraints(db: Db)
  {
    && UniquePairs(db.values)
    && (forall k :: k in db.values ==> k < db.nextValueId)
  }

  /** Referential integrity: every device's location and every value's device exist. */
  predicate Linked(db: Db)
  {
    && (forall d :: d in db.devices ==> db.devices[d].locationId in db.locations)
    && (forall k :: k in db.values ==> db.values[k].deviceId in db.devices)
  }

  predicate Valid(db: Db)
  {
    Constraints(db) && Linked(db)
  }

  /** Insert one value. A pair that is already stored violates the unique
      constraint: the insert is rejected and the store stays as it was.
      Otherwise exactly one row, under a fresh key, is added. The value type
      need not exist. */
  function AddValue(db: Db, time: int, typeId: int, reading: seq<byte>, deviceId: int): (c: Commit)
    requires Constraints(db)
    ensures c.result.Err? <==> (time, typeId) in Pairs(db.values)
    ensures c.result.Err? ==> c.result.error == IntegrityError && c.db == db
    ensures c.result.Ok? ==>
      var id := c.result.value;
      && id !in db.values
      && c.db.values.Keys == db.values.Keys + {id}
      && c.db.values[id] == Value(time, reading, typeId, deviceId)
      && (forall k :: k in db.values ==> c.db.values[k] == db.values[k])
      && Pairs(c.db.values) == Pairs(db.values) + {(time, typeId)}
      && id < c.db.nextValueId
      && (forall k :: k in db.values ==> k < id)
      && c.db.locations == db.locations && c.db.devices == db.devices && c.db.valueTypes == db.valueTypes
    ensures Constraints(c.db)
    ensures Linked(db) && deviceId in db.devices ==> Linked(c.db)
  {
    if (time, typeId) in Pairs(db.values) then
      Commit(db, Err(IntegrityError))
    else
      var id := db.nextValueId;
      var values := db.values[id := Value(time, reading, typeId, deviceId)];
      assert Pairs(values) == Pairs(db.values) + {(time, typeId)} by {
        forall p | p in Pairs(values) ensures p in Pairs(db.values) + {(time, typeId)} {
          var k :| k in values && PairOf(values[k]) == p;
          if k != id {
            assert k in db.values;
          }
        }
        forall p | p in Pairs(db.values) ensures p in Pairs(values) {
          var k :| k in db.values && PairOf(db.values[k]) == p;
          assert k in values && values[k] == db.values[k];
        }
        assert PairOf(values[id]) == (time, typeId);
      }
      assert UniquePairs(values) by {
        forall a, b | a in values && b in values && a != b
          ensures PairOf(values[a]) != PairOf(values[b])
        {
          if a == id {
            assert PairOf(values[b]) in Pairs(db.values);
          } else if b == id {
            assert PairOf(values[a]) in Pairs(db.values);
          }
        }
      }
      Commit(db.(values := values, nextValueId := id + 1), Ok(id))
  }

  /** Of two writes with the same (time, value_type_id) pair only the first
      succeeds; the second leaves the first one's row in place. */
  lemma SecondWriteRejected(db: Db, time: int, typeId: int, reading: seq<byte>, deviceId: int,
                            reading': seq<byte>, deviceId': int)
    requires Constraints(db)
    requires AddValue(db, time, typeId, reading, deviceId).result.Ok?
    ensures var first := AddValue(db, time, typeId, reading, deviceId);
            var second := AddValue(first.db, time, typeId, reading', deviceId');
            && second.result == Err(IntegrityError) && second.db == first.db
            && first.db.values[first.result.value] == Value(time, reading, typeId, deviceId)
  {
  }

  /** Create location `id`, or overwrite its fields; its devices stay. */
  function AddOrUpdateLocation(db: Db, id: int, name: string, description: string): (r: Db)
    ensures r.locations.Keys == db.locations.Keys + {id}
    ensures r.locations[id] == Location(name, description)
    ensures forall k :: k in db.locations && k != id ==> r.locations[k] == db.locations[k]
    ensures r.devices == db.devices && r.valueTypes == db.valueTypes && r.values == db.values
    ensures r.nextValueId == db.nextValueId
    ensures Valid(db) ==> Valid(r)
  {
    db.(locations := db.locations[id := Location(name, description)])
  }

  /** Create device `id`, or overwrite its fields; its values stay. */
  function AddOrUpdateDevice(db: Db, id: int, name: string, description: string, locationId: int): (r: Db)
    ensures r.devices.Keys == db.devices.Keys + {id}
    ensures r.devices[id] == Device(name, description, locationId)
    ensures forall k :: k in db.devices && k != id ==> r.devices[k] == db.devices[k]
    ensures r.locations == db.locations && r.valueTypes == db.valueTypes && r.values == db.values
    ensures r.nextValueId == db.nextValueId
    ensures Valid(db) && locationId in db.locations ==> Valid(r)
  {
    db.(devices := db.devices[id := Device(name, description, locationId)])
  }

  /** An upsert repeated with the same arguments changes nothing more. */
  lemma UpsertsIdempotent(db: Db, id: int, name: string, description: string, locationId: int)
    ensures AddOrUpdateLocation(AddOrUpdateLocation(db, id, name, description), id, name, description)
         == AddOrUpdateLocation(db, id, name, description)
    ensures AddOrUpdateDevice(AddOrUpdateDevice(db, id, name, description, locationId), id, name, description, locationId)
         == AddOrUpdateDevice(db, id, name, description, locationId)
  {
  }

  /** Values the cascade from a deleted device (or value type) leaves in place. */
  function KeepValues(values: map<int, Value>, keep: Value -> bool): (r: map<int, Value>)
    ensures forall k :: k in r <==> k in values && keep(values[k])
    ensures forall k :: k in r ==> r[k] == values[k]
  {
    map k | k in values && keep(values[k]) :: values[k]
  }

  lemma KeepValuesUnique(values: map<int, Value>, keep: Value -> bool)
    ensures UniquePairs(values) ==> UniquePairs(KeepValues(values, keep))
  {
  }

  /** Delete value type `id` and, by cascade, exactly the values of that type. */
  function DeleteValueType(db: Db, id: int): (r: Result<Db>)
    ensures r.Err? <==> id !in db.valueTypes
    ensures r.Err? ==> r.error == NoResultFound
    ensures r.Ok? ==>
      && r.value.valueTypes.Keys == db.valueTypes.Keys - {id}
      && (forall t :: t in r.value.valueTypes ==> r.value.valueTypes[t] == db.valueTypes[t])
      && (forall k :: k in r.value.values <==> k in db.values && db.values[k].valueTypeId != id)
      && (forall k :: k in r.value.values ==> r.value.values[k] == db.values[k])
      && r.value.locations == db.locations && r.value.devices == db.devices
    ensures r.Ok? && Valid(db) ==> Valid(r.value)
  {
    if id !in db.valueTypes then Err(NoResultFound)
    else
      var values := KeepValues(db.values, (v: Value) => v.valueTypeId != id);
      KeepValuesUnique(db.values, (v: Value) => v.valueTypeId != id);
      Ok(db.(valueTypes := db.valueTypes - {id}, values := values))
  }

  /** Delete device `id` and, by cascade, exactly the values it recorded. */
  function DeleteDevice(db: Db, id: int): (r: Result<Db>)
    ensures r.Err? <==> id !in db.devices
    ensures r.Err? ==> r.error == NoResultFound
    ensures r.Ok? ==>
      && r.value.devices.Keys == db.devices.Keys - {id}
      && (forall d :: d in r.value.devices ==> r.value.devices[d] == db.devices[d])
      && (forall k :: k in r.value.values <==> k in db.values && db.values[k].deviceId != id)
      && (forall k :: k in r.value.values ==> r.value.values[k] == db.values[k])
      && r.value.locations == db.locations && r.value.valueTypes == db.valueTypes
    ensures r.Ok? && Valid(db) ==> Valid(r.value)
  {
    if id !in db.devices then Err(NoResultFound)
    else
      var values := KeepValues(db.values, (v: Value) => v.deviceId != id);
      KeepValuesUnique(db.values, (v: Value) => v.deviceId != id);
      Ok(db.(devices := db.devices - {id}, values := values))
  }

  /** The devices location `id` owns. */
  function DevicesAt(db: Db, id: int): set<int>
  {
    set d | d in db.devices && db.devices[d].locationId == id
  }

  /** Delete location `id`, by cascade every device at it, and by the next
      cascade every value those devices recorded. */
  function DeleteLocation(db: Db, id: int): (r: Result<Db>)
    ensures r.Err? <==> id !in db.locations
    ensures r.Err? ==> r.error == NoResultFound
    ensures r.Ok? ==>
      && r.value.locations.Keys == db.locations.Keys - {id}
      && (forall l :: l in r.value.locations ==> r.value.locations[l] == db.locations[l])
      && (forall d :: d in r.value.devices <==> d in db.devices && db.devices[d].locationId != id)
      && (forall d :: d in r.value.devices ==> r.value.devices[d] == db.devices[d])
      && (forall k :: k in r.value.values <==> k in db.values && db.values[k].deviceId !in DevicesAt(db, id))
      && (forall k :: k in r.value.values ==> r.value.values[k] == db.values[k])
      && r.value.valueTypes == db.valueTypes
    ensures r.Ok? && Valid(db) ==> Valid(r.value)
  {
    if id !in db.locations then Err(NoResultFound)
    else
      var gone := DevicesAt(db, id);
      var values := KeepValues(db.values, (v: Value) => v.deviceId !in gone);
      KeepValuesUnique(db.values, (v: Value) => v.deviceId !in gone);
      Ok(db.(locations := db.locations - {id}, devices := db.devices - gone, values := values))
  }
}
