/**
 The sensor reader of `rdp/sensor/reader.py`: `start` seeds one location and
 three devices and then runs the ingestion loop, which decodes one record per
 iteration, attaches it to a device drawn from the current device list, and
 inserts it. The first insert the unique constraint rejects is read as "all
 values read" and ends the loop.

 The loop runs sequentially here. The records are the ones the device yields
 before `stop` is observed at the loop head, so running out of records is the
 stop request; pacing, logging and the thread itself are not modelled.
 */
module Reader {
  import opened Bytes
  import opened Record
  import opened Store

  /** Why the loop ended. */
  datatype Stop =
    | StopRequested   // the stop flag was seen at the loop head
    | AllValuesRead   // an insert was rejected by the unique constraint
    | NoDevice        // random.choice on an empty device list raised

  /** How many successful writes make one "read 100 values" report. */
  const ReportEvery: nat := 100

  /** The seed data `start` writes before the loop begins. */
  function Seed(db: Db): (r: Db)
    ensures r.locations.Keys == db.locations.Keys + {1}
    ensures r.locations[1] == Location("Weiz", "This is a city in Austria")
    ensures r.devices.Keys == db.devices.Keys + {1, 2, 3}
    ensures r.devices[1] == Device("TestDevice", "This is a test device", 1)
    ensures r.devices[2] == Device("TestDevice2", "This is a second test device", 1)
    ensures r.devices[3] == Device("TestDevice3", "This is a third test third device", 1)
    ensures forall d :: d in db.devices && d != 1 && d != 2 && d != 3 ==> r.devices[d] == db.devices[d]
    ensures r.values == db.values && r.valueTypes == db.valueTypes && r.nextValueId == db.nextValueId
    ensures Valid(db) ==> Valid(r)
  {
    var db := AddOrUpdateLocation(db, 1, "Weiz", "This is a city in Austria");
    var db := AddOrUpdateDevice(db, 1, "TestDevice", "This is a test device", 1);
    var db := AddOrUpdateDevice(db, 2, "TestDevice2", "This is a second test device", 1);
    AddOrUpdateDevice(db, 3, "TestDevice3", "This is a third test third device", 1)
  }

  /** Seeding is a fixed set of row overwrites. */
  lemma SeedOverwrites(db: Db)
    ensures Seed(db) == db.(
      locations := db.locations[1 := Location("Weiz", "This is a city in Austria")],
      devices := db.devices[1 := Device("TestDevice", "This is a test device", 1)]
                           [2 := Device("TestDevice2", "This is a second test device", 1)]
                           [3 := Device("TestDevice3", "This is a third test third device", 1)])
  {
  }

  /** Seeding twice leaves the store as seeding once. */
  lemma SeedIdempotent(db: Db)
    ensures Seed(Seed(db)) == Seed(db)
  {
    var once := Seed(db);
    SeedOverwrites(db);
    SeedOverwrites(once);
    OverwriteTwice(db, Location("Weiz", "This is a city in Austria"),
      Device("TestDevice", "This is a test device", 1),
      Device("TestDevice2", "This is a second test device", 1),
      Device("TestDevice3", "This is a third test third device", 1));
  }

  lemma OverwriteTwice(db: Db, loc: Location, d1: Device, d2: Device, d3: Device)
    ensures var once := db.(locations := db.locations[1 := loc], devices := db.devices[1 := d1][2 := d2][3 := d3]);
            once.(locations := once.locations[1 := loc], devices := once.devices[1 := d1][2 := d2][3 := d3]) == once
  {
  }

  /** On an empty store the device list after seeding is exactly 1, 2, 3. */
  lemma SeedEmptyDevices()
    ensures Seed(Empty).devices.Keys == {1, 2, 3}
    ensures Valid(Seed(Empty))
  {
  }

  predicate AllRecords(records: seq<seq<byte>>)
  {
    forall i :: 0 <= i < |records| ==> |records[i]| == RecordSize
  }

  /** The measurements the records decode to, in stream order. */
  function Measurements(records: seq<seq<byte>>): (ms: seq<Measurement>)
    requires AllRecords(records)
    ensures |ms| == |records|
  {
    seq(|records|, i requires 0 <= i < |records| => Decode(records[i]))
  }

  /** The pair the unique constraint sees for one measurement. */
  function Key(m: Measurement): Pair
  {
    (m.time, m.typeNum)
  }

  function Keys(ms: seq<Measurement>): (ps: seq<Pair>)
    ensures |ps| == |ms|
  {
    seq(|ms|, i requires 0 <= i < |ms| => Key(ms[i]))
  }

  /** Reference for the stop point: the length of the longest prefix of `ps`
      whose pairs are new, none in `known` and none repeating an earlier one. */
  function FreshPrefix(known: set<Pair>, ps: seq<Pair>): (k: nat)
    decreases |ps|
    ensures k <= |ps|
    ensures forall i :: 0 <= i < k ==> ps[i] !in known
    ensures forall i, j :: 0 <= i < j < k ==> ps[i] != ps[j]
    ensures k < |ps| ==> ps[k] in known || exists i :: 0 <= i < k && ps[i] == ps[k]
  {
    if |ps| == 0 || ps[0] in known then 0
    else
      var k := 1 + FreshPrefix(known + {ps[0]}, ps[1..]);
      assert forall i :: 1 <= i < |ps| ==> ps[i] == ps[1..][i - 1];
      assert k < |ps| && ps[k] !in known && ps[k] != ps[0] ==> exists i :: 1 <= i < k && ps[i] == ps[k] by {
        if k < |ps| && ps[k] !in known && ps[k] != ps[0] {
          var i :| 0 <= i < k - 1 && ps[1..][i] == ps[1..][k - 1];
          assert ps[i + 1] == ps[k];
        }
      }
      k
  }

  /** The four properties of `FreshPrefix` pin it down: any `k` with a fresh,
      repetition-free prefix that ends at a known or repeated pair (or at the
      end) is that length. */
  lemma {:induction false} FreshPrefixUnique(known: set<Pair>, ps: seq<Pair>, k: nat)
    requires k <= |ps|
    requires forall i :: 0 <= i < k ==> ps[i] !in known
    requires forall i, j :: 0 <= i < j < k ==> ps[i] != ps[j]
    requires k < |ps| ==> ps[k] in known || exists i :: 0 <= i < k && ps[i] == ps[k]
    ensures FreshPrefix(known, ps) == k
    decreases |ps|
  {
    if k > 0 {
      var known' := known + {ps[0]};
      var rest := ps[1..];
      forall i | 0 <= i < k - 1 ensures rest[i] !in known' {
        assert rest[i] == ps[i + 1];
      }
      forall i, j | 0 <= i < j < k - 1 ensures rest[i] != rest[j] {
        assert rest[i] == ps[i + 1] && rest[j] == ps[j + 1];
      }
      if k - 1 < |rest| && rest[k - 1] !in known' {
        assert rest[k - 1] == ps[k];
        var i :| 0 <= i < k && ps[i] == ps[k];
        assert i > 0;
        assert rest[i - 1] == ps[i];
      }
      FreshPrefixUnique(known', rest, k - 1);
    }
  }

  /** The counter update after a successful write: count up, and every
      `ReportEvery` writes report once and reset. After `written` writes the
      counter is `written % ReportEvery` and `written / ReportEvery` reports
      have been made; the next write keeps it so. */
  method Tick(count: nat, reports: nat, ghost written: nat) returns (count': nat, reports': nat)
    requires count < ReportEvery && count == written % ReportEvery && reports == written / ReportEvery
    ensures count' < ReportEvery
    ensures count' == (written + 1) % ReportEvery && reports' == (written + 1) / ReportEvery
  {
    assert written == ReportEvery * reports + count;
    count', reports' := count + 1, reports;
    if count' % ReportEvery == 0 {
      assert written + 1 == ReportEvery * (reports + 1);
      reports' := reports' + 1;
      count' := 0;
    } else {
      assert written + 1 == ReportEvery * reports + count';
    }
  }

  /** One value row holds the decoded record `m`. */
  predicate Holds(v: Value, m: Measurement)
  {
    v.time == m.time && v.valueTypeId == m.typeNum && v.reading == m.reading
  }

  /** `random.choice(get_devices()).id`: some device of the list, which
      one is left open. */
  method Choose(devices: map<int, Device>) returns (d: int)
    requires devices != map[]
    ensures d in devices
  {
    HasMember(devices.Keys);
    d :| d in devices.Keys;
  }

  lemma HasMember(s: set<int>)
    requires s != {}
    ensures exists x :: x in s
  {
    if forall x :: x !in s {
      assert false;
    }
  }

  /** What the loop has done after writing the rows `ids`: the first |ids|
      measurements are stored, in order, under fresh increasing keys, each on
      a device of the list, and nothing else changed. */
  ghost predicate Progress(db: Db, ms: seq<Measurement>, r: Db, ids: seq<int>)
  {
    && |ids| <= |ms|
    && r.locations == db.locations && r.devices == db.devices && r.valueTypes == db.valueTypes
    && (forall j :: 0 <= j < |ids| ==>
         && ids[j] in r.values && ids[j] !in db.values
         && Holds(r.values[ids[j]], ms[j])
         && r.values[ids[j]].deviceId in db.devices)
    && (forall j, l :: 0 <= j < l < |ids| ==> ids[j] < ids[l])
    && (forall k :: k in db.values ==> k in r.values && r.values[k] == db.values[k])
    && (forall k :: k in r.values ==> k in db.values || k in ids)
  }

  /** A successful insert of the next measurement extends the progress by
      one row and keeps the store's invariants. */
  lemma ProgressStep(db: Db, ms: seq<Measurement>, r: Db, ids: seq<int>, device: int, c: Commit)
    requires Constraints(r) && (Linked(db) ==> Linked(r)) && Progress(db, ms, r, ids)
    requires |ids| < |ms| && device in db.devices
    requires c == AddValue(r, ms[|ids|].time, ms[|ids|].typeNum, ms[|ids|].reading, device)
    requires c.result.Ok?
    ensures Constraints(c.db) && (Linked(db) ==> Linked(c.db))
    ensures Progress(db, ms, c.db, ids + [c.result.value])
  {
    var ids' := ids + [c.result.value];
    forall j | 0 <= j < |ids'|
      ensures ids'[j] in c.db.values && ids'[j] !in db.values
      ensures Holds(c.db.values[ids'[j]], ms[j])
      ensures c.db.values[ids'[j]].deviceId in db.devices
    {
      if j < |ids| {
        assert ids'[j] == ids[j] && ids[j] in r.values;
      }
    }
    forall j, l | 0 <= j < l < |ids'| ensures ids'[j] < ids'[l] {
      if l == |ids| {
        assert ids[j] in r.values;
      }
    }
  }

  /** Under the unique constraint, the written prefix consists of new,
      pairwise distinct pairs; and a pair found in the store is either old
      or one the loop wrote. */
  lemma WrittenPairs(db: Db, ms: seq<Measurement>, r: Db, ids: seq<int>)
    requires UniquePairs(r.values) && Progress(db, ms, r, ids)
    ensures forall j :: 0 <= j < |ids| ==> Key(ms[j]) !in Pairs(db.values)
    ensures forall j, l :: 0 <= j < l < |ids| ==> Key(ms[j]) != Key(ms[l])
    ensures forall p :: p in Pairs(r.values) ==> p in Pairs(db.values) || exists j :: 0 <= j < |ids| && Key(ms[j]) == p
  {
    forall j | 0 <= j < |ids| ensures Key(ms[j]) !in Pairs(db.values) {
      assert Key(ms[j]) == PairOf(r.values[ids[j]]);
      forall k | k in db.values ensures PairOf(db.values[k]) != Key(ms[j]) {
        assert r.values[k] == db.values[k];
        assert k != ids[j];
      }
    }
    forall j, l | 0 <= j < l < |ids| ensures Key(ms[j]) != Key(ms[l]) {
      assert Key(ms[j]) == PairOf(r.values[ids[j]]);
      assert Key(ms[l]) == PairOf(r.values[ids[l]]);
      assert ids[j] < ids[l];
    }
    forall p | p in Pairs(r.values)
      ensures p in Pairs(db.values) || exists j :: 0 <= j < |ids| && Key(ms[j]) == p
    {
      var k :| k in r.values && PairOf(r.values[k]) == p;
      if k in db.values {
        assert PairOf(db.values[k]) == p;
      } else {
        var j :| 0 <= j < |ids| && ids[j] == k;
        assert Key(ms[j]) == p;
      }
    }
  }

  /** Where the loop stopped is where `FreshPrefix` says it stops. */
  lemma StopPoint(db: Db, ms: seq<Measurement>, r: Db, ids: seq<int>)
    requires UniquePairs(r.values) && Progress(db, ms, r, ids)
    requires |ids| == |ms| || Key(ms[|ids|]) in Pairs(r.values)
    ensures FreshPrefix(Pairs(db.values), Keys(ms)) == |ids|
  {
    var ps := Keys(ms);
    var k := |ids|;
    WrittenPairs(db, ms, r, ids);
    forall i | 0 <= i < k ensures ps[i] !in Pairs(db.values) {
      assert ps[i] == Key(ms[i]);
    }
    forall i, j | 0 <= i < j < k ensures ps[i] != ps[j] {
      assert ps[i] == Key(ms[i]) && ps[j] == Key(ms[j]);
    }
    if k < |ps| && ps[k] !in Pairs(db.values) {
      assert ps[k] == Key(ms[k]);
      var j :| 0 <= j < k && Key(ms[j]) == ps[k];
      assert ps[j] == ps[k];
    }
    FreshPrefixUnique(Pairs(db.values), ps, k);
  }

  /** One pass of the loop body for record number |ids|: decode it, choose
      a device, insert, and on success advance the counter. */
  method Iteration(db: Db, records: seq<seq<byte>>, ghost ms: seq<Measurement>,
                   r: Db, ids: seq<int>, count: nat, reports: nat)
    returns (r': Db, ids': seq<int>, stop: Stop, count': nat, reports': nat)
    requires AllRecords(records) && ms == Measurements(records) && |ids| < |records|
    requires Constraints(r) && (Linked(db) ==> Linked(r)) && Progress(db, ms, r, ids)
    requires count < ReportEvery && count == |ids| % ReportEvery && reports == |ids| / ReportEvery
    ensures stop != StopRequested ==> r' == r && ids' == ids && count' == count && reports' == reports
    ensures stop == StopRequested ==>
      && |ids'| == |ids| + 1
      && Constraints(r') && (Linked(db) ==> Linked(r')) && Progress(db, ms, r', ids')
      && count' < ReportEvery && count' == |ids'| % ReportEvery && reports' == |ids'| / ReportEvery
    ensures stop == NoDevice <==> db.devices == map[]
    ensures stop == AllValuesRead ==> Key(ms[|ids|]) in Pairs(r.values)
  {
    r', ids', stop, count', reports' := r, ids, StopRequested, count, reports;
    var m := Decode(records[|ids|]);
    if r.devices == map[] {
      stop := NoDevice;
      return;
    }
    var device := Choose(r.devices);
    var c := AddValue(r, m.time, m.typeNum, m.reading, device);
    if c.result.Err? {
      stop := AllValuesRead;
      return;
    }
    ProgressStep(db, ms, r, ids, device, c);
    r', ids' := c.db, ids + [c.result.value];
    count', reports' := Tick(count, reports, |ids|);
  }

  /** The ingestion loop of `Reader._run` over the records the device yields.
      Returns the final store, the keys of the written rows in stream order,
      why the loop ended, the counter, and how many reports were made. */
  method Ingest(db: Db, records: seq<seq<byte>>)
    returns (r: Db, ids: seq<int>, stop: Stop, count: nat, reports: nat)
    requires Constraints(db)
    requires AllRecords(records)
    ensures Constraints(r)
    ensures Linked(db) ==> Linked(r)
    // how the loop ends
    ensures stop == NoDevice <==> db.devices == map[] && |records| > 0
    ensures stop == NoDevice ==> ids == []
    ensures stop == StopRequested ==> |ids| == |records|
    ensures stop == AllValuesRead ==> |ids| < |records| && Key(Decode(records[|ids|])) in Pairs(r.values)
    ensures stop != NoDevice ==> |ids| == FreshPrefix(Pairs(db.values), Keys(Measurements(records)))
    // what was written: Progress, with Measurements(records)[i] == Decode(records[i])
    ensures Progress(db, Measurements(records), r, ids)
    // the progress counter
    ensures count < ReportEvery && count == |ids| % ReportEvery && reports == |ids| / ReportEvery
  {
    ghost var ms := Measurements(records);
    r, ids, stop, count, reports := db, [], StopRequested, 0, 0;
    while |ids| < |records|
      invariant stop == StopRequested
      invariant Constraints(r)
      invariant Linked(db) ==> Linked(r)
      invariant Progress(db, ms, r, ids)
      invariant db.devices == map[] ==> ids == []
      invariant count < ReportEvery && count == |ids| % ReportEvery && reports == |ids| / ReportEvery
      decreases |records| - |ids|
    {
      r, ids, stop, count, reports := Iteration(db, records, ms, r, ids, count, reports);
      if stop != StopRequested {
        break;
      }
    }
    if stop != NoDevice {
      StopPoint(db, ms, r, ids);
    }
  }

  /** `Reader.start` followed by the loop it launches: seed, then ingest. */
  method Start(db: Db, records: seq<seq<byte>>)
    returns (r: Db, ids: seq<int>, stop: Stop, count: nat, reports: nat)
    requires Constraints(db)
    requires AllRecords(records)
    ensures 1 in r.locations && 1 in r.devices && 2 in r.devices && 3 in r.devices
    ensures r.devices[1].locationId == 1 && r.devices[2].locationId == 1 && r.devices[3].locationId == 1
    ensures stop != NoDevice
    ensures |ids| == FreshPrefix(Pairs(db.values), Keys(Measurements(records)))
    ensures forall i :: 0 <= i < |ids| ==> ids[i] in r.values && r.values[ids[i]].deviceId in r.devices
    ensures stop == StopRequested ==> |ids| == |records|
    ensures stop == AllValuesRead ==> |ids| < |records| && Key(Decode(records[|ids|])) in Pairs(r.values)
    // the rows written hold the first |ids| records in order; every seeded row is kept
    ensures Progress(Seed(db), Measurements(records), r, ids)
    ensures count == |ids| % ReportEvery && reports == |ids| / ReportEvery
    ensures Valid(db) ==> Valid(r)
  {
    var seeded := Seed(db);
    r, ids, stop, count, reports := Ingest(seeded, records);
  }
}
