/** WeatherDataServiceImpl over a weather-data repository held as a map from id to record. */
module WeatherDataService {
  import opened Wrappers
  import opened Entities

  /** Every stored record carries its own key, and every key is below the next id to be generated. */
  ghost predicate WellKeyed(records: map<int, WeatherData>, nextId: int)
  {
    forall k | k in records :: k < nextId && records[k].id == Some(k)
  }

  /**
   * WeatherDataRepository.save: a record whose id is already stored replaces that
   * entry; any other record is inserted under a freshly generated id.
   * Returns the new table, the next id to generate, and the saved record.
   */
  function SaveRecord(records: map<int, WeatherData>, nextId: int, data: WeatherData): (r: (map<int, WeatherData>, int, WeatherData))
    ensures WellKeyed(records, nextId) ==> WellKeyed(r.0, r.1)
    ensures r.2.id.Some? && r.0.Keys == records.Keys + {r.2.id.value} && r.0[r.2.id.value] == r.2
    ensures r.2 == data.(id := r.2.id)
    ensures forall k | k in records && Some(k) != r.2.id :: r.0[k] == records[k]
    ensures data.id.Some? && data.id.value in records ==> r.2 == data && r.1 == nextId
    ensures WellKeyed(records, nextId) && (data.id.None? || data.id.value !in records) ==>
      r.2.id.value !in records && |r.0| == |records| + 1
  {
    if data.id.Some? && data.id.value in records then
      (records[data.id.value := data], nextId, data)
    else
      var saved := data.(id := Some(nextId));
      (records[nextId := saved], nextId + 1, saved)
  }

  /** WeatherDataRepository.saveAll: each record of the batch saved in turn, in list order. */
  function SaveAllRecords(records: map<int, WeatherData>, nextId: int, batch: seq<WeatherData>): (r: (map<int, WeatherData>, int))
    ensures records.Keys <= r.0.Keys && nextId <= r.1
    decreases |batch|
  {
    if batch == [] then (records, nextId)
    else
      var first := SaveRecord(records, nextId, batch[0]);
      SaveAllRecords(first.0, first.1, batch[1..])
  }

  /** Saving a batch keeps every stored record under its own key, below the next id. */
  lemma {:induction false} SaveAllWellKeyed(records: map<int, WeatherData>, nextId: int, batch: seq<WeatherData>)
    requires WellKeyed(records, nextId)
    ensures WellKeyed(SaveAllRecords(records, nextId, batch).0, SaveAllRecords(records, nextId, batch).1)
    decreases |batch|
  {
    if batch != [] {
      var first := SaveRecord(records, nextId, batch[0]);
      SaveAllWellKeyed(first.0, first.1, batch[1..]);
    }
  }

  /** A batch of records not yet persisted. */
  predicate AllNew(batch: seq<WeatherData>)
  {
    forall i | 0 <= i < |batch| :: batch[i].id.None?
  }

  /** The rest of a batch of new records is new too. */
  lemma AllNewRest(batch: seq<WeatherData>)
    requires AllNew(batch) && batch != []
    ensures AllNew(batch[1..])
  {
    forall i | 0 <= i < |batch| - 1 ensures batch[1..][i].id.None? {
      assert batch[1..][i] == batch[i + 1];
    }
  }

  /** Saving a batch of new records consumes exactly one generated id per record. */
  lemma {:induction false} SaveAllNextId(records: map<int, WeatherData>, nextId: int, batch: seq<WeatherData>)
    requires AllNew(batch)
    ensures SaveAllRecords(records, nextId, batch).1 == nextId + |batch|
    decreases |batch|
  {
    if batch != [] {
      AllNewRest(batch);
      assert batch[0].id.None?;
      var first := SaveRecord(records, nextId, batch[0]);
      SaveAllNextId(first.0, first.1, batch[1..]);
    }
  }

  /** The given records stamped with the consecutive ids nextId, nextId + 1, ... and keyed by them. */
  function Stamped(batch: seq<WeatherData>, nextId: int): map<int, WeatherData>
    decreases |batch|
  {
    if batch == [] then map[]
    else Stamped(batch[1..], nextId + 1)[nextId := batch[0].(id := Some(nextId))]
  }

  /** The i-th record of the batch sits under key nextId + i, and nothing else is there. */
  lemma {:induction false} StampedContents(batch: seq<WeatherData>, nextId: int)
    ensures forall k | k in Stamped(batch, nextId) :: nextId <= k < nextId + |batch|
    ensures forall k | nextId <= k < nextId + |batch| ::
      k in Stamped(batch, nextId) && Stamped(batch, nextId)[k] == batch[k - nextId].(id := Some(k))
    ensures |Stamped(batch, nextId)| == |batch|
    decreases |batch|
  {
    if batch != [] {
      var rest := batch[1..];
      var tail := Stamped(rest, nextId + 1);
      StampedContents(rest, nextId + 1);
      assert nextId !in tail;
      assert Stamped(batch, nextId) == tail[nextId := batch[0].(id := Some(nextId))];
      forall k | nextId <= k < nextId + |batch|
        ensures k in Stamped(batch, nextId) && Stamped(batch, nextId)[k] == batch[k - nextId].(id := Some(k))
      {
        if k > nextId {
          assert k in tail && tail[k] == rest[k - (nextId + 1)].(id := Some(k));
          assert rest[k - (nextId + 1)] == batch[k - nextId];
        }
      }
    }
  }

  /** An entry added to the left of a union, under a key the right side lacks, can be added on the right instead. */
  lemma UpdateBeforeUnion(a: map<int, WeatherData>, k: int, v: WeatherData, b: map<int, WeatherData>)
    requires k !in b
    ensures a[k := v] + b == a + b[k := v]
  {
  }

  /**
   * Saving a batch of new records adds each of them, in order, under consecutive
   * fresh ids and changes nothing else: the table grows by exactly the batch.
   */
  lemma {:induction false} SaveAllNewRecords(records: map<int, WeatherData>, nextId: int, batch: seq<WeatherData>)
    requires WellKeyed(records, nextId) && AllNew(batch)
    ensures SaveAllRecords(records, nextId, batch).0 == records + Stamped(batch, nextId)
    ensures SaveAllRecords(records, nextId, batch).1 == nextId + |batch|
    decreases |batch|
  {
    if batch != [] {
      var rest := batch[1..];
      var saved := batch[0].(id := Some(nextId));
      assert batch[0].id.None?;
      assert SaveRecord(records, nextId, batch[0]) == (records[nextId := saved], nextId + 1, saved);
      AllNewRest(batch);
      SaveAllNewRecords(records[nextId := saved], nextId + 1, rest);
      StampedContents(rest, nextId + 1);
      UpdateBeforeUnion(records, nextId, saved, Stamped(rest, nextId + 1));
    } else {
      assert records + Stamped(batch, nextId) == records;
    }
  }

  /**
   * What saveAll does to the table for a batch of new records: every earlier record
   * stays, the i-th record of the batch is stored under nextId + i, nothing else is
   * added, and the table grows by exactly the length of the batch.
   */
  lemma SaveAllAddsBatch(records: map<int, WeatherData>, nextId: int, batch: seq<WeatherData>)
    requires WellKeyed(records, nextId) && AllNew(batch)
    ensures var r := SaveAllRecords(records, nextId, batch);
      && r.1 == nextId + |batch|
      && |r.0| == |records| + |batch|
      && (forall k | k in records :: k in r.0 && r.0[k] == records[k])
      && (forall k | nextId <= k < nextId + |batch| :: k in r.0 && r.0[k] == batch[k - nextId].(id := Some(k)))
      && (forall k | k in r.0 :: k in records || nextId <= k < nextId + |batch|)
  {
    SaveAllNewRecords(records, nextId, batch);
    StampedContents(batch, nextId);
    var added := Stamped(batch, nextId);
    assert records.Keys !! added.Keys;
    assert (records + added).Keys == records.Keys + added.Keys;
    assert |(records + added).Keys| == |records.Keys| + |added.Keys|;
  }

  class WeatherDataServiceImpl {
    var records: map<int, WeatherData>
    var nextId: int

    ghost predicate Valid()
      reads this
    {
      WellKeyed(records, nextId)
    }

    constructor ()
      ensures Valid() && records == map[]
    {
      records, nextId := map[], 1;
    }

    /** The repository's save. */
    method Save(data: WeatherData) returns (saved: WeatherData)
      requires Valid()
      modifies this
      ensures Valid()
      ensures (records, nextId, saved) == SaveRecord(old(records), old(nextId), data)
    {
      var r := SaveRecord(records, nextId, data);
      records, nextId, saved := r.0, r.1, r.2;
    }

    /** createWeatherData: a new record is stored under a fresh id and returned with that id. */
    method CreateWeatherData(data: WeatherData) returns (saved: WeatherData)
      requires Valid()
      modifies this
      ensures Valid()
      ensures (records, nextId, saved) == SaveRecord(old(records), old(nextId), data)
      ensures data.id.None? ==>
        saved == data.(id := saved.id) && saved.id.value !in old(records) && records == old(records)[saved.id.value := saved]
    {
      saved := Save(data);
    }

    /** getWeatherDataById: the stored record, or NotFound for an id with no record. */
    method GetWeatherDataById(id: int) returns (r: Result<WeatherData, Error>)
      ensures id in records ==> r == Ok(records[id])
      ensures id !in records ==> r == Err(NotFound(id))
    {
      if id in records {
        r := Ok(records[id]);
      } else {
        r := Err(NotFound(id));
      }
    }

    /**
     * updateWeatherData: NotFound (and nothing saved) for an absent id; otherwise the
     * stored record takes all seven observation fields of `data` and keeps its own id.
     */
    method UpdateWeatherData(id: int, data: WeatherData) returns (r: Result<WeatherData, Error>)
      requires Valid()
      modifies this
      ensures Valid() && nextId == old(nextId)
      ensures id !in old(records) ==> r == Err(NotFound(id)) && records == old(records)
      ensures id in old(records) ==> r == Ok(data.(id := Some(id))) && records == old(records)[id := data.(id := Some(id))]
    {
      var existing := GetWeatherDataById(id);
      if existing.Err? {
        return Err(existing.error);
      }
      var updated := existing.value.(
        city := data.city,
        date := data.date,
        temperature := data.temperature,
        humidity := data.humidity,
        weather := data.weather,
        windDirection := data.windDirection,
        windSpeed := data.windSpeed);
      var saved := Save(updated);
      r := Ok(saved);
    }

    /** deleteWeatherData: NotFound and no change for an absent id; otherwise exactly that record goes. */
    method DeleteWeatherData(id: int) returns (r: Result<(), Error>)
      requires Valid()
      modifies this
      ensures Valid() && nextId == old(nextId)
      ensures id !in old(records) ==> r == Err(NotFound(id)) && records == old(records)
      ensures id in old(records) ==> r == Ok(()) && records == old(records) - {id}
    {
      if id !in records {
        return Err(NotFound(id));
      }
      records := records - {id};
      r := Ok(());
    }

    /**
     * saveAll: the whole batch handed to the repository in one call. `fault` stands for
     * the repository raising; the batch is then rolled back and nothing is stored.
     */
    method SaveAll(batch: seq<WeatherData>, fault: bool) returns (r: Result<(), Error>)
      requires Valid()
      modifies this
      ensures Valid()
      ensures fault ==> r == Err(PersistenceFault) && records == old(records) && nextId == old(nextId)
      ensures !fault ==> r == Ok(()) && (records, nextId) == SaveAllRecords(old(records), old(nextId), batch)
    {
      if fault {
        return Err(PersistenceFault);
      }
      for i := 0 to |batch|
        invariant Valid()
        invariant SaveAllRecords(records, nextId, batch[i..]) == SaveAllRecords(old(records), old(nextId), batch)
      {
        assert batch[i..][0] == batch[i] && batch[i..][1..] == batch[i + 1..];
        var _ := Save(batch[i]);
      }
      assert batch[|batch|..] == [];
      r := Ok(());
    }

    /** count: the number of stored records. */
    method Count() returns (n: nat)
      ensures n == |records|
    {
      n := |records|;
    }
  }

  /** Once a record is deleted, looking it up raises NotFound. */
  method DeleteThenGet(service: WeatherDataServiceImpl, id: int) returns (r: Result<WeatherData, Error>)
    requires service.Valid() && id in service.records
    modifies service
    ensures r == Err(NotFound(id))
    ensures service.records == old(service.records) - {id}
  {
    var deleted := service.DeleteWeatherData(id);
    r := service.GetWeatherDataById(id);
  }
}
