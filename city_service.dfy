/** CityServiceImpl over a city repository held as a map from id to city. */
module CityService {
  import opened Wrappers
  import opened Entities

  /** Every stored city carries its own key, and every key is below the next id to be generated. */
  ghost predicate WellKeyed(cities: map<int, City>, nextId: int)
  {
    forall k | k in cities :: k < nextId && cities[k].id == Some(k)
  }

  /**
   * CityRepository.save: a city whose id is already stored replaces that entry;
   * any other city is inserted under a freshly generated id.
   * Returns the new table, the next id to generate, and the saved city.
   */
  function SaveCity(cities: map<int, City>, nextId: int, city: City): (r: (map<int, City>, int, City))
    ensures WellKeyed(cities, nextId) ==> WellKeyed(r.0, r.1)
    ensures r.2.id.Some? && r.0.Keys == cities.Keys + {r.2.id.value} && r.0[r.2.id.value] == r.2
    ensures r.2 == city.(id := r.2.id)
    ensures forall k | k in cities && Some(k) != r.2.id :: r.0[k] == cities[k]
    ensures city.id.Some? && city.id.value in cities ==> r.2 == city && r.1 == nextId
    ensures WellKeyed(cities, nextId) && (city.id.None? || city.id.value !in cities) ==>
      r.2.id.value !in cities && |r.0| == |cities| + 1
  {
    if city.id.Some? && city.id.value in cities then
      (cities[city.id.value := city], nextId, city)
    else
      var saved := city.(id := Some(nextId));
      (cities[nextId := saved], nextId + 1, saved)
  }

  class CityServiceImpl {
    var cities: map<int, City>
    var nextId: int

    ghost predicate Valid()
      reads this
    {
      WellKeyed(cities, nextId)
    }

    constructor ()
      ensures Valid() && cities == map[]
    {
      cities, nextId := map[], 1;
    }

    /** The repository's save. */
    method Save(city: City) returns (saved: City)
      requires Valid()
      modifies this
      ensures Valid()
      ensures (cities, nextId, saved) == SaveCity(old(cities), old(nextId), city)
    {
      var r := SaveCity(cities, nextId, city);
      cities, nextId, saved := r.0, r.1, r.2;
    }

    /** createCity: a new city is stored under a fresh id and returned with that id. */
    method CreateCity(city: City) returns (saved: City)
      requires Valid()
      modifies this
      ensures Valid()
      ensures (cities, nextId, saved) == SaveCity(old(cities), old(nextId), city)
      ensures city.id.None? ==>
        saved == city.(id := saved.id) && saved.id.value !in old(cities) && cities == old(cities)[saved.id.value := saved]
    {
      saved := Save(city);
    }

    /** getCityById: the stored city, or NotFound for an id with no city. */
    method GetCityById(id: int) returns (r: Result<City, Error>)
      ensures id in cities ==> r == Ok(cities[id])
      ensures id !in cities ==> r == Err(NotFound(id))
    {
      if id in cities {
        r := Ok(cities[id]);
      } else {
        r := Err(NotFound(id));
      }
    }

    /**
     * updateCity: NotFound (and nothing saved) for an absent id; otherwise the stored
     * city takes the name, province and description of `city` and keeps its own id.
     */
    method UpdateCity(id: int, city: City) returns (r: Result<City, Error>)
      requires Valid()
      modifies this
      ensures Valid() && nextId == old(nextId)
      ensures id !in old(cities) ==> r == Err(NotFound(id)) && cities == old(cities)
      ensures id in old(cities) ==>
        var updated := old(cities)[id].(name := city.name, province := city.province, description := city.description);
        r == Ok(updated) && cities == old(cities)[id := updated]
      ensures r.Ok? ==> r.value.id == Some(id)
    {
      var existing := GetCityById(id);
      if existing.Err? {
        return Err(existing.error);
      }
      var updated := existing.value.(name := city.name, province := city.province, description := city.description);
      var saved := Save(updated);
      r := Ok(saved);
    }

    /** deleteCity: NotFound and no change for an absent id; otherwise exactly that entry goes. */
    method DeleteCity(id: int) returns (r: Result<(), Error>)
      requires Valid()
      modifies this
      ensures Valid() && nextId == old(nextId)
      ensures id !in old(cities) ==> r == Err(NotFound(id)) && cities == old(cities)
      ensures id in old(cities) ==> r == Ok(()) && cities == old(cities) - {id}
    {
      if id !in cities {
        return Err(NotFound(id));
      }
      cities := cities - {id};
      r := Ok(());
    }

    /** getAllCities: every stored city exactly once, in no particular order. */
    method GetAllCities() returns (all: seq<City>)
      requires Valid()
      ensures |all| == |cities|
      ensures forall k | k in cities :: cities[k] in all
      ensures forall i | 0 <= i < |all| :: all[i].id.Some? && all[i].id.value in cities && cities[all[i].id.value] == all[i]
      ensures forall i, j | 0 <= i < j < |all| :: all[i] != all[j]
    {
      all := [];
      ghost var keys: seq<int> := [];
      var todo := cities.Keys;
      while todo != {}
        invariant todo <= cities.Keys
        invariant |keys| == |all| && |all| + |todo| == |cities|
        invariant forall i | 0 <= i < |keys| :: keys[i] in cities && keys[i] !in todo && all[i] == cities[keys[i]]
        invariant forall k | k in cities && k !in todo :: k in keys
        invariant forall i, j | 0 <= i < j < |keys| :: keys[i] != keys[j]
        decreases todo
      {
        assert exists k :: k in todo by {
          if forall k :: k !in todo { assert false; }
        }
        var k :| k in todo;
        all, keys := all + [cities[k]], keys + [k];
        todo := todo - {k};
      }
      forall i, j | 0 <= i < j < |all| ensures all[i] != all[j] {
        assert keys[i] in cities && keys[j] in cities;
        assert all[i].id == Some(keys[i]) && all[j].id == Some(keys[j]);
      }
      forall k | k in cities ensures cities[k] in all {
        var i :| 0 <= i < |keys| && keys[i] == k;
        assert all[i] == cities[k];
      }
    }
  }

  /** Once a city is deleted, looking it up raises NotFound. */
  method DeleteThenGet(service: CityServiceImpl, id: int) returns (r: Result<City, Error>)
    requires service.Valid() && id in service.cities
    modifies service
    ensures r == Err(NotFound(id))
    ensures service.cities == old(service.cities) - {id}
  {
    var deleted := service.DeleteCity(id);
    r := service.GetCityById(id);
  }
}
