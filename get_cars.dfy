/** `GetCars`: the GET /cars endpoint, a projection of every stored car. */
module GetCars {
  import opened Text
  import opened Http
  import opened Cars

  datatype Response = Response(id: Guid, name: string)

  /** The ids of a list of responses. */
  function Ids(list: seq<Response>): set<Guid> {
    set x | x in list :: x.id
  }

  /** `list` projects the cars whose keys are not in `remaining`, each once. */
  ghost predicate Enumerated(cars: map<Guid, Car>, list: seq<Response>, remaining: set<Guid>) {
    && remaining <= cars.Keys
    && Ids(list) !! remaining
    && Ids(list) + remaining == cars.Keys
    && |list| + |remaining| == |cars|
    && NoDuplicates(list)
    && forall x :: x in list ==> x.id in cars && x.name == cars[x.id].name
  }

  /** Projecting one more car keeps the enumeration invariant. */
  lemma EnumerateOne(cars: map<Guid, Car>, list: seq<Response>, remaining: set<Guid>, id: Guid)
    requires Enumerated(cars, list, remaining)
    requires id in remaining
    ensures Enumerated(cars, list + [Response(id, cars[id].name)], remaining - {id})
  {
  }

  /** `Endpoint`: Ok with one `(Id, Name)` entry per stored car, in whatever
      order the store yields them. */
  method Endpoint(db: ApplicationDbContext) returns (r: HttpResult<seq<Response>>)
    requires db.Valid()
    ensures r.Ok?
    ensures |r.body| == |db.Cars|
    ensures Ids(r.body) == db.Cars.Keys
    ensures NoDuplicates(r.body)
    ensures forall x :: x in r.body ==> x.id in db.Cars && x.name == db.Cars[x.id].name
  {
    var cars := db.Cars;
    var remaining := cars.Keys;
    var list: seq<Response> := [];
    while remaining != {}
      invariant Enumerated(cars, list, remaining)
      decreases remaining
    {
      var id :| id in remaining;
      var car := cars[id];
      assert car.id == id;
      EnumerateOne(cars, list, remaining, id);
      list := list + [Response(car.id, car.name)];
      remaining := remaining - {id};
    }
    return Ok(list);
  }
}
