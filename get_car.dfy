/** `GetCar`: the GET /cars/{id} endpoint. */
module GetCar {
  import opened Http
  import opened Cars

  datatype Response = Response(id: Guid, name: string)

  /** `Endpoint`: NotFound for an unknown id, else Ok with the car's id and name. */
  function Endpoint(db: ApplicationDbContext, id: Guid): (r: HttpResult<Response>)
    reads db
    ensures r.NotFound? <==> id !in db.Cars
    ensures r.Ok? || r.NotFound?
    ensures r.Ok? ==> r.body.id == db.Cars[id].id && r.body.name == db.Cars[id].name
    ensures db.Valid() && r.Ok? ==> r.body.id == id && |r.body.name| <= NameMaxLength
  {
    var car := db.Find(id);
    if car.None? then NotFound
    else Ok(Response(car.value.id, car.value.name))
  }
}
