/** `DeleteCar`: the DELETE /cars/{id} endpoint. */
module DeleteCar {
  import opened Http
  import opened Cars
  import GetCar

  /** `Endpoint`: NotFound for an unknown id; otherwise that one car is removed
      and committed, and the answer is NoContent. */
  method Endpoint(db: ApplicationDbContext, id: Guid) returns (r: HttpResult<()>)
    requires db.Valid()
    modifies db
    ensures db.Valid()
    ensures id !in old(db.Cars) ==> r == NotFound && db.Cars == old(db.Cars)
    ensures id in old(db.Cars) ==> r == NoContent && db.Cars == old(db.Cars) - {id}
  {
    var car := db.Find(id);
    if car.None? {
      return NotFound;
    }
    var staged := db.Cars - {car.value.id};
    RemoveKeepsSchema(db.Cars, car.value.id);
    var commit := db.SaveChanges(staged);
    assert commit.Returns?;
    return NoContent;
  }

  /** A deleted car is gone: reading it and deleting it again both give NotFound. */
  method DeleteIsTerminal(db: ApplicationDbContext, id: Guid)
    returns (first: HttpResult<()>, read: HttpResult<GetCar.Response>, second: HttpResult<()>)
    requires db.Valid()
    modifies db
    ensures read == NotFound && second == NotFound
  {
    first := Endpoint(db, id);
    read := GetCar.Endpoint(db, id);
    second := Endpoint(db, id);
  }
}
