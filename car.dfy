/** The `Car` entity, its table configuration, and the part of
    `ApplicationDbContext` the endpoints use: the `Cars` set keyed by id. */
module Cars {
  import opened Wrappers
  import Validation

  /** A `System.Guid`: a 128-bit value, compared for equality only. */
  newtype Guid = x: int | 0 <= x < 0x1_0000_0000_0000_0000_0000_0000_0000_0000

  /** `CarTableConfiguration.NameMaxLength`. */
  const NameMaxLength: nat := 50

  datatype Car = Car(id: Guid, name: string, userId: string)

  /** `new Car()`: `Guid.NewGuid()` is drawn by the caller and passed in. */
  function NewCar(newId: Guid): (c: Car)
    ensures c.id == newId && c.name == "" && c.userId == ""
    ensures SatisfiesSchema(c)
  {
    Car(newId, "", "")
  }

  /** The column constraints: `Name` is required and at most `NameMaxLength`
      long, `UserId` is required (both are non-null strings here). */
  predicate SatisfiesSchema(c: Car)
    // the column's limit is the one FluentValidation's MaximumLength rule enforces
    ensures SatisfiesSchema(c) <==> Validation.MaximumLength("Name", c.name, NameMaxLength) == []
  {
    |c.name| <= NameMaxLength
  }

  /** The table: `Id` is the key and every row satisfies the column constraints. */
  predicate TableSchema(cars: map<Guid, Car>)
    // at most one car per id: two entries never hold cars with the same Id
    ensures TableSchema(cars) ==>
              forall a, b :: a in cars && b in cars && a != b ==> cars[a].id != cars[b].id
    ensures TableSchema(map[])
  {
    forall id :: id in cars ==> cars[id].id == id && SatisfiesSchema(cars[id])
  }

  /** Replacing a stored car by one with the same key keeps the schema
      exactly when the new row satisfies the column constraints. */
  lemma ReplaceKeepsSchema(cars: map<Guid, Car>, c: Car)
    requires TableSchema(cars) && c.id in cars
    ensures TableSchema(cars[c.id := c]) <==> SatisfiesSchema(c)
  {
    var staged := cars[c.id := c];
    assert staged[c.id] == c;
    if SatisfiesSchema(c) {
      forall k | k in staged ensures staged[k].id == k && SatisfiesSchema(staged[k]) {
        if k != c.id {
          assert staged[k] == cars[k];
        }
      }
    }
  }

  /** Removing a row keeps the schema. */
  lemma RemoveKeepsSchema(cars: map<Guid, Car>, id: Guid)
    requires TableSchema(cars)
    ensures TableSchema(cars - {id})
  {
  }

  /** The cars of one user (`User.Cars`, the other end of `HasOne(x => x.User)`). */
  function CarsOf(cars: map<Guid, Car>, userId: string): (owned: set<Guid>)
    ensures owned <= cars.Keys
    ensures forall id :: id in owned <==> id in cars && cars[id].userId == userId
  {
    set id | id in cars && cars[id].userId == userId
  }

  /** Each car belongs to exactly one user: it is among its owner's cars and
      among no other user's. */
  lemma ExactlyOneOwner(cars: map<Guid, Car>, id: Guid, userId: string)
    requires id in cars
    ensures id in CarsOf(cars, userId) <==> userId == cars[id].userId
  {
  }

  /** The users' car sets partition the table: two different users own
      disjoint sets, and every stored car is in its owner's set. */
  lemma OwnedSetsPartition(cars: map<Guid, Car>, u1: string, u2: string)
    requires u1 != u2
    ensures CarsOf(cars, u1) !! CarsOf(cars, u2)
    ensures forall id :: id in cars ==> id in CarsOf(cars, cars[id].userId)
  {
  }

  /** The database context. Only the `Cars` set is modelled; the change
      tracker is reduced to the staged table that `SaveChanges` commits. */
  class ApplicationDbContext {
    var Cars: map<Guid, Car>

    predicate Valid()
      reads this
    {
      TableSchema(Cars)
    }

    constructor (cars: map<Guid, Car>)
      requires TableSchema(cars)
      ensures Valid() && Cars == cars
    {
      Cars := cars;
    }

    /** `Cars.FindAsync([id])`: the car with that key, or `null`. */
    function Find(id: Guid): (r: Option<Car>)
      reads this
      ensures r.None? <==> id !in Cars
      ensures r.Some? ==> r.value == Cars[id]
      ensures Valid() && r.Some? ==> r.value.id == id && SatisfiesSchema(r.value)
    {
      if id in Cars then Some(Cars[id]) else None
    }

    /** `SaveChangesAsync`: commits the staged table atomically, or, when a
        row breaks the schema, refuses it and leaves the store as it was. */
    method SaveChanges(staged: map<Guid, Car>) returns (r: Result<()>)
      modifies this
      ensures r.Returns? <==> TableSchema(staged)
      ensures r.Throws? ==> r.exception == DbUpdate
      ensures Cars == if r.Returns? then staged else old(Cars)
    {
      if TableSchema(staged) {
        Cars := staged;
        r := Returns(());
      } else {
        r := Throws(DbUpdate);
      }
    }
  }
}
