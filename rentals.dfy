/** AlquilerService: the rental store and its create / read / full update /
    delete operations. */
module Rentals {
  import opened Wrappers
  import opened Catalog
  import opened Tables

  /** An Alquiler without its id (the id is the key it is stored under).
      Dates and the receipt type may be null; the price is never null. */
  datatype Rental = Rental(
    movieId: int,
    startDate: Option<Date>,
    endDate: Option<Date>,
    finalPrice: real,
    receiptType: Option<string>)

  /** The store after createAlquiler: the draft is saved only when the catalog
      knows its movie. */
  function CreatedRentals(t: Table<Rental>, catalog: Catalog, draft: Rental): (u: Table<Rental>)
    requires WellFormed(t)
    ensures WellFormed(u)
  {
    if Known(catalog, draft.movieId) then Inserted(t, draft) else t
  }

  /** The store after updateAlquiler: a stored rental takes every field of the
      replacement; an absent id changes nothing. */
  function UpdatedRentals(t: Table<Rental>, id: int, details: Rental): (u: Table<Rental>)
    requires WellFormed(t)
    ensures WellFormed(u)
  {
    if id in t.records then Replaced(t, id, details) else t
  }

  /** Creation depends on the catalog only through the lookup of the draft's
      own movie id. */
  lemma CreateLooksUpOwnMovie(t: Table<Rental>, c1: Catalog, c2: Catalog, draft: Rental)
    requires WellFormed(t)
    requires Known(c1, draft.movieId) == Known(c2, draft.movieId)
    ensures CreatedRentals(t, c1, draft) == CreatedRentals(t, c2, draft)
  {
  }

  class RentalService {
    const repo: Repository<Rental>
    const catalog: Catalog

    ghost predicate Valid()
      reads this, repo
    {
      repo.Valid()
    }

    constructor (repo: Repository<Rental>, catalog: Catalog)
      ensures this.repo == repo && this.catalog == catalog
    {
      this.repo := repo;
      this.catalog := catalog;
    }

    /** getAllAlquileres: every stored rental, in insertion order. */
    method GetAll() returns (all: seq<Saved<Rental>>)
      requires Valid()
      ensures |all| == |repo.order|
      ensures forall i :: 0 <= i < |all| ==> all[i].id == repo.order[i] && all[i].record == repo.records[repo.order[i]]
      ensures forall id :: id in repo.records <==> exists i :: 0 <= i < |all| && all[i].id == id
    {
      all := repo.FindAll();
    }

    /** getAlquilerById: the stored rental, or empty. */
    method GetById(id: int) returns (r: Option<Saved<Rental>>)
      ensures r.Some? <==> id in repo.records
      ensures r.Some? ==> r.value == Saved(id, repo.records[id])
    {
      r := repo.FindById(id);
    }

    /** createAlquiler: asks the catalog for the draft's movie; if it is not
        there the call fails and nothing is saved, otherwise the draft is saved
        as given under a fresh id. */
    method Create(draft: Rental) returns (r: Result<Saved<Rental>, Error>)
      requires Valid()
      modifies repo
      ensures Valid()
      ensures repo.Snapshot() == CreatedRentals(old(repo.Snapshot()), catalog, draft)
      ensures r.Success? <==> Known(catalog, draft.movieId)
      ensures r.Failure? ==> r.error == MovieNotInCatalog && repo.Snapshot() == old(repo.Snapshot())
      ensures r.Success? ==> r.value.record == draft && r.value.id !in old(repo.records)
      ensures r.Success? ==> repo.records == old(repo.records)[r.value.id := draft]
    {
      var movie := catalog(draft.movieId);
      if movie.None? {
        return Failure(MovieNotInCatalog);
      }
      var saved := repo.Insert(draft);
      r := Success(saved);
    }

    /** updateAlquiler: a stored rental gets all five fields of details,
        null and zero values included, and the catalog is not asked; an absent
        id yields null and changes nothing. */
    method Update(id: int, details: Rental) returns (r: Option<Saved<Rental>>)
      requires Valid()
      modifies repo
      ensures Valid()
      ensures repo.Snapshot() == UpdatedRentals(old(repo.Snapshot()), id, details)
      ensures r.Some? <==> id in old(repo.records)
      ensures r.None? ==> repo.Snapshot() == old(repo.Snapshot())
      ensures r.Some? ==> r.value == Saved(id, details) && repo.records == old(repo.records)[id := details]
    {
      var found := repo.FindById(id);
      if found.Some? {
        var rental := found.value.record;
        rental := rental.(movieId := details.movieId);
        rental := rental.(startDate := details.startDate);
        rental := rental.(endDate := details.endDate);
        rental := rental.(finalPrice := details.finalPrice);
        rental := rental.(receiptType := details.receiptType);
        var saved := repo.Replace(id, rental);
        return Some(saved);
      }
      return None;
    }

    /** deleteAlquiler: afterwards id is absent and every other rental is as
        it was; deleting an absent id changes nothing. */
    method Delete(id: int)
      requires Valid()
      modifies repo
      ensures Valid()
      ensures repo.Snapshot() == Deleted(old(repo.Snapshot()), id)
      ensures id !in repo.records
      ensures forall k :: k in old(repo.records) && k != id ==> k in repo.records && repo.records[k] == old(repo.records)[k]
    {
      repo.DeleteById(id);
    }
  }
}
