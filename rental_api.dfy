/** AlquilerController: the rental partial update (the merge lives here, not
    in the service) and the mapping of service results to HTTP statuses. */
module RentalApi {
  import opened Wrappers
  import opened Tables
  import opened Rentals

  /** The status outcome of a handler: 200 with a body, 204, or 404. */
  datatype Response<T> = Ok(body: T) | NoContent | NotFound {
    function Status(): int
    {
      match this
      case Ok(_) => 200
      case NoContent => 204
      case NotFound => 404
    }
  }

  /** A found / non-null service result becomes 200 carrying it, an empty or
      null one becomes 404. */
  function OkOrNotFound<T>(r: Option<T>): (resp: Response<T>)
    ensures resp.Status() == (if r.Some? then 200 else 404)
    ensures r.Some? ==> resp == Ok(r.value)
  {
    match r
    case Some(x) => Ok(x)
    case None => NotFound
  }

  /** The rental merge: start date, end date and receipt type are taken from
      details when non-null, the final price when nonzero; every other field,
      and the movie id always, keeps its stored value. */
  function PatchedRental(stored: Rental, details: Rental): (r: Rental)
    ensures r.movieId == stored.movieId
    ensures r.startDate == if details.startDate.Some? then details.startDate else stored.startDate
    ensures r.endDate == if details.endDate.Some? then details.endDate else stored.endDate
    ensures r.finalPrice == if details.finalPrice != 0.0 then details.finalPrice else stored.finalPrice
    ensures r.receiptType == if details.receiptType.Some? then details.receiptType else stored.receiptType
  {
    stored.(
      startDate := if details.startDate.Some? then details.startDate else stored.startDate,
      endDate := if details.endDate.Some? then details.endDate else stored.endDate,
      finalPrice := if details.finalPrice != 0.0 then details.finalPrice else stored.finalPrice,
      receiptType := if details.receiptType.Some? then details.receiptType else stored.receiptType)
  }

  /** The store after partialUpdateAlquiler. */
  function PatchedRentals(t: Table<Rental>, id: int, details: Rental): (u: Table<Rental>)
    requires WellFormed(t)
    ensures WellFormed(u)
  {
    if id in t.records then Replaced(t, id, PatchedRental(t.records[id], details)) else t
  }

  /** A patch with every field absent (null dates, zero price, null receipt
      type) leaves the rental as it was, whatever movie id it names. */
  lemma EmptyRentalPatch(stored: Rental, movieId: int)
    ensures PatchedRental(stored, Rental(movieId, None, None, 0.0, None)) == stored
  {
  }

  /** Applying the same patch twice is applying it once. */
  lemma RentalPatchIdempotent(stored: Rental, details: Rental)
    ensures PatchedRental(PatchedRental(stored, details), details) == PatchedRental(stored, details)
  {
  }

  /** A patch with all four patchable fields present acts as a full update
      that keeps the stored movie id. */
  lemma FullRentalPatchIsUpdate(stored: Rental, details: Rental)
    requires details.startDate.Some? && details.endDate.Some?
    requires details.finalPrice != 0.0 && details.receiptType.Some?
    ensures PatchedRental(stored, details) == details.(movieId := stored.movieId)
  {
  }

  class RentalController {
    const service: RentalService

    ghost predicate Valid()
      reads this, service, service.repo
    {
      service.Valid()
    }

    constructor (service: RentalService)
      ensures this.service == service
    {
      this.service := service;
    }

    /** getAlquilerById: 200 with the stored rental, or 404. */
    method GetById(id: int) returns (resp: Response<Saved<Rental>>)
      ensures resp.Status() == 404 <==> id !in service.repo.records
      ensures resp.Status() != 404 ==> resp == Ok(Saved(id, service.repo.records[id]))
    {
      var r := service.GetById(id);
      resp := OkOrNotFound(r);
    }

    /** updateAlquiler: 200 with the fully updated rental, or 404 when the
        service returned null (the id was absent). */
    method Update(id: int, details: Rental) returns (resp: Response<Saved<Rental>>)
      requires Valid()
      modifies service.repo
      ensures Valid()
      ensures service.repo.Snapshot() == UpdatedRentals(old(service.repo.Snapshot()), id, details)
      ensures resp.Status() == 404 <==> id !in old(service.repo.records)
      ensures resp.Status() != 404 ==> resp == Ok(Saved(id, details))
    {
      var updated := service.Update(id, details);
      resp := OkOrNotFound(updated);
    }

    /** partialUpdateAlquiler: 404 and no change when the id is absent;
        otherwise the stored rental is merged with details field by field,
        written back through the full update, and answered with 200 carrying
        exactly the merged rental. */
    method PartialUpdate(id: int, details: Rental) returns (resp: Response<Saved<Rental>>)
      requires Valid()
      modifies service.repo
      ensures Valid()
      ensures service.repo.Snapshot() == PatchedRentals(old(service.repo.Snapshot()), id, details)
      ensures resp.Status() == 404 <==> id !in old(service.repo.records)
      ensures resp.Status() == 404 ==> service.repo.Snapshot() == old(service.repo.Snapshot())
      ensures resp.Status() != 404 ==> resp == Ok(Saved(id, PatchedRental(old(service.repo.records)[id], details)))
    {
      var existing := service.GetById(id);
      if existing.None? {
        return NotFound;
      }
      var rental := existing.value.record;
      if details.startDate.Some? {
        rental := rental.(startDate := details.startDate);
      }
      if details.endDate.Some? {
        rental := rental.(endDate := details.endDate);
      }
      if details.finalPrice != 0.0 {
        rental := rental.(finalPrice := details.finalPrice);
      }
      if details.receiptType.Some? {
        rental := rental.(receiptType := details.receiptType);
      }
      var updated := service.Update(id, rental);
      resp := Ok(updated.value);
    }

    /** deleteAlquiler: always 204; afterwards the id is absent. */
    method Delete(id: int) returns (resp: Response<()>)
      requires Valid()
      modifies service.repo
      ensures Valid()
      ensures service.repo.Snapshot() == Deleted(old(service.repo.Snapshot()), id)
      ensures resp == NoContent && resp.Status() == 204
    {
      service.Delete(id);
      resp := NoContent;
    }
  }
}
