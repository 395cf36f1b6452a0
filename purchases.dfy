/** CompraService: the purchase store with create / read / full update /
    partial update (patch) / delete. */
module Purchases {
  import opened Wrappers
  import opened Catalog
  import opened Tables

  /** A Compra without its id (the id is the key it is stored under). */
  datatype Purchase = Purchase(
    movieId: int,
    purchaseDate: Option<Date>,
    totalPrice: real,
    paymentType: Option<string>)

  /** The purchase merge: each field of details replaces the stored one only
      when present, that is the movie id and the price when nonzero, the date
      and the payment type when non-null. */
  function PatchedPurchase(stored: Purchase, details: Purchase): (r: Purchase)
    ensures r.movieId == if details.movieId != 0 then details.movieId else stored.movieId
    ensures r.purchaseDate == if details.purchaseDate.Some? then details.purchaseDate else stored.purchaseDate
    ensures r.totalPrice == if details.totalPrice != 0.0 then details.totalPrice else stored.totalPrice
    ensures r.paymentType == if details.paymentType.Some? then details.paymentType else stored.paymentType
  {
    Purchase(
      if details.movieId != 0 then details.movieId else stored.movieId,
      if details.purchaseDate.Some? then details.purchaseDate else stored.purchaseDate,
      if details.totalPrice != 0.0 then details.totalPrice else stored.totalPrice,
      if details.paymentType.Some? then details.paymentType else stored.paymentType)
  }

  /** The store after createCompra: saved only when the catalog knows the
      movie. */
  function CreatedPurchases(t: Table<Purchase>, catalog: Catalog, draft: Purchase): (u: Table<Purchase>)
    requires WellFormed(t)
    ensures WellFormed(u)
  {
    if Known(catalog, draft.movieId) then Inserted(t, draft) else t
  }

  /** The store after updateCompra. */
  function UpdatedPurchases(t: Table<Purchase>, id: int, details: Purchase): (u: Table<Purchase>)
    requires WellFormed(t)
    ensures WellFormed(u)
  {
    if id in t.records then Replaced(t, id, details) else t
  }

  /** The store after patchCompra. */
  function PatchedPurchases(t: Table<Purchase>, id: int, details: Purchase): (u: Table<Purchase>)
    requires WellFormed(t)
    ensures WellFormed(u)
  {
    if id in t.records then Replaced(t, id, PatchedPurchase(t.records[id], details)) else t
  }

  /** A patch with every field absent (0, null, 0, null) leaves the purchase
      as it was. */
  lemma EmptyPurchasePatch(stored: Purchase)
    ensures PatchedPurchase(stored, Purchase(0, None, 0.0, None)) == stored
  {
  }

  /** Applying the same patch twice is applying it once. */
  lemma PurchasePatchIdempotent(stored: Purchase, details: Purchase)
    ensures PatchedPurchase(PatchedPurchase(stored, details), details) == PatchedPurchase(stored, details)
  {
  }

  /** A zero price in a patch is read as "absent": the stored price is kept,
      so a price of 100 cannot be patched down to 0. */
  lemma ZeroPriceCannotBePatched(stored: Purchase, details: Purchase)
    requires details.totalPrice == 0.0
    ensures PatchedPurchase(stored, details).totalPrice == stored.totalPrice
  {
  }

  /** A patch with every field present acts as the full update. */
  lemma FullPurchasePatchIsUpdate(stored: Purchase, details: Purchase)
    requires details.movieId != 0 && details.purchaseDate.Some?
    requires details.totalPrice != 0.0 && details.paymentType.Some?
    ensures PatchedPurchase(stored, details) == details
  {
  }

  /** Creation depends on the catalog only through the lookup of the draft's
      own movie id. */
  lemma CreateLooksUpOwnMovie(t: Table<Purchase>, c1: Catalog, c2: Catalog, draft: Purchase)
    requires WellFormed(t)
    requires Known(c1, draft.movieId) == Known(c2, draft.movieId)
    ensures CreatedPurchases(t, c1, draft) == CreatedPurchases(t, c2, draft)
  {
  }

  class PurchaseService {
    const repo: Repository<Purchase>
    const catalog: Catalog

    ghost predicate Valid()
      reads this, repo
    {
      repo.Valid()
    }

    constructor (repo: Repository<Purchase>, catalog: Catalog)
      ensures this.repo == repo && this.catalog == catalog
    {
      this.repo := repo;
      this.catalog := catalog;
    }

    /** getAllCompras: every stored purchase, in insertion order. */
    method GetAll() returns (all: seq<Saved<Purchase>>)
      requires Valid()
      ensures |all| == |repo.order|
      ensures forall i :: 0 <= i < |all| ==> all[i].id == repo.order[i] && all[i].record == repo.records[repo.order[i]]
      ensures forall id :: id in repo.records <==> exists i :: 0 <= i < |all| && all[i].id == id
    {
      all := repo.FindAll();
    }

    /** getCompraById: the stored purchase, or empty. */
    method GetById(id: int) returns (r: Option<Saved<Purchase>>)
      ensures r.Some? <==> id in repo.records
      ensures r.Some? ==> r.value == Saved(id, repo.records[id])
    {
      r := repo.FindById(id);
    }

    /** createCompra: fails with nothing saved when the catalog has no such
        movie, otherwise saves the purchase as given under a fresh id. */
    method Create(draft: Purchase) returns (r: Result<Saved<Purchase>, Error>)
      requires Valid()
      modifies repo
      ensures Valid()
      ensures repo.Snapshot() == CreatedPurchases(old(repo.Snapshot()), catalog, draft)
      ensures r.Success? <==> Known(catalog, draft.movieId)
      ensures r.Failure? ==> r.error == MovieNotInCatalog && repo.Snapshot() == old(repo.Snapshot())
      ensures r.Success? ==> r.value.record == draft && r.value.id !in old(repo.records)
      ensures r.Success? ==> repo.records == old(repo.records)[r.value.id := draft]
    {
      var movie := catalog(draft.movieId);
      if movie.None? {
        return Failure(MovieNotInCatalog);
      }
      var saved := repo.Insert(draft);
      r := Success(saved);
    }

    /** updateCompra: an absent id is an error and changes nothing; a stored
        purchase gets all four fields of details unconditionally. */
    method Update(id: int, details: Purchase) returns (r: Result<Saved<Purchase>, Error>)
      requires Valid()
      modifies repo
      ensures Valid()
      ensures repo.Snapshot() == UpdatedPurchases(old(repo.Snapshot()), id, details)
      ensures r.Failure? <==> id !in old(repo.records)
      ensures r.Failure? ==> r.error == PurchaseNotFound && repo.Snapshot() == old(repo.Snapshot())
      ensures r.Success? ==> r.value == Saved(id, details) && repo.records == old(repo.records)[id := details]
    {
      var found := repo.FindById(id);
      if found.None? {
        return Failure(PurchaseNotFound);
      }
      var purchase := found.value.record;
      purchase := purchase.(movieId := details.movieId);
      purchase := purchase.(purchaseDate := details.purchaseDate);
      purchase := purchase.(totalPrice := details.totalPrice);
      purchase := purchase.(paymentType := details.paymentType);
      var saved := repo.Replace(id, purchase);
      r := Success(saved);
    }

    /** patchCompra: an absent id is an error and changes nothing; otherwise
        each present field of details replaces the stored one, and the catalog
        is not asked about a new movie id. */
    method Patch(id: int, details: Purchase) returns (r: Result<Saved<Purchase>, Error>)
      requires Valid()
      modifies repo
      ensures Valid()
      ensures repo.Snapshot() == PatchedPurchases(old(repo.Snapshot()), id, details)
      ensures r.Failure? <==> id !in old(repo.records)
      ensures r.Failure? ==> r.error == PurchaseNotFound && repo.Snapshot() == old(repo.Snapshot())
      ensures r.Success? ==> r.value == Saved(id, PatchedPurchase(old(repo.records)[id], details))
    {
      var found := repo.FindById(id);
      if found.None? {
        return Failure(PurchaseNotFound);
      }
      var purchase := found.value.record;
      if details.movieId != 0 {
        purchase := purchase.(movieId := details.movieId);
      }
      if details.purchaseDate.Some? {
        purchase := purchase.(purchaseDate := details.purchaseDate);
      }
      if details.totalPrice != 0.0 {
        purchase := purchase.(totalPrice := details.totalPrice);
      }
      if details.paymentType.Some? {
        purchase := purchase.(paymentType := details.paymentType);
      }
      var saved := repo.Replace(id, purchase);
      r := Success(saved);
    }

    /** deleteCompra: afterwards id is absent and every other purchase is as
        it was. */
    method Delete(id: int)
      requires Valid()
      modifies repo
      ensures Valid()
      ensures repo.Snapshot() == Deleted(old(repo.Snapshot()), id)
      ensures id !in repo.records
      ensures forall k :: k in old(repo.records) && k != id ==> k in repo.records && repo.records[k] == old(repo.records)[k]
    {
      repo.DeleteById(id);
    }
  }
}
