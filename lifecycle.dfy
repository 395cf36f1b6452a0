/** Sequences of requests against each store, and what holds over all of
    them: only creation consults the catalog, and which requests keep every
    stored movie id known to the catalog. */
module Lifecycle {
  import opened Wrappers
  import opened Catalog
  import opened Tables
  import opened Rentals
  import opened RentalApi
  import opened Purchases

  /** The state-changing rental requests: POST, PUT, PATCH, DELETE. */
  datatype RentalRequest =
    | CreateRental(draft: Rental)
    | PutRental(id: int, details: Rental)
    | PatchRental(id: int, details: Rental)
    | DeleteRental(id: int)

  /** The state-changing purchase requests: POST, PUT, PATCH, DELETE. */
  datatype PurchaseRequest =
    | CreatePurchase(draft: Purchase)
    | PutPurchase(id: int, details: Purchase)
    | PatchPurchase(id: int, details: Purchase)
    | DeletePurchase(id: int)

  function RentalStep(t: Table<Rental>, catalog: Catalog, q: RentalRequest): (u: Table<Rental>)
    requires WellFormed(t)
    ensures WellFormed(u)
  {
    match q
    case CreateRental(d) => CreatedRentals(t, catalog, d)
    case PutRental(id, d) => UpdatedRentals(t, id, d)
    case PatchRental(id, d) => PatchedRentals(t, id, d)
    case DeleteRental(id) => Deleted(t, id)
  }

  /** The rental store after the requests qs, one after the other. */
  function RunRentals(t: Table<Rental>, catalog: Catalog, qs: seq<RentalRequest>): (u: Table<Rental>)
    requires WellFormed(t)
    ensures WellFormed(u)
    decreases |qs|
  {
    if qs == [] then t else RunRentals(RentalStep(t, catalog, qs[0]), catalog, qs[1..])
  }

  function PurchaseStep(t: Table<Purchase>, catalog: Catalog, q: PurchaseRequest): (u: Table<Purchase>)
    requires WellFormed(t)
    ensures WellFormed(u)
  {
    match q
    case CreatePurchase(d) => CreatedPurchases(t, catalog, d)
    case PutPurchase(id, d) => UpdatedPurchases(t, id, d)
    case PatchPurchase(id, d) => PatchedPurchases(t, id, d)
    case DeletePurchase(id) => Deleted(t, id)
  }

  /** The purchase store after the requests qs, one after the other. */
  function RunPurchases(t: Table<Purchase>, catalog: Catalog, qs: seq<PurchaseRequest>): (u: Table<Purchase>)
    requires WellFormed(t)
    ensures WellFormed(u)
    decreases |qs|
  {
    if qs == [] then t else RunPurchases(PurchaseStep(t, catalog, qs[0]), catalog, qs[1..])
  }

  /** Every stored rental names a movie the catalog knows. */
  ghost predicate RentalMoviesKnown(t: Table<Rental>, catalog: Catalog)
  {
    forall id :: id in t.records ==> Known(catalog, t.records[id].movieId)
  }

  /** Every stored purchase names a movie the catalog knows. */
  ghost predicate PurchaseMoviesKnown(t: Table<Purchase>, catalog: Catalog)
  {
    forall id :: id in t.records ==> Known(catalog, t.records[id].movieId)
  }

  /** Two catalogs that answer alike for the movie of every creation request
      lead to the same rental store: updates, patches and deletes never ask
      the catalog. */
  lemma {:induction false} RentalsAskCatalogOnlyOnCreate(t: Table<Rental>, c1: Catalog, c2: Catalog, qs: seq<RentalRequest>)
    requires WellFormed(t)
    requires forall i :: 0 <= i < |qs| && qs[i].CreateRental? ==> Known(c1, qs[i].draft.movieId) == Known(c2, qs[i].draft.movieId)
    ensures RunRentals(t, c1, qs) == RunRentals(t, c2, qs)
    decreases |qs|
  {
    if qs != [] {
      assert RentalStep(t, c1, qs[0]) == RentalStep(t, c2, qs[0]);
      forall i | 0 <= i < |qs[1..]| && qs[1..][i].CreateRental?
        ensures Known(c1, qs[1..][i].draft.movieId) == Known(c2, qs[1..][i].draft.movieId)
      {
        assert qs[1..][i] == qs[i + 1];
      }
      RentalsAskCatalogOnlyOnCreate(RentalStep(t, c1, qs[0]), c1, c2, qs[1..]);
    }
  }

  /** The same for purchases. */
  lemma {:induction false} PurchasesAskCatalogOnlyOnCreate(t: Table<Purchase>, c1: Catalog, c2: Catalog, qs: seq<PurchaseRequest>)
    requires WellFormed(t)
    requires forall i :: 0 <= i < |qs| && qs[i].CreatePurchase? ==> Known(c1, qs[i].draft.movieId) == Known(c2, qs[i].draft.movieId)
    ensures RunPurchases(t, c1, qs) == RunPurchases(t, c2, qs)
    decreases |qs|
  {
    if qs != [] {
      assert PurchaseStep(t, c1, qs[0]) == PurchaseStep(t, c2, qs[0]);
      forall i | 0 <= i < |qs[1..]| && qs[1..][i].CreatePurchase?
        ensures Known(c1, qs[1..][i].draft.movieId) == Known(c2, qs[1..][i].draft.movieId)
      {
        assert qs[1..][i] == qs[i + 1];
      }
      PurchasesAskCatalogOnlyOnCreate(PurchaseStep(t, c1, qs[0]), c1, c2, qs[1..]);
    }
  }

  /** Creation, patch and delete keep every stored rental's movie known:
      the rental patch never touches the movie id. Only a PUT naming an
      unknown movie can break it. */
  lemma {:induction false} RentalMoviesStayKnown(t: Table<Rental>, c: Catalog, qs: seq<RentalRequest>)
    requires WellFormed(t) && RentalMoviesKnown(t, c)
    requires forall i :: 0 <= i < |qs| && qs[i].PutRental? ==> Known(c, qs[i].details.movieId)
    ensures RentalMoviesKnown(RunRentals(t, c, qs), c)
    decreases |qs|
  {
    if qs != [] {
      var u := RentalStep(t, c, qs[0]);
      assert RentalMoviesKnown(u, c) by {
        forall id | id in u.records ensures Known(c, u.records[id].movieId) {
          match qs[0]
          case CreateRental(d) =>
          case PutRental(k, d) =>
          case PatchRental(k, d) =>
            if id == k && k in t.records {
              assert u.records[id].movieId == t.records[k].movieId;
            }
          case DeleteRental(k) =>
        }
      }
      forall i | 0 <= i < |qs[1..]| && qs[1..][i].PutRental?
        ensures Known(c, qs[1..][i].details.movieId)
      {
        assert qs[1..][i] == qs[i + 1];
      }
      RentalMoviesStayKnown(u, c, qs[1..]);
    }
  }

  /** Creation and delete keep every stored purchase's movie known, and so do
      a PUT naming a known movie and a PATCH whose movie id is 0 or known. */
  lemma {:induction false} PurchaseMoviesStayKnown(t: Table<Purchase>, c: Catalog, qs: seq<PurchaseRequest>)
    requires WellFormed(t) && PurchaseMoviesKnown(t, c)
    requires forall i :: 0 <= i < |qs| && qs[i].PutPurchase? ==> Known(c, qs[i].details.movieId)
    requires forall i :: 0 <= i < |qs| && qs[i].PatchPurchase? ==> qs[i].details.movieId == 0 || Known(c, qs[i].details.movieId)
    ensures PurchaseMoviesKnown(RunPurchases(t, c, qs), c)
    decreases |qs|
  {
    if qs != [] {
      var u := PurchaseStep(t, c, qs[0]);
      assert PurchaseMoviesKnown(u, c) by {
        forall id | id in u.records ensures Known(c, u.records[id].movieId) {
          match qs[0]
          case CreatePurchase(d) =>
          case PutPurchase(k, d) =>
          case PatchPurchase(k, d) =>
          case DeletePurchase(k) =>
        }
      }
      forall i | 0 <= i < |qs[1..]|
        ensures qs[1..][i].PutPurchase? ==> Known(c, qs[1..][i].details.movieId)
        ensures qs[1..][i].PatchPurchase? ==> qs[1..][i].details.movieId == 0 || Known(c, qs[1..][i].details.movieId)
      {
        assert qs[1..][i] == qs[i + 1];
      }
      PurchaseMoviesStayKnown(u, c, qs[1..]);
    }
  }

  /** A PUT is accepted for a movie the catalog does not know: the rental
      store then holds a rental whose movie is unknown. */
  lemma PutRentalSkipsCatalog(t: Table<Rental>, c: Catalog, id: int, details: Rental)
    requires WellFormed(t) && id in t.records && !Known(c, details.movieId)
    ensures !RentalMoviesKnown(RentalStep(t, c, PutRental(id, details)), c)
  {
    assert RentalStep(t, c, PutRental(id, details)).records[id] == details;
  }

  /** A PUT or a PATCH with a nonzero movie id is accepted for a movie the
      catalog does not know. */
  lemma PurchaseChangesSkipCatalog(t: Table<Purchase>, c: Catalog, id: int, details: Purchase)
    requires WellFormed(t) && id in t.records && details.movieId != 0 && !Known(c, details.movieId)
    ensures !PurchaseMoviesKnown(PurchaseStep(t, c, PutPurchase(id, details)), c)
    ensures !PurchaseMoviesKnown(PurchaseStep(t, c, PatchPurchase(id, details)), c)
  {
    assert PurchaseStep(t, c, PutPurchase(id, details)).records[id].movieId == details.movieId;
    assert PurchaseStep(t, c, PatchPurchase(id, details)).records[id].movieId == details.movieId;
  }
}
