/** The external product catalog (ProductsFacade.getMovie) and the errors the
    services raise. The network call is not modelled: the catalog is an oracle
    from movie ids to an optional descriptor, and every transport failure, 4xx
    and 5xx answer the facade catches shows up here as None. */
module Catalog {
  import opened Wrappers

  /** The movie descriptor returned by the catalog. Only whether one came back
      is ever consulted by the services. */
  datatype Movie = Movie(
    name: Option<string>,
    description: Option<string>,
    img: Option<string>,
    rented: Option<bool>,
    year: Option<int>,
    video: Option<string>,
    director: Option<string>,
    price: Option<int>)

  /** The catalog lookup, keyed by movie id. */
  type Catalog = int -> Option<Movie>

  /** The lookup for movieId returned a descriptor (getMovie was non-null). */
  predicate Known(catalog: Catalog, movieId: int)
  {
    catalog(movieId).Some?
  }

  /** The two RuntimeExceptions thrown by the services. */
  datatype Error =
    | MovieNotInCatalog   // create: the catalog returned no movie
    | PurchaseNotFound    // update / patch of a purchase: no such id
}
