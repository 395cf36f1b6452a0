# Movie rentals and purchases: a Dafny model of the service core

This project models the business core of a small Spring service that keeps
two in-memory stores: rentals (`Alquiler`) and purchases (`Compra`). Every
operation on them is modelled: create, read, full update (PUT), partial
update (PATCH) and delete. A record is created only when an external product
catalog (`ProductsFacade.getMovie`) returns a movie for the record's movie id.
A PATCH copies a field only when it is "present": a date or string field when
it is non-null, a price or movie id when it is nonzero.

Names: `Alquiler` is `Rental`, with fields `idPelicula` = `movieId`,
`fechaDesde` = `startDate`, `fechaHasta` = `endDate`,
`precioFinal` = `finalPrice` and `tipoRecibo` = `receiptType`. `Compra` is
`Purchase`, with fields `idPelicula` = `movieId`,
`fechaCompra` = `purchaseDate`, `precioTotal` = `totalPrice` and
`tipoPago` = `paymentType`.

Layout, one module per component:

- `wrappers.dfy` (`Wrappers`): `Option` stands for null / `Optional`, and
  `Result` for a call that may throw. It also holds the date type.
- `catalog.dfy` (`Catalog`): the movie descriptor and the catalog as an oracle
  `int -> Option<Movie>`. `Known` means that `getMovie` returned non-null. The
  two exceptions the services throw are the values of `Error`.
- `tables.dfy` (`Tables`): the repository. `Table` is the abstract value of
  a store: records by id, ids in insertion order, and the next id.
  `Repository<T>` is a class whose methods change that state in place.
- `rentals.dfy` (`Rentals`): `AlquilerService`, as class `RentalService`.
- `rental_api.dfy` (`RentalApi`): `AlquilerController` as class
  `RentalController`. It holds the rental merge, which lives in the controller,
  and the mapping of service results to 200 / 204 / 404.
- `purchases.dfy` (`Purchases`): `CompraService`, as class `PurchaseService`,
  with the purchase merge.
- `lifecycle.dfy` (`Lifecycle`): sequences of requests against each store,
  with lemmas over every such sequence.

Each state-changing method states the new store as a function of the old one:
`CreatedRentals`, `UpdatedRentals`, `PatchedRentals`, `Deleted`, and the
purchase counterparts. The lemmas are about those functions.

Notes on what the code does:

- The rental partial update is done in the controller
  (`AlquilerController.partialUpdateAlquiler`), not in `AlquilerService`.
- The rental merge never changes the movie id, but the purchase merge does.
- `deleteAlquiler` answers 204, although its OpenAPI annotations
  (AlquilerController.java:141-147) list 200 and 400.
- Full update answers not-found differently per entity. For a rental the
  service returns null, which the controller maps to 404. For a purchase
  the service throws.

## Model

| member | source | states |
|---|---|---|
| `Tables.Inserted` | src/main/java/com/laboratorio/operator/service/AlquilerService.java:42 | saving a new entity stores it under an id that was not in use, keeps every other record and keeps the store invariant |
| `Tables.Replaced` | src/main/java/com/laboratorio/operator/service/AlquilerService.java:55 | saving a stored entity replaces only its record; ids, their order and the counter are unchanged |
| `Tables.Deleted` | src/main/java/com/laboratorio/operator/service/AlquilerService.java:61 | after deleteById the id is absent, all other records are kept in their original relative order, and an absent id leaves the store equal to before |
| `Tables.WithoutKeepsOrder` | src/main/java/com/laboratorio/operator/service/AlquilerService.java:61 | removing an id from the insertion order keeps every remaining pair of ids in their original relative order |
| `Tables.DeleteIdempotent` | src/main/java/com/laboratorio/operator/service/AlquilerService.java:60-62 | deleting the same id twice leaves the same store as deleting it once |
| `Tables.Repository.Insert` | src/main/java/com/laboratorio/operator/service/AlquilerService.java:42 | the store becomes `Inserted` of the old one; the returned entity carries the draft and a previously unused id |
| `Tables.Repository.Replace` | src/main/java/com/laboratorio/operator/service/AlquilerService.java:55 | the store becomes `Replaced` of the old one; the returned entity is the saved one |
| `Tables.Repository.DeleteById` | src/main/java/com/laboratorio/operator/service/AlquilerService.java:61 | the store becomes `Deleted` of the old one |
| `Tables.Repository.FindById` | src/main/java/com/laboratorio/operator/service/AlquilerService.java:29 | a pure read: the stored record under the id, or none exactly when the id is absent |
| `Tables.Repository.FindAll` | src/main/java/com/laboratorio/operator/service/AlquilerService.java:25 | a pure read: every stored record exactly once, paired with its id, in insertion order |
| `Rentals.CreatedRentals` | src/main/java/com/laboratorio/operator/service/AlquilerService.java:32-43 | the store after createAlquiler keeps the store invariant |
| `Rentals.UpdatedRentals` | src/main/java/com/laboratorio/operator/service/AlquilerService.java:45-58 | the store after updateAlquiler keeps the store invariant |
| `Rentals.CreateLooksUpOwnMovie` | src/main/java/com/laboratorio/operator/service/AlquilerService.java:33-35 | creation depends on the catalog only through the lookup of the rental's own movie id |
| `Rentals.RentalService.GetAll` | src/main/java/com/laboratorio/operator/service/AlquilerService.java:24-26 | a pure read returning every stored rental with its id, in insertion order |
| `Rentals.RentalService.GetById` | src/main/java/com/laboratorio/operator/service/AlquilerService.java:28-30 | a pure read: the stored rental, empty exactly when the id is absent |
| `Rentals.RentalService.Create` | src/main/java/com/laboratorio/operator/service/AlquilerService.java:32-43 | succeeds exactly when the catalog knows the rental's movie id. On failure the error is movie-not-in-catalog and the store is unchanged. On success the rental is saved unchanged under a fresh id and nothing else changes |
| `Rentals.RentalService.Update` | src/main/java/com/laboratorio/operator/service/AlquilerService.java:45-58 | an absent id returns null and changes nothing. A present id gets all five fields of the replacement, null and zero included, and the catalog is not asked. Other records are untouched |
| `Rentals.RentalService.Delete` | src/main/java/com/laboratorio/operator/service/AlquilerService.java:60-62 | afterwards the id is absent and every other rental is unchanged |
| `RentalApi.OkOrNotFound` | src/main/java/com/laboratorio/operator/controller/AlquilerController.java:50-51 | an empty or null service result is 404; a present one is 200 carrying exactly that result |
| `RentalApi.PatchedRental` | src/main/java/com/laboratorio/operator/controller/AlquilerController.java:115-126 | start date, end date and receipt type come from the patch when non-null, final price when nonzero, otherwise from the stored rental; the movie id is always the stored one |
| `RentalApi.PatchedRentals` | src/main/java/com/laboratorio/operator/controller/AlquilerController.java:108-130 | the store after partialUpdateAlquiler keeps the store invariant |
| `RentalApi.EmptyRentalPatch` | src/main/java/com/laboratorio/operator/controller/AlquilerController.java:115-126 | a patch with null dates, zero price and null receipt type leaves the rental unchanged, whatever movie id it carries |
| `RentalApi.RentalPatchIdempotent` | src/main/java/com/laboratorio/operator/controller/AlquilerController.java:115-126 | applying the same rental patch twice equals applying it once |
| `RentalApi.FullRentalPatchIsUpdate` | src/main/java/com/laboratorio/operator/controller/AlquilerController.java:115-128 | a patch with all four patchable fields present equals a full update that keeps the stored movie id |
| `RentalApi.RentalController.GetById` | src/main/java/com/laboratorio/operator/controller/AlquilerController.java:49-52 | 404 exactly when the id is absent, otherwise 200 with the stored rental |
| `RentalApi.RentalController.Update` | src/main/java/com/laboratorio/operator/controller/AlquilerController.java:86-90 | 404 exactly when the id was absent, otherwise 200 with the fully updated rental; the store changes as in the service update |
| `RentalApi.RentalController.PartialUpdate` | src/main/java/com/laboratorio/operator/controller/AlquilerController.java:108-130 | an absent id gives 404 and no change. Otherwise the merged rental is written back through the full update, and the answer is 200 with exactly the merged rental |
| `RentalApi.RentalController.Delete` | src/main/java/com/laboratorio/operator/controller/AlquilerController.java:148-151 | always 204; the store becomes `Deleted` of the old one |
| `Purchases.PatchedPurchase` | src/main/java/com/laboratorio/operator/service/CompraService.java:53-64 | each field comes from the patch only when present: movie id and price when nonzero, date and payment type when non-null. Otherwise the stored value is kept |
| `Purchases.CreatedPurchases` | src/main/java/com/laboratorio/operator/service/CompraService.java:28-40 | the store after createCompra keeps the store invariant |
| `Purchases.UpdatedPurchases` | src/main/java/com/laboratorio/operator/service/CompraService.java:42-49 | the store after updateCompra keeps the store invariant |
| `Purchases.PatchedPurchases` | src/main/java/com/laboratorio/operator/service/CompraService.java:51-66 | the store after patchCompra keeps the store invariant |
| `Purchases.EmptyPurchasePatch` | src/main/java/com/laboratorio/operator/service/CompraService.java:51-66 | a patch (0, null, 0, null) leaves the purchase unchanged |
| `Purchases.PurchasePatchIdempotent` | src/main/java/com/laboratorio/operator/service/CompraService.java:51-66 | applying the same purchase patch twice equals applying it once |
| `Purchases.ZeroPriceCannotBePatched` | src/main/java/com/laboratorio/operator/service/CompraService.java:59-61 | a patch with price 0 keeps whatever price is stored, so a stored price of 100 stays 100 |
| `Purchases.FullPurchasePatchIsUpdate` | src/main/java/com/laboratorio/operator/service/CompraService.java:42-66 | a patch with every field present gives the same purchase as the full update |
| `Purchases.CreateLooksUpOwnMovie` | src/main/java/com/laboratorio/operator/service/CompraService.java:30-32 | creation depends on the catalog only through the lookup of the purchase's own movie id |
| `Purchases.PurchaseService.GetAll` | src/main/java/com/laboratorio/operator/service/CompraService.java:20-22 | a pure read returning every stored purchase with its id, in insertion order |
| `Purchases.PurchaseService.GetById` | src/main/java/com/laboratorio/operator/service/CompraService.java:24-26 | a pure read: the stored purchase, empty exactly when the id is absent |
| `Purchases.PurchaseService.Create` | src/main/java/com/laboratorio/operator/service/CompraService.java:28-40 | succeeds exactly when the catalog knows the movie id. On failure the error is movie-not-in-catalog and nothing is saved. On success the purchase is saved unchanged under a fresh id |
| `Purchases.PurchaseService.Update` | src/main/java/com/laboratorio/operator/service/CompraService.java:42-49 | an absent id is the purchase-not-found error and changes nothing. A present id gets movie id, date, price and payment type unconditionally |
| `Purchases.PurchaseService.Patch` | src/main/java/com/laboratorio/operator/service/CompraService.java:51-66 | an absent id is the purchase-not-found error and changes nothing. Otherwise the stored purchase becomes its merge with the patch, and the catalog is not asked |
| `Purchases.PurchaseService.Delete` | src/main/java/com/laboratorio/operator/service/CompraService.java:68-70 | afterwards the id is absent and every other purchase is unchanged |
| `Lifecycle.RentalStep` | src/main/java/com/laboratorio/operator/controller/AlquilerController.java:108-130 | every rental request (POST, PUT, PATCH, DELETE) keeps the store invariant |
| `Lifecycle.RunRentals` | src/main/java/com/laboratorio/operator/service/AlquilerService.java:32-62 | any sequence of rental requests keeps the store invariant |
| `Lifecycle.PurchaseStep` | src/main/java/com/laboratorio/operator/service/CompraService.java:28-70 | every purchase request keeps the store invariant |
| `Lifecycle.RunPurchases` | src/main/java/com/laboratorio/operator/service/CompraService.java:28-70 | any sequence of purchase requests keeps the store invariant |
| `Lifecycle.RentalsAskCatalogOnlyOnCreate` | src/main/java/com/laboratorio/operator/service/AlquilerService.java:32-62 | two catalogs that agree on the movie of every creation give the same rental store for any request sequence: nothing but creation consults the catalog |
| `Lifecycle.PurchasesAskCatalogOnlyOnCreate` | src/main/java/com/laboratorio/operator/service/CompraService.java:28-70 | the same for purchases: update and patch never consult the catalog |
| `Lifecycle.RentalMoviesStayKnown` | src/main/java/com/laboratorio/operator/controller/AlquilerController.java:115-128 | if every stored rental's movie is known, it stays so across creations, patches, deletes and PUTs of known movies: the rental patch never changes the movie id |
| `Lifecycle.PurchaseMoviesStayKnown` | src/main/java/com/laboratorio/operator/service/CompraService.java:51-66 | every stored purchase's movie stays known across creations, deletes, PUTs of known movies, and PATCHes whose movie id is 0 or known |
| `Lifecycle.PutRentalSkipsCatalog` | src/main/java/com/laboratorio/operator/service/AlquilerService.java:45-58 | a PUT naming a movie the catalog does not know is accepted, leaving a rental with an unknown movie |
| `Lifecycle.PurchaseChangesSkipCatalog` | src/main/java/com/laboratorio/operator/service/CompraService.java:42-66 | a PUT, or a PATCH with a nonzero movie id, naming an unknown movie is accepted, leaving a purchase with an unknown movie |

## Left out

- HTTP transport and Spring wiring are not modelled: routing, dependency
  injection, the OpenAPI annotations and `ResponseEntity` construction. Only
  the status outcome (200, 204, 404) of the rental controller is kept.
  Rejecting a malformed body with 400 is framework behaviour and is not
  modelled either.
- The rental controller's `getAllAlquileres` and `createAlquiler` only pass
  the call through, so the service method stands for them.
- `CompraController` is left out. It maps the purchase service's results
  to statuses the same way the rental controller does: `getCompraById`
  maps an empty result to 404, `updateCompra` and `patchCompra` wrap the
  result in 200, and `deleteCompra` answers 204. A service exception
  surfaces there as a server error, which is not modelled.
- `ProductsFacade.getMovie` is an oracle. The network request, the URL
  template, `String.valueOf` of the id and the logging are not modelled.
  Every caught failure returns null, so all failures are indistinguishable
  from an unknown movie.
- `MovieDto` is kept as a descriptor datatype. Only whether one came back is
  ever used.
- The repositories' code is not part of this model. A store is assumed to be
  a map with ids in insertion order and a counter that starts at 1 and hands
  out unused ids. `deleteById` of an absent id is assumed to be a no-op.
  `save` of a stored entity is assumed to replace it.
- A draft's own id is not modelled. The model assumes that a created record
  always gets a fresh id. Saving a request body that already carries an id
  would, in a Spring Data repository, merge it into the record under that
  id. That overwrite case is not modelled.
- Entity aliasing is not modelled. Records are values, so the in-place setter
  calls on the object a repository hands out become updates of a local value
  that is then saved.
- The catalog is treated as one snapshot whose answers do not change
  between requests. Each service holds one catalog, and each `Lifecycle`
  request sequence runs against one catalog. In the program every
  `getMovie` is a fresh network call, and any failure becomes null, so a
  movie id known on one request may be unknown on the next. Hence
  `Lifecycle.RentalMoviesStayKnown` and `Lifecycle.PurchaseMoviesStayKnown`
  hold only against that one snapshot. They do not say that a movie that
  was validated at creation is still known later.
- Concurrency is not modelled. Requests run one at a time. So the
  partial-update race is not modelled either: there, a rental deleted between
  the lookup and the full update makes `partialUpdateAlquiler` answer 200
  with a null body.
- Prices are exact `real`s. The Java `double` cases `-0.0` and `NaN` are
  not modelled (`-0.0` equals zero there, and `NaN` is nonzero).
- Movie ids are integers that are never null. A null boxed id would make the
  purchase patch's `!= 0` test throw; that is not modelled.
