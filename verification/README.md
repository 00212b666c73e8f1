# Exoplanet catalog — domain layer model

A Dafny model of the domain layer of a small exoplanet catalog service. The
service keeps planet records in an in-memory map keyed by identifier and
offers create, read, list (optionally sorted), update, delete and a fuel
estimate. Before any write it runs two checks: a mandatory-field check that
treats zero numbers and empty strings as "not supplied", and a set of range
and consistency rules. Listing can sort all planets by radius, or keep only
Terrestrial planets and sort them by mass. A list filter is built from a
requested sort key, and the planet type is decoded from JSON by a switch that
accepts exactly two names.

Modules (one per concern of the source):

- `Identity` — planet identifiers (`Id`, standing for a UUID).
- `Errors` — the error kinds, and `Option`/`Result` for Go's `error` and `(*T, error)` returns.
- `ExoplanetTypes` — the planet-type string type, its two constants and the decoder switch.
- `Models` — the `Planet` record, the `Filter`, the sort-key constants and `NewFilter`.
- `Validation` — `CheckMandatory`, `ValidatePlanet` and the combined `Admit` check.
- `Sorting` — ascending sorts on radius or mass, and what any sorted permutation must look like.
- `Service` — the store as a `map<Id, Planet>` threaded through pure functions, the listing
  method, and sequences of write requests.
- `Scenarios` — concrete documented cases stated over the model.

Each write returns its error (`None` for success) together with the store
afterwards, so "the store is unchanged" and "only this key changed" are plain
equalities in the contracts. The store invariant `Consistent` (every record
sits under its own identifier and passed the checks) is preserved by every
write and by any sequence of writes from the empty catalog.

Where the documentation and the code differ, the model follows the code:

- The service compares the planet type against string literals only, so a
  record whose type is some third string passes both checks (mass is then
  unconstrained). Only the JSON decoder rejects such strings; the model keeps
  `ExoPlanetType` a string so this stays visible.
- The mandatory-field error for an empty type names the parameter `exoPlanetData`.
- `GetAll` handed a filter whose sort key is neither `radius` nor `mass`
  (possible only by building the filter directly, since `NewFilter` refuses
  it) returns every planet unsorted rather than failing.

## Model

| member | source | states |
|---|---|---|
| ExoplanetTypes.Unmarshal | types/exoplanetType.go:24-34 | decoding succeeds exactly for "GasGiant" and "Terrestrial" and then yields that type; any other string, "" included, gives InvalidParam("ExoPlanet") and leaves the receiver as it was |
| ExoplanetTypes.UnmarshalRoundTrip | types/exoplanetType.go:9-14 | a known type, written as its own string, decodes back to itself with no error whatever the receiver held |
| Models.NewFilter | models/planet.go:30-42 | a filter is built exactly for "radius" and "mass" and carries that key; every other input, "" included, yields the zero filter and the invalid-sort error |
| Validation.CheckMandatory | service/service.go:159-185 | no error exactly when no field is missing; otherwise the error names the first missing field in the order name, description, distanceFromEarth, radius, exoPlanetData, mass |
| Validation.MassMandatoryOnlyForTerrestrial | service/service.go:180-182 | with the other fields present, a Terrestrial planet is reported missing "mass" exactly when its mass is zero, while a GasGiant with zero mass passes |
| Validation.ValidatePlanet | service/service.go:188-206 | no error exactly when 10 ≤ distance ≤ 1000, 0.1 ≤ radius ≤ 10, Terrestrial implies 0.1 ≤ mass ≤ 10 and GasGiant implies mass = 0; otherwise the message of the first failing rule in the order distance, Terrestrial mass, radius, GasGiant mass |
| Validation.Admit | service/service.go:28-37 | the mandatory check's error wins; the range rules run only on a complete record; no error exactly when the record is complete and within range |
| Service.Create | service/service.go:26-46 | succeeds exactly for admissible input, returning and storing the input with only its identifier replaced by the generated one; a fresh identifier adds exactly one entry and changes no other; a rejected input leaves the store unchanged; consistency is preserved |
| Service.GetByID | service/service.go:49-57 | returns the stored record exactly when the identifier is present, and NotFound for that identifier otherwise |
| Service.Update | service/service.go:98-121 | an unknown identifier gives NotFound before any check and changes nothing; otherwise the checks' first error changes nothing, and success replaces only that key's record by the supplied one; the key set never changes; consistency is preserved |
| Service.Delete | service/service.go:147-156 | removes exactly the given key when present; an absent key gives NotFound and changes nothing; every remaining record is untouched; consistency is preserved |
| Service.GetByEstimation | service/service.go:124-129 | NotFound exactly when the identifier is absent; otherwise the estimate of the stored record for the given crew capacity |
| Service.CreateThenGet | service/service.go:39-57 | reading back a created planet gives the input with the generated identifier |
| Service.FailedCreateChangesNothing | service/service.go:28-37 | after a rejected creation every lookup answers as before |
| Service.DeleteThenGet | service/service.go:147-156 | after a deletion the identifier is not found and every other lookup answers as before |
| Service.UpdateThenGet | service/service.go:117-120 | after a successful update the lookup returns the supplied record |
| Service.CollectValues | service/service.go:62-68 | walking the map in any order yields each stored record once per identifier |
| Service.KeepTerrestrial | service/service.go:80-85 | the kept list holds exactly the Terrestrial records of the input, with their multiplicities |
| Service.GetAll | service/service.go:61-95 | under the mass filter: exactly the stored Terrestrial planets, nondecreasing in mass; otherwise: exactly the stored planets, nondecreasing in radius under the radius filter and in any order without one |
| Service.ListingHoldsEveryPlanet | service/service.go:63-77 | an unsorted or radius-sorted listing has one entry per identifier and contains a planet exactly when it is stored |
| Service.MassListingIsTerrestrial | service/service.go:78-90 | a mass listing contains only Terrestrial planets, and every stored Terrestrial planet |
| Service.ListingKeysDetermined | service/service.go:73-90 | two listings of one store under a sorting filter carry the same key at every position: map order and the unstable sort can only permute planets with equal keys |
| Service.RunKeepsConsistent | service/service.go:16 | no sequence of create, update and delete requests breaks the store invariant |
| Service.ReachableStoresAreConsistent | service/service.go:16 | from the empty catalog, every stored record sits under its own identifier and passed both checks |
| Sorting.InsertSorted | service/service.go:75-77 | inserting into a sorted list gives a sorted list holding the old elements plus the new one |
| Sorting.SortBy | service/service.go:87-89 | the result is a permutation of the input, nondecreasing on the key |
| Sorting.SortedKeysDetermined | service/service.go:75-77 | any two sorted permutations of the same planets agree on the key at every position |
| Scenarios.TooCloseIsRejected | service/service.go:189-191 | a planet at distance 5 is rejected with the distance message and nothing is stored |
| Scenarios.MassiveGasGiantIsRejected | service/service.go:201-203 | a GasGiant with non-zero mass is rejected with the GasGiant message and nothing is stored |
| Scenarios.MasslessTerrestrialIsIncomplete | service/service.go:180-182 | a Terrestrial planet with zero mass is rejected as missing "mass" |
| Scenarios.MixedListedByMass | service/service.go:78-90 | listing Terrestrial planets of mass 5, 2, 8 and one GasGiant by mass yields masses 2, 5, 8 and omits the GasGiant |

## Left out

- The fuel formula of `GetByEstimation` (service/service.go:131-143): floating-point `math.Pow` and an unguarded division by the crew capacity; the model takes the estimate as a function parameter and keeps only the lookup.
- Identifier generation (`uuid.New`): `Create` receives the new identifier as a parameter; freshness is stated as a condition in its contract rather than assumed.
- JSON decoding itself (`json.Unmarshal` into a string): only the switch on the decoded string is modelled.
- Floating point: numeric fields are exact reals, so NaN and infinities do not exist in the model. In the service a NaN distance or radius would pass both checks, since every comparison with NaN is false; JSON cannot carry NaN, so this is unreachable through requests.
- Error messages and HTTP status codes (`customError.Error`, `StatusCode`): errors are a tagged datatype.
- Concurrency: the service's map is shared without a lock; the model is single-threaded.
- The HTTP handlers (`handler/handler.go`), the service interface (`handler/interfaces.go`) and route wiring (`main.go`): transport glue that only forwards to the service.
- Service.GetAll: the order among planets with equal keys, and the order of the unsorted listing, are left unspecified, as the map walk and `sort.Slice` leave them; the contract fixes contents and key order only.
