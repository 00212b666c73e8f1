/** The planet record, the list filter and its constructor (`models/planet.go`). */
module Models {
  import opened Identity
  import opened Errors
  import opened ExoplanetTypes

  /** The two sort keys a filter may carry. */
  const SortByRadius: string := "radius"
  const SortByMass: string := "mass"

  /** The message of the error `NewFilter` returns. */
  const InvalidSortMessage: string := "invalid sort parameter:"

  /** A planet record. Numeric fields are exact reals; a zero number or an
      empty string is how the service recognises a field that was not sent. */
  datatype Planet = Planet(
    id: Id,
    name: string,
    description: string,
    distanceFromEarth: real,
    radius: real,
    mass: real,
    exoplanetType: ExoPlanetType)

  /** The list filter; an empty `sortBy` means "no sorting". */
  datatype Filter = Filter(sortBy: string)

  /** The zero filter, used when no sort key was requested or construction failed. */
  const NoFilter: Filter := Filter("")

  /** A sort key `NewFilter` accepts. */
  predicate IsSortKey(s: string) {
    s == SortByRadius || s == SortByMass
  }

  /** Builds a filter from a requested sort key. Exactly the two sort keys are
      accepted, and every accepted filter carries one of them; any other input,
      the empty string included, yields the zero filter and an error. */
  function NewFilter(sortBy: string): (r: (Filter, Option<Error>))
    ensures r.1 == None <==> IsSortKey(sortBy)
    ensures r.1 == None ==> r.0.sortBy == sortBy && IsSortKey(r.0.sortBy)
    ensures r.1 != None ==> r.0 == NoFilter && r.1 == Some(InvalidSort(InvalidSortMessage))
  {
    if sortBy == "radius" then (Filter(SortByRadius), None)
    else if sortBy == "mass" then (Filter(SortByMass), None)
    else (NoFilter, Some(InvalidSort(InvalidSortMessage)))
  }
}
