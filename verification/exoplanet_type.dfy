/** The planet-type enumeration and its JSON decoder (`types/exoplanetType.go`). */
module ExoplanetTypes {
  import opened Errors

  /** The service declares the type as a string type, so a value can be any
      string: the two named constants, the zero value "" (the field was absent
      from the request) or anything else a caller builds in code. */
  type ExoPlanetType = string

  const GasGiant: ExoPlanetType := "GasGiant"
  const Terrestrial: ExoPlanetType := "Terrestrial"

  /** The parameter name reported when decoding fails. */
  const ExoPlanetParam: string := "ExoPlanet"

  /** One of the two planet types the catalog knows. */
  predicate IsKnown(t: ExoPlanetType) {
    t == GasGiant || t == Terrestrial
  }

  /** The switch `UnmarshalJSON` applies once the JSON text has been decoded
      into the string `s`. The receiver is passed in as `receiver`; the result
      is the receiver's value afterwards together with the returned error. */
  function Unmarshal(receiver: ExoPlanetType, s: string): (r: (ExoPlanetType, Option<Error>))
    ensures r.1 == None <==> IsKnown(s)
    ensures r.1 == None ==> r.0 == s && IsKnown(r.0)
    ensures r.1 != None ==> r.0 == receiver && r.1 == Some(InvalidParam(ExoPlanetParam))
  {
    if s == GasGiant then (GasGiant, None)
    else if s == Terrestrial then (Terrestrial, None)
    else (receiver, Some(InvalidParam(ExoPlanetParam)))
  }

  /** A known type is encoded as its own string, and decoding that string
      gives the same type back whatever the receiver held before. */
  lemma UnmarshalRoundTrip(receiver: ExoPlanetType, t: ExoPlanetType)
    requires IsKnown(t)
    ensures Unmarshal(receiver, t) == (t, None)
  {
  }
}
