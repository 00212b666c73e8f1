/** The two checks every write runs before touching the store
    (`checkMandatory` and `validatePlanet` in `service/service.go`). Both
    report only the first rule that fails, in a fixed order. */
module Validation {
  import opened Errors
  import opened ExoplanetTypes
  import opened Models

  // ---------------------------------------------------------------------
  // Mandatory fields
  // ---------------------------------------------------------------------

  /** The fields `checkMandatory` inspects. */
  datatype Field = Name | Description | DistanceFromEarth | Radius | ExoplanetData | Mass

  /** The order in which fields are checked. */
  const MandatoryOrder: seq<Field> := [Name, Description, DistanceFromEarth, Radius, ExoplanetData, Mass]

  /** The parameter name reported for a missing field. */
  function ParamName(f: Field): string {
    match f
    case Name => "name"
    case Description => "description"
    case DistanceFromEarth => "distanceFromEarth"
    case Radius => "radius"
    case ExoplanetData => "exoPlanetData"
    case Mass => "mass"
  }

  /** Whether a field counts as not supplied: an empty string or a zero number.
      Mass is demanded of Terrestrial planets only. */
  predicate IsMissing(p: Planet, f: Field) {
    match f
    case Name => p.name == ""
    case Description => p.description == ""
    case DistanceFromEarth => p.distanceFromEarth == 0.0
    case Radius => p.radius == 0.0
    case ExoplanetData => p.exoplanetType == ""
    case Mass => p.mass == 0.0 && p.exoplanetType == Terrestrial
  }

  /** The `i`-th field in check order is missing and no earlier one is. */
  predicate FirstMissingAt(p: Planet, i: int) {
    && 0 <= i < |MandatoryOrder|
    && IsMissing(p, MandatoryOrder[i])
    && forall j :: 0 <= j < i ==> !IsMissing(p, MandatoryOrder[j])
  }

  /** Reports the first missing field in check order, or `None` when every
      mandatory field is present. */
  function CheckMandatory(p: Planet): (r: Option<Error>)
    ensures r == None <==> forall i :: 0 <= i < |MandatoryOrder| ==> !IsMissing(p, MandatoryOrder[i])
    ensures r != None ==>
      exists i :: FirstMissingAt(p, i) && r == Some(MissingParam(ParamName(MandatoryOrder[i])))
  {
    if p.name == "" then
      assert FirstMissingAt(p, 0);
      Some(MissingParam(ParamName(Name)))
    else if p.description == "" then
      assert FirstMissingAt(p, 1);
      Some(MissingParam(ParamName(Description)))
    else if p.distanceFromEarth == 0.0 then
      assert FirstMissingAt(p, 2);
      Some(MissingParam(ParamName(DistanceFromEarth)))
    else if p.radius == 0.0 then
      assert FirstMissingAt(p, 3);
      Some(MissingParam(ParamName(Radius)))
    else if p.exoplanetType == "" then
      assert FirstMissingAt(p, 4);
      Some(MissingParam(ParamName(ExoplanetData)))
    else if p.mass == 0.0 && p.exoplanetType == "Terrestrial" then
      assert FirstMissingAt(p, 5);
      Some(MissingParam(ParamName(Mass)))
    else
      None
  }

  /** Only one field can be the first missing one. */
  lemma FirstMissingUnique(p: Planet, i: int, j: int)
    requires FirstMissingAt(p, i) && FirstMissingAt(p, j)
    ensures i == j
  {
  }

  /** A Terrestrial planet whose other fields are present is missing its mass
      exactly when the mass is zero, while a zero mass never makes a GasGiant
      incomplete. */
  lemma MassMandatoryOnlyForTerrestrial(p: Planet)
    requires p.name != "" && p.description != ""
    requires p.distanceFromEarth != 0.0 && p.radius != 0.0
    requires p.exoplanetType == Terrestrial || p.exoplanetType == GasGiant
    ensures p.exoplanetType == Terrestrial ==>
      (CheckMandatory(p) == Some(MissingParam("mass")) <==> p.mass == 0.0)
    ensures p.exoplanetType == GasGiant ==> CheckMandatory(p) == None
  {
  }

  // ---------------------------------------------------------------------
  // Range and consistency rules
  // ---------------------------------------------------------------------

  /** The rules `validatePlanet` applies. */
  datatype Rule = DistanceRange | TerrestrialMassRange | RadiusRange | GasGiantMassless

  /** The order in which rules are applied. */
  const RuleOrder: seq<Rule> := [DistanceRange, TerrestrialMassRange, RadiusRange, GasGiantMassless]

  /** The message reported when a rule fails. */
  function RuleMessage(rule: Rule): string {
    match rule
    case DistanceRange => "distance must be between 10 and 1000 light years"
    case TerrestrialMassRange => "mass must be between 0.1 and 10 Earth-Mass units"
    case RadiusRange => "radius must be between 0.1 and 10 Earth-radius units"
    case GasGiantMassless => "mass exist only in the terrestrial ExoPlanet"
  }

  /** Whether the planet breaks a rule. */
  predicate Violates(p: Planet, rule: Rule) {
    match rule
    case DistanceRange => p.distanceFromEarth < 10.0 || p.distanceFromEarth > 1000.0
    case TerrestrialMassRange => p.exoplanetType == Terrestrial && (p.mass < 0.1 || p.mass > 10.0)
    case RadiusRange => p.radius < 0.1 || p.radius > 10.0
    case GasGiantMassless => p.exoplanetType == GasGiant && p.mass != 0.0
  }

  /** The `i`-th rule in order fails and no earlier one does. */
  predicate FirstViolationAt(p: Planet, i: int) {
    && 0 <= i < |RuleOrder|
    && Violates(p, RuleOrder[i])
    && forall j :: 0 <= j < i ==> !Violates(p, RuleOrder[j])
  }

  /** The physical ranges a stored planet must lie in, stated positively. */
  predicate WithinRanges(p: Planet) {
    && 10.0 <= p.distanceFromEarth <= 1000.0
    && 0.1 <= p.radius <= 10.0
    && (p.exoplanetType == Terrestrial ==> 0.1 <= p.mass <= 10.0)
    && (p.exoplanetType == GasGiant ==> p.mass == 0.0)
  }

  /** Reports the message of the first failing rule, or `None` when the
      planet lies within every range. */
  function ValidatePlanet(p: Planet): (r: Option<Error>)
    ensures r == None <==> WithinRanges(p)
    ensures r != None ==>
      exists i :: FirstViolationAt(p, i) && r == Some(InvalidValue(RuleMessage(RuleOrder[i])))
  {
    if p.distanceFromEarth < 10.0 || p.distanceFromEarth > 1000.0 then
      assert FirstViolationAt(p, 0);
      Some(InvalidValue(RuleMessage(DistanceRange)))
    else if p.exoplanetType == "Terrestrial" && (p.mass < 0.1 || p.mass > 10.0) then
      assert FirstViolationAt(p, 1);
      Some(InvalidValue(RuleMessage(TerrestrialMassRange)))
    else if p.radius < 0.1 || p.radius > 10.0 then
      assert FirstViolationAt(p, 2);
      Some(InvalidValue(RuleMessage(RadiusRange)))
    else if p.exoplanetType == "GasGiant" && p.mass != 0.0 then
      assert FirstViolationAt(p, 3);
      Some(InvalidValue(RuleMessage(GasGiantMassless)))
    else
      None
  }

  // ---------------------------------------------------------------------
  // The admission pipeline shared by Create and Update
  // ---------------------------------------------------------------------

  /** The record is complete and within range: what every stored record satisfies. */
  predicate Admissible(p: Planet) {
    && p.name != ""
    && p.description != ""
    && p.exoplanetType != ""
    && WithinRanges(p)
  }

  /** The mandatory check, then (only if it passes) the range rules. The
      first error found is returned; `None` means the record may be stored. */
  function Admit(p: Planet): (r: Option<Error>)
    ensures r == None <==> Admissible(p)
    ensures CheckMandatory(p) != None ==> r == CheckMandatory(p)
    ensures CheckMandatory(p) == None ==> r == ValidatePlanet(p)
  {
    var missing := CheckMandatory(p);
    if missing != None then missing else ValidatePlanet(p)
  }
}
