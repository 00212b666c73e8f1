/** Concrete request scenarios the catalog is documented to handle, stated
    over the model. */
module Scenarios {
  import opened Identity
  import opened Errors
  import opened ExoplanetTypes
  import opened Models
  import opened Validation
  import opened Sorting
  import opened Service

  /** A complete, in-range Terrestrial planet. */
  const Earthlike: Planet := Planet(0, "Kepler-22b", "rocky", 600.0, 2.4, 5.0, Terrestrial)

  /** Creating a planet closer than 10 light years fails on the distance rule
      and stores nothing. */
  lemma TooCloseIsRejected(store: Store, newId: Id)
    ensures Create(store, Earthlike.(distanceFromEarth := 5.0), newId)
      == (Err(InvalidValue(RuleMessage(DistanceRange))), store)
  {
  }

  /** A GasGiant with a mass is rejected by the last rule. */
  lemma MassiveGasGiantIsRejected(store: Store, newId: Id)
    ensures Create(store, Earthlike.(exoplanetType := GasGiant), newId)
      == (Err(InvalidValue(RuleMessage(GasGiantMassless))), store)
  {
  }

  /** A Terrestrial planet sent without a mass is incomplete. */
  lemma MasslessTerrestrialIsIncomplete(store: Store, newId: Id)
    ensures Create(store, Earthlike.(mass := 0.0), newId) == (Err(MissingParam("mass")), store)
  {
  }

  /** Three Terrestrial planets of mass 5, 2 and 8 and one GasGiant. */
  const T5: Planet := Planet(1, "b", "rocky", 600.0, 2.4, 5.0, Terrestrial)
  const T2: Planet := Planet(2, "c", "rocky", 600.0, 2.4, 2.0, Terrestrial)
  const T8: Planet := Planet(3, "d", "rocky", 600.0, 2.4, 8.0, Terrestrial)
  const Giant: Planet := Planet(4, "e", "gaseous", 600.0, 9.0, 0.0, GasGiant)

  /** A catalog holding exactly those four planets, under their own identifiers. */
  predicate IsMixed(store: Store) {
    && store.Keys == {1, 2, 3, 4}
    && store[1] == T5 && store[2] == T2 && store[3] == T8 && store[4] == Giant
  }

  /** The stored values of the mixed catalog, peeled one identifier at a time. */
  lemma MixedValues(store: Store)
    requires IsMixed(store)
    ensures Values(store) == multiset{T5, T2, T8, Giant}
  {
    var rest := store - {1};
    assert Values(rest) == multiset{T2, T8, Giant} by {
      assert rest.Keys == {2, 3, 4} && rest[2] == T2 && rest[3] == T8 && rest[4] == Giant;
      MixedValuesFrom2(rest);
    }
    assert Values(store) == multiset{T5} + Values(rest) by {
      ValuesRemove(store, 1);
    }
  }

  /** The mixed catalog without planet 1. */
  lemma MixedValuesFrom2(s: Store)
    requires s.Keys == {2, 3, 4} && s[2] == T2 && s[3] == T8 && s[4] == Giant
    ensures Values(s) == multiset{T2, T8, Giant}
  {
    var rest := s - {2};
    assert Values(rest) == multiset{T8, Giant} by {
      assert rest.Keys == {3, 4} && rest[3] == T8 && rest[4] == Giant;
      MixedValuesFrom3(rest);
    }
    assert Values(s) == multiset{T2} + Values(rest) by {
      ValuesRemove(s, 2);
    }
  }

  /** The mixed catalog without planets 1 and 2. */
  lemma MixedValuesFrom3(s: Store)
    requires s.Keys == {3, 4} && s[3] == T8 && s[4] == Giant
    ensures Values(s) == multiset{T8, Giant}
  {
    ValuesRemove(s, 3);
    var last := s - {3};
    assert last.Keys == {4};
    ValuesRemove(last, 4);
    assert last - {4} == map[];
  }

  /** Listing the mixed catalog by mass leaves out the GasGiant and yields
      the masses 2, 5, 8 in that order, whichever listing the service picks. */
  lemma MixedListedByMass(store: Store, planets: seq<Planet>)
    requires IsMixed(store)
    requires IsListing(store, Filter(SortByMass), planets)
    ensures Keys(planets, ByMass) == [2.0, 5.0, 8.0]
    ensures Giant !in planets
  {
    var expected := [T2, T5, T8];
    MixedTerrestrials(store, planets);
    SortedKeysDetermined(planets, expected, ByMass);
    KeysAt(expected, ByMass);
  }

  /** The mass listing of the mixed catalog holds its three Terrestrial planets. */
  lemma MixedTerrestrials(store: Store, planets: seq<Planet>)
    requires IsMixed(store)
    requires TerrestrialPart(multiset(planets), Values(store))
    ensures multiset(planets) == multiset([T2, T5, T8])
  {
    MixedValues(store);
    forall q ensures multiset(planets)[q] == multiset([T2, T5, T8])[q] {
    }
  }
}
