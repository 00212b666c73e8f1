/** The planet service over its in-memory store (`service/service.go`).

    The service keeps one map from identifier to planet. Here that map is a
    value threaded through the operations: each write returns its error (or
    `None`) together with the store as it is afterwards. */
module Service {
  import opened Identity
  import opened Errors
  import opened ExoplanetTypes
  import opened Models
  import opened Validation
  import opened Sorting

  /** The catalog: every stored planet under its identifier. */
  type Store = map<Id, Planet>

  /** The entity name reported in not-found errors. */
  const EntityName: string := "planet"

  /** The error for an identifier with no record. */
  function NotFound(id: Id): Error {
    EntityNotFound(EntityName, id)
  }

  /** What every write keeps true of the store: each record sits under its
      own identifier and passed the admission checks. */
  ghost predicate Consistent(store: Store) {
    forall k :: k in store ==> store[k].id == k && Admissible(store[k])
  }

  // ---------------------------------------------------------------------
  // Single-record operations
  // ---------------------------------------------------------------------

  /** Admits the planet and stores it under `newId`, the identifier the
      service generates. On success the stored and returned record is the
      input with only its identifier replaced; on failure the store is
      untouched. A fresh `newId` adds exactly one entry. */
  function Create(store: Store, p: Planet, newId: Id): (r: (Result<Planet>, Store))
    ensures r.0.Ok? <==> Admissible(p)
    ensures r.0.Ok? ==> r.0.value.id == newId && r.0.value.(id := p.id) == p
    ensures r.0.Ok? ==> r.1 == store[newId := r.0.value]
    ensures r.0.Ok? && newId !in store ==>
      r.1.Keys == store.Keys + {newId} && |r.1| == |store| + 1 &&
      forall k :: k in store ==> r.1[k] == store[k]
    ensures r.0.Err? ==> Some(r.0.error) == Admit(p) && r.1 == store
    ensures Consistent(store) ==> Consistent(r.1)
  {
    match Admit(p)
    case Some(e) => (Err(e), store)
    case None =>
      var created := p.(id := newId);
      (Ok(created), store[newId := created])
  }

  /** Looks up a planet by identifier. */
  function GetByID(store: Store, id: Id): (r: Result<Planet>)
    ensures r.Ok? <==> id in store
    ensures r.Ok? ==> r.value == store[id]
    ensures r.Err? ==> r.error == NotFound(id)
  {
    if id in store then Ok(store[id]) else Err(NotFound(id))
  }

  /** Replaces the record stored under `p.id` by `p`. An unknown identifier
      is reported before any check runs; a record that fails the checks
      leaves the store untouched; no identifier is ever added or removed. */
  function Update(store: Store, p: Planet): (r: (Option<Error>, Store))
    ensures p.id !in store ==> r == (Some(NotFound(p.id)), store)
    ensures p.id in store ==> r.0 == Admit(p)
    ensures r.0 == None <==> p.id in store && Admissible(p)
    ensures r.0 == None ==> r.1 == store[p.id := p]
    ensures r.0 != None ==> r.1 == store
    ensures r.1.Keys == store.Keys
    ensures forall k :: k in store && k != p.id ==> r.1[k] == store[k]
    ensures Consistent(store) ==> Consistent(r.1)
  {
    if p.id !in store then (Some(NotFound(p.id)), store)
    else
      var err := Admit(p);
      if err != None then (err, store) else (None, store[p.id := p])
  }

  /** Removes the record under `id`, or reports that there is none. */
  function Delete(store: Store, id: Id): (r: (Option<Error>, Store))
    ensures r.0 == None <==> id in store
    ensures r.0 != None ==> r == (Some(NotFound(id)), store)
    ensures r.1.Keys == store.Keys - {id}
    ensures forall k :: k in r.1 ==> r.1[k] == store[k]
    ensures Consistent(store) ==> Consistent(r.1)
  {
    if id in store then (None, store - {id}) else (Some(NotFound(id)), store)
  }

  /** The fuel estimate for a stored planet. Only the lookup is modelled:
      the estimate itself is floating-point arithmetic, passed in as
      `estimate`. */
  function GetByEstimation(store: Store, id: Id, capacity: int,
                           estimate: (Planet, int) -> real): (r: Result<real>)
    ensures r.Err? <==> id !in store
    ensures r.Err? ==> r.error == NotFound(id)
    ensures r.Ok? ==> r.value == estimate(store[id], capacity)
  {
    if id !in store then Err(NotFound(id)) else Ok(estimate(store[id], capacity))
  }

  // ---------------------------------------------------------------------
  // Properties relating several operations
  // ---------------------------------------------------------------------

  /** Reading back a created planet gives the input with the new identifier. */
  lemma CreateThenGet(store: Store, p: Planet, newId: Id)
    requires Admissible(p)
    ensures GetByID(Create(store, p, newId).1, newId) == Ok(p.(id := newId))
  {
  }

  /** A failed creation leaves every lookup as it was. */
  lemma FailedCreateChangesNothing(store: Store, p: Planet, newId: Id, id: Id)
    requires !Admissible(p)
    ensures GetByID(Create(store, p, newId).1, id) == GetByID(store, id)
  {
  }

  /** After a deletion the identifier is not found, and every other lookup is unchanged. */
  lemma DeleteThenGet(store: Store, id: Id, other: Id)
    requires other != id
    ensures GetByID(Delete(store, id).1, id) == Err(NotFound(id))
    ensures GetByID(Delete(store, id).1, other) == GetByID(store, other)
  {
  }

  /** After a successful update a lookup returns the supplied record. */
  lemma UpdateThenGet(store: Store, p: Planet)
    requires Update(store, p).0 == None
    ensures GetByID(Update(store, p).1, p.id) == Ok(p)
  {
  }

  // ---------------------------------------------------------------------
  // Listing
  // ---------------------------------------------------------------------

  /** Some identifier of a non-empty store. */
  ghost function AnyKey(store: Store): Id
    requires store != map[]
  {
    var k :| k in store; k
  }

  /** The stored planets, counted once per identifier. */
  ghost function Values(store: Store): multiset<Planet>
    decreases |store|
  {
    if store == map[] then multiset{}
    else
      var k := AnyKey(store);
      multiset{store[k]} + Values(store - {k})
  }

  /** Any identifier can be the one taken out first. */
  lemma {:induction false} ValuesRemove(store: Store, k: Id)
    requires k in store
    ensures Values(store) == multiset{store[k]} + Values(store - {k})
    decreases |store|
  {
    var j := AnyKey(store);
    if j != k {
      var withoutJ, withoutK := store - {j}, store - {k};
      assert |withoutJ| < |store| && |withoutK| < |store| by {
        assert withoutJ.Keys == store.Keys - {j};
        assert withoutK.Keys == store.Keys - {k};
      }
      var both := withoutJ - {k};
      assert both == withoutK - {j};
      calc {
        Values(store);
        multiset{store[j]} + Values(withoutJ);
        { ValuesRemove(withoutJ, k); }
        multiset{store[j]} + multiset{store[k]} + Values(both);
        { ValuesRemove(withoutK, j); }
        multiset{store[k]} + Values(withoutK);
      }
    }
  }

  /** A store holds as many planets as identifiers. */
  lemma {:induction false} ValuesSize(store: Store)
    ensures |Values(store)| == |store|
    decreases |store|
  {
    if store != map[] {
      var k := AnyKey(store);
      assert (store - {k}).Keys == store.Keys - {k};
      ValuesSize(store - {k});
    }
  }

  /** A planet is among the stored values exactly when some identifier maps to it. */
  lemma {:induction false} ValuesContain(store: Store, p: Planet)
    ensures p in Values(store) <==> exists k :: k in store && store[k] == p
    decreases |store|
  {
    if store != map[] {
      var k := AnyKey(store);
      assert (store - {k}).Keys == store.Keys - {k};
      ValuesContain(store - {k}, p);
      if p in Values(store) && p != store[k] {
        var k' :| k' in store - {k} && (store - {k})[k'] == p;
        assert store[k'] == p;
      }
      if exists k' :: k' in store && store[k'] == p {
        var k' :| k' in store && store[k'] == p;
        if k' != k {
          assert k' in store - {k};
        }
      }
    }
  }

  /** `sub` holds exactly the Terrestrial planets of `whole`, with their multiplicities. */
  ghost predicate TerrestrialPart(sub: multiset<Planet>, whole: multiset<Planet>) {
    forall q :: sub[q] == if q.exoplanetType == Terrestrial then whole[q] else 0
  }

  /** What `GetAll` may return for a filter: a mass filter yields the
      Terrestrial planets in nondecreasing mass; any other filter yields every
      planet, in nondecreasing radius for the radius filter and in any order
      otherwise. */
  ghost predicate IsListing(store: Store, filter: Filter, planets: seq<Planet>) {
    if filter.sortBy == SortByMass then
      TerrestrialPart(multiset(planets), Values(store)) && SortedBy(planets, ByMass)
    else
      multiset(planets) == Values(store) &&
      (filter.sortBy == SortByRadius ==> SortedBy(planets, ByRadius))
  }

  /** The stored planets in the order the map is walked, which is arbitrary. */
  method CollectValues(store: Store) returns (all: seq<Planet>)
    ensures multiset(all) == Values(store)
    ensures |all| == |store|
  {
    all := [];
    var rest := store;
    while rest != map[]
      invariant multiset(all) + Values(rest) == Values(store)
      invariant |all| + |rest| == |store|
      decreases |rest|
    {
      var k :| k in rest;
      var next := rest - {k};
      assert Values(rest) == multiset{rest[k]} + Values(next) by {
        ValuesRemove(rest, k);
      }
      assert |next| == |rest| - 1 by {
        assert next.Keys == rest.Keys - {k};
      }
      assert multiset(all + [rest[k]]) == multiset(all) + multiset{rest[k]};
      all := all + [rest[k]];
      rest := next;
    }
  }

  /** The Terrestrial planets of a list, in their original order. */
  method KeepTerrestrial(all: seq<Planet>) returns (kept: seq<Planet>)
    ensures TerrestrialPart(multiset(kept), multiset(all))
    ensures forall i :: 0 <= i < |kept| ==> kept[i].exoplanetType == Terrestrial
  {
    kept := [];
    for i := 0 to |all|
      invariant TerrestrialPart(multiset(kept), multiset(all[..i]))
      invariant forall j :: 0 <= j < |kept| ==> kept[j].exoplanetType == Terrestrial
    {
      assert all[..i + 1] == all[..i] + [all[i]];
      if all[i].exoplanetType == "Terrestrial" {
        kept := kept + [all[i]];
      }
    }
    assert all[..|all|] == all;
  }

  /** Lists the catalog under a filter. The walk of the map and the sort
      are both free to choose among equal candidates, so the contract fixes
      the contents and the order of keys, not the order of ties. */
  method GetAll(store: Store, filter: Filter) returns (planets: seq<Planet>)
    ensures IsListing(store, filter, planets)
  {
    var all := CollectValues(store);
    if filter.sortBy != "" {
      if filter.sortBy == SortByRadius {
        all := SortBy(all, ByRadius);
      } else if filter.sortBy == SortByMass {
        var kept := KeepTerrestrial(all);
        planets := SortBy(kept, ByMass);
        return;
      }
    }
    planets := all;
  }

  /** An unsorted or radius-sorted listing holds one entry per identifier,
      and a planet appears in it exactly when it is stored. */
  lemma ListingHoldsEveryPlanet(store: Store, filter: Filter, planets: seq<Planet>, p: Planet)
    requires filter.sortBy != SortByMass
    requires IsListing(store, filter, planets)
    ensures |planets| == |store|
    ensures p in planets <==> exists k :: k in store && store[k] == p
  {
    ValuesSize(store);
    assert |planets| == |multiset(planets)|;
    ValuesContain(store, p);
    assert p in planets <==> p in multiset(planets);
  }

  /** A mass-sorted listing holds only Terrestrial planets, and every stored
      Terrestrial planet appears in it. */
  lemma MassListingIsTerrestrial(store: Store, planets: seq<Planet>, p: Planet)
    requires IsListing(store, Filter(SortByMass), planets)
    ensures forall i :: 0 <= i < |planets| ==> planets[i].exoplanetType == Terrestrial
    ensures p.exoplanetType == Terrestrial ==>
      (p in planets <==> exists k :: k in store && store[k] == p)
  {
    forall i | 0 <= i < |planets|
      ensures planets[i].exoplanetType == Terrestrial
    {
      assert multiset(planets)[planets[i]] > 0;
    }
    ValuesContain(store, p);
    assert p in planets <==> multiset(planets)[p] > 0;
  }

  /** Two listings of the same store under a sorting filter carry the same
      sequence of keys: only planets with equal keys can appear in a
      different order. */
  lemma ListingKeysDetermined(store: Store, filter: Filter, a: seq<Planet>, b: seq<Planet>, k: SortKey)
    requires k == (if filter.sortBy == SortByMass then ByMass else ByRadius)
    requires IsSortKey(filter.sortBy)
    requires IsListing(store, filter, a) && IsListing(store, filter, b)
    ensures Keys(a, k) == Keys(b, k)
  {
    if filter.sortBy == SortByMass {
      assert multiset(a) == multiset(b) by {
        forall q ensures multiset(a)[q] == multiset(b)[q] {
        }
      }
    }
    SortedKeysDetermined(a, b, k);
  }

  // ---------------------------------------------------------------------
  // Sequences of requests
  // ---------------------------------------------------------------------

  /** A write request to the service, with the identifier Create generates. */
  datatype Command =
    | CreateCmd(planet: Planet, newId: Id)
    | UpdateCmd(planet: Planet)
    | DeleteCmd(id: Id)

  /** The store after one request, whether it succeeded or not. */
  function Apply(store: Store, c: Command): Store {
    match c
    case CreateCmd(p, newId) => Create(store, p, newId).1
    case UpdateCmd(p) => Update(store, p).1
    case DeleteCmd(id) => Delete(store, id).1
  }

  /** The store after the requests, in order. */
  function Run(store: Store, cmds: seq<Command>): Store
    decreases |cmds|
  {
    if |cmds| == 0 then store else Run(Apply(store, cmds[0]), cmds[1..])
  }

  /** No sequence of requests breaks consistency. */
  lemma {:induction false} RunKeepsConsistent(store: Store, cmds: seq<Command>)
    requires Consistent(store)
    ensures Consistent(Run(store, cmds))
    decreases |cmds|
  {
    if |cmds| > 0 {
      RunKeepsConsistent(Apply(store, cmds[0]), cmds[1..]);
    }
  }

  /** Starting from the empty catalog, every stored record sits under its own
      identifier and passed the admission checks, whatever was requested. */
  lemma ReachableStoresAreConsistent(cmds: seq<Command>)
    ensures var store := Run(map[], cmds);
      forall k :: k in store ==> store[k].id == k && Admissible(store[k])
  {
    RunKeepsConsistent(map[], cmds);
  }
}
