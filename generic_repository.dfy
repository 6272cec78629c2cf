/**
 * The generic CRUD repository over the applicant store. The Entity Framework
 * set of entities is a map from id to applicant; `Keyed` is the store's
 * invariant that every entity sits under its own id. The pure functions
 * below state each operation's effect on a store value, and the class's
 * methods are proved to have exactly that effect on their field.
 *
 * The random id source (`Random.Next()`) is a supplied stream of candidates;
 * the probing loop stops at the first candidate that is not a key.
 */
module Repository {
  import opened Wrappers
  import opened Models

  type Store = map<int, Applicant>

  /** Exclusive upper bound of `Random.Next()`, which is `int.MaxValue`. */
  const RandomBound: int := 0x7FFF_FFFF

  /** Every stored entity carries the id it is stored under. */
  ghost predicate Keyed(s: Store)
  {
    forall id | id in s :: s[id].id == id
  }

  /** The outcome of a lookup: the stored entity, or not-found. */
  function Find(s: Store, id: int): (r: Result<Applicant, ServiceError>)
    ensures r.Ok? <==> id in s
    ensures r.Ok? ==> r.value == s[id]
    ensures r.Err? ==> r.error == NotFound
  {
    if id in s then Ok(s[id]) else Err(NotFound)
  }

  /** The store after adding `e` under `newId`, with `e`'s own id overwritten. */
  function Added(s: Store, e: Applicant, newId: int): (r: Store)
    requires newId !in s
    ensures r.Keys == s.Keys + {newId}
    ensures r[newId] == e.(id := newId)
    ensures forall id | id in s :: r[id] == s[id]
    ensures Keyed(s) ==> Keyed(r)
  {
    s[newId := e.(id := newId)]
  }

  /**
   * The store after updating the entity under `e.id` with all of `e`'s
   * values, or not-found when there is none.
   */
  function Updated(s: Store, e: Applicant): (r: Result<Store, ServiceError>)
    ensures r.Err? <==> e.id !in s
    ensures r.Err? ==> r.error == NotFound
    ensures r.Ok? ==> r.value.Keys == s.Keys && r.value[e.id] == e
    ensures r.Ok? ==> forall id | id in s && id != e.id :: r.value[id] == s[id]
    ensures r.Ok? && Keyed(s) ==> Keyed(r.value)
  {
    if e.id in s then Ok(s[e.id := e]) else Err(NotFound)
  }

  /** The store without the entity under `id`, or not-found when there is none. */
  function Removed(s: Store, id: int): (r: Result<Store, ServiceError>)
    ensures r.Err? <==> id !in s
    ensures r.Err? ==> r.error == NotFound
    ensures r.Ok? ==> r.value.Keys == s.Keys - {id}
    ensures r.Ok? ==> forall k | k in r.value :: r.value[k] == s[k]
    ensures r.Ok? && Keyed(s) ==> Keyed(r.value)
  {
    if id in s then Ok(s - {id}) else Err(NotFound)
  }

  /** `Random.Next()` yields values in [0, int.MaxValue). */
  ghost predicate IsRandomStream(candidates: nat -> int)
  {
    forall k: nat :: 0 <= candidates(k) < RandomBound
  }

  /** Some candidate of the stream is not used by the store, so probing ends. */
  ghost predicate HasUnused(s: Store, candidates: nat -> int)
  {
    exists k: nat :: candidates(k) !in s
  }

  /** `id` is the first candidate of the stream that is not a key of the store. */
  ghost predicate FirstUnused(s: Store, candidates: nat -> int, id: int)
  {
    exists k: nat :: candidates(k) == id && id !in s && forall j: nat | j < k :: candidates(j) in s
  }

  /** Under `Keyed`, "some entity has this id" is "this id is a key". */
  lemma AnyWithIdIsKey(s: Store, id: int)
    requires Keyed(s)
    ensures (exists k | k in s :: s[k].id == id) <==> id in s
  {
    if id in s {
      assert s[id].id == id;
    }
  }

  /** A non-empty set of ids has an element to pick. */
  lemma HasElement(ids: set<int>)
    requires ids != {}
    ensures exists id :: id in ids
  {
    if forall id :: id !in ids {
      assert false;
    }
  }

  /** The repository over the entity store. */
  class GenericRepository {
    var entities: Store

    ghost predicate Valid()
      reads this
    {
      Keyed(entities)
    }

    constructor ()
      ensures Valid() && entities == map[]
    {
      entities := map[];
    }

    /** Every stored entity exactly once, in no particular order. */
    method GetAll() returns (r: seq<Applicant>)
      requires Valid()
      ensures |r| == |entities|
      ensures forall i | 0 <= i < |r| :: r[i].id in entities && entities[r[i].id] == r[i]
      ensures forall i, j | 0 <= i < j < |r| :: r[i].id != r[j].id
      ensures forall id | id in entities :: exists i | 0 <= i < |r| :: r[i].id == id
    {
      r := [];
      var rest := entities.Keys;
      while rest != {}
        invariant rest <= entities.Keys
        invariant |r| + |rest| == |entities.Keys|
        invariant forall i | 0 <= i < |r| :: r[i].id in entities.Keys - rest && entities[r[i].id] == r[i]
        invariant forall i, j | 0 <= i < j < |r| :: r[i].id != r[j].id
        invariant forall id | id in entities.Keys - rest :: exists i | 0 <= i < |r| :: r[i].id == id
        decreases |rest|
      {
        HasElement(rest);
        var id :| id in rest;
        assert entities[id].id == id;
        ghost var r0, rest0 := r, rest;
        r := r + [entities[id]];
        rest := rest - {id};
        forall k | k in entities.Keys - rest
          ensures exists i | 0 <= i < |r| :: r[i].id == k
        {
          if k == id {
            assert r[|r| - 1].id == k;
          } else {
            assert k in entities.Keys - rest0;
            var i :| 0 <= i < |r0| && r0[i].id == k;
            assert r[i].id == k;
          }
        }
      }
      assert rest == {};
      assert entities.Keys - rest == entities.Keys;
    }

    /** The entity stored under `id`, or not-found. */
    method Get(id: int) returns (r: Result<Applicant, ServiceError>)
      ensures r.Ok? <==> id in entities
      ensures r.Ok? ==> r.value == entities[id]
      ensures r.Err? ==> r.error == NotFound
    {
      if id in entities {
        r := Ok(entities[id]);
      } else {
        r := Err(NotFound);
      }
    }

    /** Draws candidates until one is not the id of a stored entity. */
    method GetUnusedId(candidates: nat -> int) returns (id: int)
      requires HasUnused(entities, candidates)
      ensures id !in entities
      ensures FirstUnused(entities, candidates, id)
      ensures IsRandomStream(candidates) ==> 0 <= id < RandomBound
    {
      ghost var w: nat :| candidates(w) !in entities;
      var i: nat := 0;
      id := candidates(0);
      while id in entities
        invariant i <= w
        invariant id == candidates(i)
        invariant forall j: nat | j < i :: candidates(j) in entities
        decreases w - i
      {
        i := i + 1;
        id := candidates(i);
      }
    }

    /**
     * Stores `e` under a fresh id and returns the stored entity; whatever id
     * the caller put into `e` is discarded.
     */
    method Create(e: Applicant, candidates: nat -> int) returns (created: Applicant)
      requires Valid() && HasUnused(entities, candidates)
      modifies this
      ensures Valid()
      ensures created == e.(id := created.id)
      ensures FirstUnused(old(entities), candidates, created.id)
      ensures created.id !in old(entities)
      ensures entities == Added(old(entities), e, created.id)
    {
      var unusedId := GetUnusedId(candidates);
      created := e.(id := unusedId);
      entities := Added(entities, e, unusedId);
    }

    /** Overwrites the entity under `e.id` with `e`'s values, or fails with not-found and changes nothing. */
    method Update(e: Applicant) returns (r: Outcome<ServiceError>)
      requires Valid()
      modifies this
      ensures Valid()
      ensures r.Fail? <==> Updated(old(entities), e).Err?
      ensures r.Fail? ==> r.error == NotFound && entities == old(entities)
      ensures r.Pass? ==> entities == Updated(old(entities), e).value
    {
      var u := Updated(entities, e);
      if u.Ok? {
        entities := u.value;
        r := Pass;
      } else {
        r := Fail(u.error);
      }
    }

    /** Removes the entity under `id`, or fails with not-found and changes nothing. */
    method Delete(id: int) returns (r: Outcome<ServiceError>)
      requires Valid()
      modifies this
      ensures Valid()
      ensures r.Fail? <==> Removed(old(entities), id).Err?
      ensures r.Fail? ==> r.error == NotFound && entities == old(entities)
      ensures r.Pass? ==> entities == Removed(old(entities), id).value
    {
      var d := Removed(entities, id);
      if d.Ok? {
        entities := d.value;
        r := Pass;
      } else {
        r := Fail(d.error);
      }
    }
  }

  // ---------------------------------------------------------------------------
  // Repeated creates
  // ---------------------------------------------------------------------------

  /** The store after creating `es[k]` under `ids[k]`, one after another. */
  function CreateAll(s: Store, es: seq<Applicant>, ids: seq<int>): (r: Store)
    requires |es| == |ids|
    decreases |ids|
  {
    if ids == [] then s
    else
      var before := CreateAll(s, es[..|es| - 1], ids[..|ids| - 1]);
      var id := ids[|ids| - 1];
      before[id := es[|es| - 1].(id := id)]
  }

  /** Each id was unused when it was drawn. */
  ghost predicate EachUnusedWhenDrawn(s: Store, es: seq<Applicant>, ids: seq<int>)
    requires |es| == |ids|
  {
    forall k | 0 <= k < |ids| :: ids[k] !in CreateAll(s, es[..k], ids[..k])
  }

  /** The keys after a run of creates are the old keys plus every drawn id. */
  lemma {:induction false} CreateAllKeys(s: Store, es: seq<Applicant>, ids: seq<int>)
    requires |es| == |ids|
    ensures forall x :: x in CreateAll(s, es, ids) <==> x in s || x in ids
    decreases |ids|
  {
    if ids != [] {
      var n := |ids| - 1;
      CreateAllKeys(s, es[..n], ids[..n]);
      assert ids == ids[..n] + [ids[n]];
    }
  }

  /**
   * Repeated creates return pairwise distinct ids, none of which was a key of
   * the store before the first one: each drawn id is absent from a store that
   * already holds all earlier ones.
   */
  lemma CreatedIdsAreDistinct(s: Store, es: seq<Applicant>, ids: seq<int>)
    requires |es| == |ids|
    requires EachUnusedWhenDrawn(s, es, ids)
    ensures forall i, j | 0 <= i < j < |ids| :: ids[i] != ids[j]
    ensures forall k | 0 <= k < |ids| :: ids[k] !in s
  {
    forall i, j | 0 <= i < j < |ids|
      ensures ids[i] != ids[j]
    {
      CreateAllKeys(s, es[..j], ids[..j]);
      assert ids[i] in ids[..j];
      assert ids[j] !in CreateAll(s, es[..j], ids[..j]);
    }
    forall k | 0 <= k < |ids|
      ensures ids[k] !in s
    {
      CreateAllKeys(s, es[..k], ids[..k]);
      assert ids[k] !in CreateAll(s, es[..k], ids[..k]);
    }
  }

  /** A run of creates, each under an id unused at its time, keeps the store keyed. */
  lemma {:induction false} CreateAllKeepsKeyed(s: Store, es: seq<Applicant>, ids: seq<int>)
    requires |es| == |ids| && Keyed(s)
    ensures Keyed(CreateAll(s, es, ids))
    decreases |ids|
  {
    if ids != [] {
      CreateAllKeepsKeyed(s, es[..|es| - 1], ids[..|ids| - 1]);
    }
  }
}
