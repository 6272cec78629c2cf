/**
 * The generic service: validation in front of the repository. Create and
 * update validate first and stop with the validator's verdict; every other
 * operation is handed to the repository unchanged.
 *
 * The service's observable state is the validator's caches (absent when no
 * validator is configured) and the repository's store; `CreateSpec` and
 * `UpdateSpec` give each operation's effect on that state, and the class is
 * proved to follow them.
 */
module Service {
  import opened Wrappers
  import opened Models
  import opened ApplicantValidation
  import opened Repository
  import ValidatorProperties

  /** `DoValidate`'s verdict on one run of the validator: pass, invalid with all failures, or the validator's exception. */
  function Verdict(v: Result<seq<ValidationFailure>, Fault>): (o: Outcome<ServiceError>)
    ensures o.Pass? <==> v == Ok([])
    ensures v.Err? ==> o == Fail(Infrastructure(v.error))
    ensures v.Ok? && v.value != [] ==> o == Fail(Invalid(v.value))
  {
    match v
    case Err(fault) => Fail(Infrastructure(fault))
    case Ok(failures) => if failures == [] then Pass else Fail(Invalid(failures))
  }

  /** The validator's caches, or `None` when the service has no validator, and the repository's store. */
  datatype ServiceState = ServiceState(caches: Option<Caches>, store: Store)

  /** The state after an operation and what the operation returned or raised. */
  datatype Step<+T> = Step(state: ServiceState, result: T)

  /** `DoValidate`: the new caches and the verdict; without a validator every entity passes. */
  function ValidateStep(caches: Option<Caches>, answers: DirectoryAnswers, e: Applicant): (r: (Option<Caches>, Outcome<ServiceError>))
    ensures caches.None? ==> r == (None, Pass)
    ensures caches.Some? ==> r.0.Some?
  {
    match caches
    case None => (None, Pass)
    case Some(c) =>
      var v := ValidateSpec(c, answers, e);
      (Some(v.caches), Verdict(v.result))
  }

  /** `CreateAsync` when the repository's probe picks `newId`. */
  function CreateSpec(st: ServiceState, answers: DirectoryAnswers, e: Applicant, newId: int): Step<Result<Applicant, ServiceError>>
    requires newId !in st.store
  {
    var (caches, verdict) := ValidateStep(st.caches, answers, e);
    if verdict.Fail? then Step(ServiceState(caches, st.store), Err(verdict.error))
    else Step(ServiceState(caches, Added(st.store, e, newId)), Ok(e.(id := newId)))
  }

  /** `UpdateAsync`: validate, then update in the repository. */
  function UpdateSpec(st: ServiceState, answers: DirectoryAnswers, e: Applicant): Step<Outcome<ServiceError>>
  {
    var (caches, verdict) := ValidateStep(st.caches, answers, e);
    if verdict.Fail? then Step(ServiceState(caches, st.store), verdict)
    else
      match Updated(st.store, e)
      case Err(error) => Step(ServiceState(caches, st.store), Fail(error))
      case Ok(store) => Step(ServiceState(caches, store), Pass)
  }

  // ---------------------------------------------------------------------------
  // Properties of the specification
  // ---------------------------------------------------------------------------

  /**
   * A validation failure wins over a missing id: an invalid entity is
   * reported invalid with all its failures, whether or not its id is stored,
   * and the store is left alone.
   */
  lemma InvalidBeatsNotFound(st: ServiceState, answers: DirectoryAnswers, e: Applicant)
    requires st.caches.Some?
    requires var v := ValidateSpec(st.caches.value, answers, e); v.result.Ok? && v.result.value != []
    ensures var v := ValidateSpec(st.caches.value, answers, e);
      UpdateSpec(st, answers, e) == Step(ServiceState(Some(v.caches), st.store), Fail(Invalid(v.result.value)))
    ensures forall newId | newId !in st.store :: CreateSpec(st, answers, e, newId).state.store == st.store
  {
  }

  /** An exception of the validator (a failed cache load) propagates unchanged and the store is left alone. */
  lemma ValidatorFaultPropagates(st: ServiceState, answers: DirectoryAnswers, e: Applicant, newId: int)
    requires st.caches.Some? && ValidateSpec(st.caches.value, answers, e).result.Err?
    requires newId !in st.store
    ensures var fault := ValidateSpec(st.caches.value, answers, e).result.error;
      && UpdateSpec(st, answers, e).result == Fail(Infrastructure(fault))
      && CreateSpec(st, answers, e, newId).result == Err(Infrastructure(fault))
      && UpdateSpec(st, answers, e).state.store == st.store
      && CreateSpec(st, answers, e, newId).state.store == st.store
  {
  }

  /** Without a validator, create and update are exactly the repository's operations. */
  lemma NoValidatorDelegates(store: Store, answers: DirectoryAnswers, e: Applicant, newId: int)
    requires newId !in store
    ensures CreateSpec(ServiceState(None, store), answers, e, newId)
      == Step(ServiceState(None, Added(store, e, newId)), Ok(e.(id := newId)))
    ensures UpdateSpec(ServiceState(None, store), answers, e) == match Updated(store, e)
      case Err(error) => Step(ServiceState(None, store), Fail(error))
      case Ok(s) => Step(ServiceState(None, s), Pass)
  {
  }

  /** An entity that validates without failures gets exactly the repository's effect and result. */
  lemma ValidEntityGetsRepositoryEffect(st: ServiceState, answers: DirectoryAnswers, e: Applicant, newId: int)
    requires st.caches.Some? && ValidateSpec(st.caches.value, answers, e).result == Ok([])
    requires newId !in st.store
    ensures CreateSpec(st, answers, e, newId).state.store == Added(st.store, e, newId)
    ensures CreateSpec(st, answers, e, newId).result == Ok(e.(id := newId))
    ensures UpdateSpec(st, answers, e).state.store == (if e.id in st.store then st.store[e.id := e] else st.store)
    ensures UpdateSpec(st, answers, e).result == (if e.id in st.store then Pass else Fail(NotFound))
  {
  }

  /**
   * With loaded caches, updating an applicant that breaks a rule reports
   * exactly the violated rules, in order, and never reaches the store.
   */
  lemma UnacceptableUpdateReportsViolations(st: ServiceState, answers: DirectoryAnswers, e: Applicant)
    requires st.caches.Some? && |st.caches.value.countries| > 0
    requires !ValidatorProperties.Acceptable(e, st.caches.value)
    ensures UpdateSpec(st, answers, e)
      == Step(st, Fail(Invalid(ValidatorProperties.Violations(0, e, st.caches.value))))
  {
    var c := st.caches.value;
    ValidatorProperties.ValidationReportsViolatedRules(c, answers, e);
    ValidatorProperties.ValidIffAcceptable(c, answers, e);
  }

  /** A successful create returns the stored entity, under the id it is stored under. */
  lemma CreatedIsStored(st: ServiceState, answers: DirectoryAnswers, e: Applicant, newId: int)
    requires newId !in st.store
    requires CreateSpec(st, answers, e, newId).result.Ok?
    ensures var s := CreateSpec(st, answers, e, newId);
      s.result.value.id == newId && newId in s.state.store && s.state.store[newId] == s.result.value
      && Find(s.state.store, newId) == Ok(s.result.value)
  {
  }

  // ---------------------------------------------------------------------------
  // The service object
  // ---------------------------------------------------------------------------

  class GenericService {
    const repository: GenericRepository
    const validator: ApplicantValidator?

    function ValidatorCaches(): Option<Caches>
      reads this, validator
    {
      if validator == null then None else Some(validator.State())
    }

    function State(): ServiceState
      reads this, repository, validator
    {
      ServiceState(ValidatorCaches(), repository.entities)
    }

    constructor (repository: GenericRepository, validator: ApplicantValidator?)
      ensures this.repository == repository && this.validator == validator
    {
      this.repository := repository;
      this.validator := validator;
    }

    /** Validates `e` when a validator is configured. */
    method DoValidate(e: Applicant, answers: DirectoryAnswers) returns (verdict: Outcome<ServiceError>)
      modifies validator
      ensures (ValidatorCaches(), verdict) == ValidateStep(old(ValidatorCaches()), answers, e)
    {
      if validator != null {
        var result := validator.Validate(e, answers);
        verdict := Verdict(result);
      } else {
        verdict := Pass;
      }
    }

    method GetAll() returns (r: seq<Applicant>)
      requires repository.Valid()
      ensures |r| == |repository.entities|
      ensures forall i | 0 <= i < |r| :: r[i].id in repository.entities && repository.entities[r[i].id] == r[i]
      ensures forall i, j | 0 <= i < j < |r| :: r[i].id != r[j].id
      ensures forall id | id in repository.entities :: exists i | 0 <= i < |r| :: r[i].id == id
    {
      r := repository.GetAll();
    }

    method Get(id: int) returns (r: Result<Applicant, ServiceError>)
      ensures r == Find(repository.entities, id)
    {
      r := repository.Get(id);
    }

    /** Validates, then creates in the repository; `candidates` is the repository's random id stream. */
    method Create(e: Applicant, answers: DirectoryAnswers, candidates: nat -> int) returns (r: Result<Applicant, ServiceError>)
      requires repository.Valid() && HasUnused(repository.entities, candidates)
      modifies repository, validator
      ensures repository.Valid()
      ensures r.Ok? ==> FirstUnused(old(repository.entities), candidates, r.value.id)
      ensures r.Ok? ==> r.value.id !in old(repository.entities)
      ensures r.Ok? ==> Step(State(), r) == CreateSpec(old(State()), answers, e, r.value.id)
      ensures r.Err? ==> forall newId | newId !in old(repository.entities) ::
        Step(State(), r) == CreateSpec(old(State()), answers, e, newId)
    {
      var verdict := DoValidate(e, answers);
      if verdict.Fail? {
        return Err(verdict.error);
      }
      var created := repository.Create(e, candidates);
      r := Ok(created);
    }

    /** Validates, then updates in the repository. */
    method Update(e: Applicant, answers: DirectoryAnswers) returns (r: Outcome<ServiceError>)
      requires repository.Valid()
      modifies repository, validator
      ensures repository.Valid()
      ensures Step(State(), r) == UpdateSpec(old(State()), answers, e)
    {
      var verdict := DoValidate(e, answers);
      if verdict.Fail? {
        return verdict;
      }
      r := repository.Update(e);
    }

    method Delete(id: int) returns (r: Outcome<ServiceError>)
      requires repository.Valid()
      modifies repository
      ensures repository.Valid()
      ensures r.Fail? <==> Removed(old(repository.entities), id).Err?
      ensures r.Fail? ==> r.error == NotFound && repository.entities == old(repository.entities)
      ensures r.Pass? ==> repository.entities == Removed(old(repository.entities), id).value
    {
      r := repository.Delete(id);
    }
  }
}
