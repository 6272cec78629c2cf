/**
 * The HTTP API over the applicant service (route `/applicant`). Each action
 * calls the service and maps what it returned or raised to a status code and
 * a body: the entity or entities for successful reads, an `ApiResourceResponse`
 * for everything else, and no `ApiResourceResponse` (a bare status code) for an
 * unexpected exception.
 */
module Controller {
  import opened Wrappers
  import opened Text
  import opened Models
  import opened Repository
  import opened Service
  import ValidatorProperties

  /** ApiResourceResponse.cs; a `None` member is serialised as null. */
  datatype ApiResourceResponse = ApiResourceResponse(
    success: bool,
    id: Option<int>,
    uri: Option<string>,
    errorKeys: Option<seq<string>>)

  datatype Body =
    | Resource(resource: ApiResourceResponse)
    | OneApplicant(applicant: Applicant)
    | AllApplicants(applicants: seq<Applicant>)

  /** Status code, the `Location` header of a 201, and the body. */
  datatype Response = Response(status: int, location: Option<string>, body: Option<Body>)

  const NotFoundKey: string := "id-not-found"

  /** A failure as the client receives it: message, ':', property name. */
  function ErrorKey(f: ValidationFailure): string
  {
    f.errorMessage + ":" + f.propertyName
  }

  /** One key per failure, in the validator's order. */
  function ErrorKeys(failures: seq<ValidationFailure>): (keys: seq<string>)
    ensures |keys| == |failures|
    ensures forall i | 0 <= i < |failures| :: keys[i] == ErrorKey(failures[i])
  {
    seq(|failures|, i requires 0 <= i < |failures| => ErrorKey(failures[i]))
  }

  /** The resource path of an applicant. */
  function ResourceUri(id: int): string
  {
    "applicant/" + IntToDecimal(id)
  }

  const NotFoundResponse: Response :=
    Response(404, None, Some(Resource(ApiResourceResponse(false, None, None, Some([NotFoundKey])))))

  const ServerErrorResponse: Response := Response(500, None, None)

  function BadRequestResponse(failures: seq<ValidationFailure>): (r: Response)
    ensures r.status == 400 && r.body.Some? && r.body.value.Resource?
    ensures !r.body.value.resource.success && r.body.value.resource.errorKeys == Some(ErrorKeys(failures))
  {
    Response(400, None, Some(Resource(ApiResourceResponse(false, None, None, Some(ErrorKeys(failures))))))
  }

  // ---------------------------------------------------------------------------
  // Outcome to response, one function per action
  // ---------------------------------------------------------------------------

  /** `GetAll`: the service's list; the action's catch-all cannot fire in this model. */
  function GetAllResponse(applicants: seq<Applicant>): (r: Response)
    ensures r.status == 200 && r.body == Some(AllApplicants(applicants))
  {
    Response(200, None, Some(AllApplicants(applicants)))
  }

  /** `Get`: the entity, 404 for a missing id, 500 for anything else. */
  function GetResponse(r: Result<Applicant, ServiceError>): (resp: Response)
    ensures r.Ok? <==> resp.status == 200
    ensures r.Ok? ==> resp.body == Some(OneApplicant(r.value))
    ensures r == Err(NotFound) <==> resp == NotFoundResponse
    ensures resp.status in {200, 404, 500}
    ensures resp.status == 500 <==> resp.body.None?
  {
    match r
    case Ok(a) => Response(200, None, Some(OneApplicant(a)))
    case Err(NotFound) => NotFoundResponse
    case Err(_) => ServerErrorResponse
  }

  /**
   * `Create`: 201 with the new id and its uri (also the `Location`), 400 for
   * invalid data, 500 for anything else. The action has no not-found handler,
   * so a not-found would be a 500.
   */
  function CreateResponse(r: Result<Applicant, ServiceError>): (resp: Response)
    ensures r.Ok? <==> resp.status == 201
    ensures r.Ok? ==> resp.location == Some(ResourceUri(r.value.id))
    ensures r.Ok? ==> resp.body == Some(Resource(ApiResourceResponse(true, Some(r.value.id), Some(ResourceUri(r.value.id)), None)))
    ensures r.Err? && r.error.Invalid? <==> resp.status == 400
    ensures r.Err? && r.error.Invalid? ==> resp == BadRequestResponse(r.error.failures)
    ensures resp.status in {201, 400, 500}
    ensures resp.status == 500 <==> resp.body.None?
  {
    match r
    case Ok(a) =>
      var uri := ResourceUri(a.id);
      Response(201, Some(uri), Some(Resource(ApiResourceResponse(true, Some(a.id), Some(uri), None))))
    case Err(Invalid(failures)) => BadRequestResponse(failures)
    case Err(_) => ServerErrorResponse
  }

  /** `Update` on route id `id`: 200 with that id and uri, 400, 404, or 500. */
  function UpdateResponse(id: int, r: Outcome<ServiceError>): (resp: Response)
    ensures r.Pass? <==> resp.status == 200
    ensures r.Pass? ==> resp.body == Some(Resource(ApiResourceResponse(true, Some(id), Some(ResourceUri(id)), None)))
    ensures r.Fail? && r.error.Invalid? <==> resp.status == 400
    ensures r.Fail? && r.error.Invalid? ==> resp == BadRequestResponse(r.error.failures)
    ensures r == Fail(NotFound) <==> resp == NotFoundResponse
    ensures resp.status in {200, 400, 404, 500}
    ensures resp.status == 500 <==> resp.body.None?
  {
    match r
    case Pass => Response(200, None, Some(Resource(ApiResourceResponse(true, Some(id), Some(ResourceUri(id)), None))))
    case Fail(Invalid(failures)) => BadRequestResponse(failures)
    case Fail(NotFound) => NotFoundResponse
    case Fail(_) => ServerErrorResponse
  }

  /** `Delete`: 200 with neither id nor uri, 404, or 500. */
  function DeleteResponse(r: Outcome<ServiceError>): (resp: Response)
    ensures r.Pass? <==> resp.status == 200
    ensures r.Pass? ==> resp.body == Some(Resource(ApiResourceResponse(true, None, None, None)))
    ensures r == Fail(NotFound) <==> resp == NotFoundResponse
    ensures resp.status in {200, 404, 500}
    ensures resp.status == 500 <==> resp.body.None?
  {
    match r
    case Pass => Response(200, None, Some(Resource(ApiResourceResponse(true, None, None, None))))
    case Fail(NotFound) => NotFoundResponse
    case Fail(_) => ServerErrorResponse
  }

  // ---------------------------------------------------------------------------
  // Properties
  // ---------------------------------------------------------------------------

  /** The key of a failure whose texts contain no ':' splits back into message and property name. */
  lemma ErrorKeySplits(f: ValidationFailure)
    requires ':' !in f.errorMessage && ':' !in f.propertyName
    ensures Split(ErrorKey(f), ':') == [f.errorMessage, f.propertyName]
  {
    var parts := [f.errorMessage, f.propertyName];
    assert Join(parts, ':') == ErrorKey(f) by {
      assert parts[1..] == [f.propertyName];
    }
    SplitJoin(parts, ':');
  }

  /** Different ids have different resource uris, so the uri identifies the applicant. */
  lemma ResourceUriIdentifies(a: int, b: int)
    requires ResourceUri(a) == ResourceUri(b)
    ensures a == b
  {
    var prefix := "applicant/";
    assert ResourceUri(a)[|prefix|..] == IntToDecimal(a);
    assert ResourceUri(b)[|prefix|..] == IntToDecimal(b);
    IntToDecimalInjective(a, b);
  }

  /** The create action never answers 404, whatever the service does. */
  lemma CreateNeverAnswersNotFound(st: ServiceState, answers: DirectoryAnswers, e: Applicant, newId: int)
    requires newId !in st.store
    ensures CreateResponse(CreateSpec(st, answers, e, newId).result) != NotFoundResponse
    ensures CreateSpec(st, answers, e, newId).result != Err(NotFound)
  {
  }

  /**
   * The body's id is replaced by the route's: a valid update stores the body
   * under the route id and answers with that id, whatever id the body carried.
   */
  lemma UpdateWritesUnderRouteId(st: ServiceState, answers: DirectoryAnswers, id: int, body: Applicant)
    requires id in st.store
    requires Service.ValidateStep(st.caches, answers, body.(id := id)).1.Pass?
    ensures var s := UpdateSpec(st, answers, body.(id := id));
      s.state.store == st.store[id := body.(id := id)]
      && UpdateResponse(id, s.result).body
        == Some(Resource(ApiResourceResponse(true, Some(id), Some(ResourceUri(id)), None)))
  {
  }

  /**
   * With loaded caches, a create or update of an applicant that breaks a rule
   * answers 400 with one key "<message>:<PropertyName>" per violated rule, in
   * the rule set's order.
   */
  lemma UnacceptableDataAnswersBadRequest(st: ServiceState, answers: DirectoryAnswers, e: Applicant, newId: int)
    requires st.caches.Some? && |st.caches.value.countries| > 0
    requires !ValidatorProperties.Acceptable(e, st.caches.value)
    requires newId !in st.store
    ensures var keys := ErrorKeys(ValidatorProperties.Violations(0, e, st.caches.value));
      && CreateResponse(CreateSpec(st, answers, e, newId).result).body.value.resource.errorKeys == Some(keys)
      && UpdateResponse(e.id, UpdateSpec(st, answers, e).result).body.value.resource.errorKeys == Some(keys)
      && CreateResponse(CreateSpec(st, answers, e, newId).result).status == 400
  {
    var c := st.caches.value;
    ValidatorProperties.ValidationReportsViolatedRules(c, answers, e);
    ValidatorProperties.ValidIffAcceptable(c, answers, e);
  }

  // ---------------------------------------------------------------------------
  // The controller object
  // ---------------------------------------------------------------------------

  class ApplicantsController {
    const service: GenericService

    constructor (service: GenericService)
      ensures this.service == service
    {
      this.service := service;
    }

    method GetAll() returns (resp: Response)
      requires service.repository.Valid()
      ensures resp.status == 200 && resp.body.Some? && resp.body.value.AllApplicants?
      ensures var all := resp.body.value.applicants;
        |all| == |service.repository.entities|
        && (forall i | 0 <= i < |all| ::
              all[i].id in service.repository.entities && service.repository.entities[all[i].id] == all[i])
        && (forall i, j | 0 <= i < j < |all| :: all[i].id != all[j].id)
    {
      var all := service.GetAll();
      resp := GetAllResponse(all);
    }

    method Get(id: int) returns (resp: Response)
      ensures resp == GetResponse(Find(service.repository.entities, id))
    {
      var r := service.Get(id);
      resp := GetResponse(r);
    }

    method Create(applicant: Applicant, answers: DirectoryAnswers, candidates: nat -> int) returns (resp: Response)
      requires service.repository.Valid() && HasUnused(service.repository.entities, candidates)
      modifies service.repository, service.validator
      ensures service.repository.Valid()
      ensures exists newId | newId !in old(service.repository.entities) ::
        var s := CreateSpec(old(service.State()), answers, applicant, newId);
        s.state == service.State() && resp == CreateResponse(s.result)
      ensures resp.status == 201 ==>
        resp.body.Some? && resp.body.value.Resource? && resp.body.value.resource.id.Some?
        && FirstUnused(old(service.repository.entities), candidates, resp.body.value.resource.id.value)
    {
      ghost var before := service.State();
      var r := service.Create(applicant, answers, candidates);
      resp := CreateResponse(r);
      if r.Err? {
        ghost var w: nat :| candidates(w) !in before.store;
        assert CreateSpec(before, answers, applicant, candidates(w)).state == service.State();
      } else {
        assert CreateSpec(before, answers, applicant, r.value.id).state == service.State();
      }
    }

    method Update(id: int, applicant: Applicant, answers: DirectoryAnswers) returns (resp: Response)
      requires service.repository.Valid()
      modifies service.repository, service.validator
      ensures service.repository.Valid()
      ensures var s := UpdateSpec(old(service.State()), answers, applicant.(id := id));
        s.state == service.State() && resp == UpdateResponse(id, s.result)
    {
      var body := applicant.(id := id);
      var r := service.Update(body, answers);
      resp := UpdateResponse(id, r);
    }

    method Delete(id: int) returns (resp: Response)
      requires service.repository.Valid()
      modifies service.repository
      ensures service.repository.Valid()
      ensures var r := Removed(old(service.repository.entities), id);
        resp == DeleteResponse(if r.Ok? then Pass else Fail(r.error))
        && service.repository.entities == (if r.Ok? then r.value else old(service.repository.entities))
    {
      var r := service.Delete(id);
      resp := DeleteResponse(r);
    }
  }
}
