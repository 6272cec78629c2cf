/**
 * The two halves together: what the client makes of each answer the API
 * gives, and what the form makes of the server's error keys. The JSON body
 * of an answer is read as the client's `ApiResponse`. The API's 500 carries
 * no `ApiResourceResponse`: its body is either absent, and `response.json()`
 * throws, or a problem-details object without `success` and `errorKeys`;
 * the page treats both like an unknown error (`ProblemDetailsLikeNoAnswer`).
 */
module EndToEnd {
  import opened Wrappers
  import opened Text
  import opened Models
  import ApplicantValidation
  import ValidatorProperties
  import Service
  import Controller
  import ClientModels
  import Form
  import Viewport

  /** The body of an answer as the client reads it; `None` when `response.json()` throws, which is how a 500 is read here. */
  function ClientView(response: Controller.Response): (r: Option<ClientModels.ApiResponse>)
    ensures response.body.None? <==> r.None?
    ensures response.body.Some? && response.body.value.Resource? ==>
      var res := response.body.value.resource;
      r == Some(ClientModels.ApiResponse(res.success, res.id, res.uri, res.errorKeys))
  {
    match response.body
    case None => None
    case Some(Resource(res)) => Some(ClientModels.ApiResponse(res.success, res.id, res.uri, res.errorKeys))
    // An entity read as an `ApiResponse` has no `success` and no `errorKeys`.
    case Some(OneApplicant(a)) => Some(ClientModels.ApiResponse(false, Some(a.id), None, None))
    case Some(AllApplicants(_)) => Some(ClientModels.ApiResponse(false, None, None, None))
  }

  /** A 500 read as a problem-details object leads to the same actions as one whose body cannot be read. */
  lemma ProblemDetailsLikeNoAnswer()
    ensures var details := Some(ClientModels.ApiResponse(false, None, None, None));
      Viewport.ClassifySave(details) == Viewport.ClassifySave(None) == Viewport.SaveFailed
      && Viewport.ClassifyDelete(details) == Viewport.ClassifyDelete(None) == Viewport.DeleteFailed
  {
  }

  /** The client's not-found key is the server's. */
  lemma NotFoundKeysAgree()
    ensures Viewport.IdNotFound == Controller.NotFoundKey
  {
  }

  /** A validation failure's key contains ':' and so is never the not-found key. */
  lemma ErrorKeyIsNotNotFound(f: ValidationFailure)
    ensures ':' in Controller.ErrorKey(f)
    ensures Controller.ErrorKey(f) != Viewport.IdNotFound
  {
    assert Controller.ErrorKey(f)[|f.errorMessage|] == ':';
  }

  lemma ErrorKeysAreNotNotFound(fs: seq<ValidationFailure>)
    requires fs != []
    ensures Controller.ErrorKeys(fs) != [Viewport.IdNotFound]
  {
    ErrorKeyIsNotNotFound(fs[0]);
  }

  // ---------------------------------------------------------------------------
  // What the page does with each answer
  // ---------------------------------------------------------------------------

  /**
   * After an update: success closes and reloads, a missing id is a not-found
   * notice, failures are shown inline, and everything else is an unknown error.
   */
  lemma UpdateAnswerClassified(id: int, r: Outcome<ServiceError>)
    ensures var action := Viewport.ClassifySave(ClientView(Controller.UpdateResponse(id, r)));
      match r
      case Pass => action == Viewport.CloseAndReload
      case Fail(NotFound) => action == Viewport.SaveNotFound
      case Fail(Invalid(fs)) => action == if fs == [] then Viewport.SaveFailed else Viewport.ShowInline(Controller.ErrorKeys(fs))
      case Fail(Infrastructure(_)) => action == Viewport.SaveFailed
  {
    if r.Fail? && r.error.Invalid? && r.error.failures != [] {
      ErrorKeysAreNotNotFound(r.error.failures);
    }
  }

  /** After a create: the same, except that a not-found can only surface as an unknown error. */
  lemma CreateAnswerClassified(r: Result<Applicant, ServiceError>)
    ensures var action := Viewport.ClassifySave(ClientView(Controller.CreateResponse(r)));
      match r
      case Ok(_) => action == Viewport.CloseAndReload
      case Err(Invalid(fs)) => action == if fs == [] then Viewport.SaveFailed else Viewport.ShowInline(Controller.ErrorKeys(fs))
      case Err(_) => action == Viewport.SaveFailed
  {
    if r.Err? && r.error.Invalid? && r.error.failures != [] {
      ErrorKeysAreNotNotFound(r.error.failures);
    }
  }

  /** After a delete: success reloads, a missing id is a not-found notice, anything else an unknown error. */
  lemma DeleteAnswerClassified(r: Outcome<ServiceError>)
    ensures var action := Viewport.ClassifyDelete(ClientView(Controller.DeleteResponse(r)));
      match r
      case Pass => action == Viewport.Reload
      case Fail(NotFound) => action == Viewport.DeleteNotFound
      case Fail(_) => action == Viewport.DeleteFailed
  {
  }

  /** The service never reports "invalid" without failures, so an invalid save always shows inline errors. */
  lemma InvalidIsNeverEmpty(st: Service.ServiceState, answers: DirectoryAnswers, e: Applicant, newId: int)
    requires newId !in st.store
    ensures Service.UpdateSpec(st, answers, e).result != Fail(Invalid([]))
    ensures Service.CreateSpec(st, answers, e, newId).result != Err(Invalid([]))
  {
  }

  // ---------------------------------------------------------------------------
  // Error keys from the validator reach the form intact
  // ---------------------------------------------------------------------------

  /** A failure whose key the form can parse: no ':' in either half and a property name. */
  predicate Keyable(f: ValidationFailure)
  {
    ':' !in f.errorMessage && ':' !in f.propertyName && f.propertyName != ""
  }

  predicate AllKeyable(fs: seq<ValidationFailure>)
  {
    forall k | 0 <= k < |fs| :: Keyable(fs[k])
  }

  /** The key the form parses for a keyable failure: the message and the property with its first letter lower-cased. */
  function ServerKeyOf(f: ValidationFailure): (key: Form.ServerKey)
    requires Keyable(f)
    ensures key.code == f.errorMessage && |key.property| == |f.propertyName|
  {
    Form.ServerKey(f.errorMessage, LowerFirst(f.propertyName))
  }

  function ServerKeysOf(fs: seq<ValidationFailure>): (keys: seq<Form.ServerKey>)
    requires AllKeyable(fs)
    ensures |keys| == |fs|
  {
    seq(|fs|, k requires 0 <= k < |fs| => ServerKeyOf(fs[k]))
  }

  /** Every key of keyable failures parses, so the form shows one error per failure and throws on none. */
  lemma {:induction false} ErrorKeysParse(fs: seq<ValidationFailure>)
    requires AllKeyable(fs)
    ensures Form.ParsedPrefix(Controller.ErrorKeys(fs)) == ServerKeysOf(fs)
    decreases |fs|
  {
    if fs != [] {
      var keys := Controller.ErrorKeys(fs);
      var f := fs[0];
      Form.ParseKeyOfJoined(f.errorMessage, f.propertyName);
      assert keys[0] == f.errorMessage + ":" + f.propertyName;
      ErrorKeysDrop(fs);
      ServerKeysOfCons(fs);
      ErrorKeysParse(fs[1..]);
      Form.ParsedPrefixUnfold(keys);
    }
  }

  /** The keys after the first are the keys of the failures after the first. */
  lemma ErrorKeysDrop(fs: seq<ValidationFailure>)
    requires fs != []
    ensures Controller.ErrorKeys(fs)[1..] == Controller.ErrorKeys(fs[1..])
  {
  }

  /** The parsed keys of keyable failures, first one split off. */
  lemma ServerKeysOfCons(fs: seq<ValidationFailure>)
    requires AllKeyable(fs) && fs != []
    ensures AllKeyable(fs[1..])
    ensures ServerKeysOf(fs) == [ServerKeyOf(fs[0])] + ServerKeysOf(fs[1..])
  {
    assert forall k | 0 <= k < |fs| - 1 :: fs[1..][k] == fs[k + 1];
  }

  lemma LowerFirstOfProperties()
    ensures LowerFirst("Name") == "name" && LowerFirst("FamilyName") == "familyName"
    ensures LowerFirst("Address") == "address" && LowerFirst("CountryOfOrigin") == "countryOfOrigin"
    ensures LowerFirst("EMailAddress") == "eMailAddress" && LowerFirst("Age") == "age"
  {
    assert LowerChar('N') == 'n' && LowerChar('F') == 'f' && LowerChar('A') == 'a';
    assert LowerChar('C') == 'c' && LowerChar('E') == 'e';
  }

  /** The property of every rule, first letter lower-cased, is a field of the client's model. */
  lemma RulePropertyIsFormField(k: nat)
    requires k < |ValidatorProperties.RuleTable|
    ensures LowerFirst(ValidatorProperties.RuleTable[k].propertyName) in Viewport.FieldNames
  {
    var p := ValidatorProperties.RuleTable[k].propertyName;
    LowerFirstOfProperties();
    if k < 2 {
      assert p == "Name";
    } else if k < 4 {
      assert p == "FamilyName";
    } else if k < 6 {
      assert p == "Address";
    } else if k < 8 {
      assert p == "CountryOfOrigin";
    } else if k < 10 {
      assert p == "EMailAddress";
    } else {
      assert p == "Age";
    }
  }

  lemma ConcatKeyable(x: seq<ValidationFailure>, y: seq<ValidationFailure>)
    requires AllKeyable(x) && AllKeyable(y)
    ensures AllKeyable(x + y)
  {
    forall i | 0 <= i < |x + y|
      ensures Keyable((x + y)[i])
    {
      if i >= |x| {
        assert (x + y)[i] == y[i - |x|];
      }
    }
  }

  /** The failures of a "required then minimum length" rule pair are keyable. */
  lemma LengthRulesAreKeyable(property: string, value: string, min: nat, message: string)
    requires ':' !in property && property != "" && ':' !in message
    ensures AllKeyable(ApplicantValidation.LengthRules(property, value, min, message))
  {
    ConcatKeyable(ApplicantValidation.RequiredRule(property, value),
      if |value| < min then [ValidationFailure(property, message)] else []);
  }

  /** A "required" failure is keyable. */
  lemma RequiredRuleIsKeyable(property: string, value: string)
    requires ':' !in property && property != ""
    ensures AllKeyable(ApplicantValidation.RequiredRule(property, value))
  {
  }

  /** An "invalid" failure is keyable. */
  lemma MustRuleIsKeyable(property: string, ok: bool)
    requires ':' !in property && property != ""
    ensures AllKeyable(ApplicantValidation.MustRule(property, ok))
  {
  }

  /** The age failure is keyable. */
  lemma AgeRuleIsKeyable(age: int)
    ensures AllKeyable(ApplicantValidation.AgeRule(age))
  {
  }

  /** Every failure a loaded validation reports is keyable. */
  lemma ViolationsAreKeyable(a: Applicant, c: ApplicantValidation.Caches)
    ensures AllKeyable(ValidatorProperties.Violations(0, a, c))
  {
    ValidatorProperties.ViolationsHead(a, c);
    TextRulesAreKeyable(a);
    LaterRulesAreKeyable(a, c);
    ConcatKeyable(ApplicantValidation.TextRules(a), ValidatorProperties.Violations(6, a, c));
  }

  /** The failures of the name, family-name and address rules are keyable. */
  lemma TextRulesAreKeyable(a: Applicant)
    ensures AllKeyable(ApplicantValidation.TextRules(a))
  {
    var n := ApplicantValidation.LengthRules("Name", a.name, 5, "minlen-5");
    var f := ApplicantValidation.LengthRules("FamilyName", a.familyName, 5, "minlen-5");
    var d := ApplicantValidation.LengthRules("Address", a.address, 10, "minlen-10");
    LengthRulesAreKeyable("Name", a.name, 5, "minlen-5");
    LengthRulesAreKeyable("FamilyName", a.familyName, 5, "minlen-5");
    LengthRulesAreKeyable("Address", a.address, 10, "minlen-10");
    ConcatKeyable(n, f);
    ConcatKeyable(n + f, d);
  }

  /** The failures of the country, e-mail and age rules are keyable. */
  lemma LaterRulesAreKeyable(a: Applicant, c: ApplicantValidation.Caches)
    ensures AllKeyable(ValidatorProperties.Violations(6, a, c))
  {
    ValidatorProperties.ViolationsOfCountry(a, c);
    var r := ApplicantValidation.RequiredRule("CountryOfOrigin", a.countryOfOrigin);
    var m := ApplicantValidation.MustRule("CountryOfOrigin",
      a.countryOfOrigin != "" && Lower(a.countryOfOrigin) in c.countries);
    RequiredRuleIsKeyable("CountryOfOrigin", a.countryOfOrigin);
    MustRuleIsKeyable("CountryOfOrigin", a.countryOfOrigin != "" && Lower(a.countryOfOrigin) in c.countries);
    EMailAndAgeRulesAreKeyable(a, c);
    ConcatKeyable(r, m);
    ConcatKeyable(r + m, ValidatorProperties.Violations(8, a, c));
  }

  /** The failures of the e-mail and age rules are keyable. */
  lemma EMailAndAgeRulesAreKeyable(a: Applicant, c: ApplicantValidation.Caches)
    ensures AllKeyable(ValidatorProperties.Violations(8, a, c))
  {
    ValidatorProperties.ViolationsOfEMail(a, c);
    ValidatorProperties.ViolationsOfAge(a, c);
    var r := ApplicantValidation.RequiredRule("EMailAddress", a.eMailAddress);
    var m := ApplicantValidation.MustRule("EMailAddress", ValidatorProperties.GoodEMail(a.eMailAddress, c.tlds));
    RequiredRuleIsKeyable("EMailAddress", a.eMailAddress);
    MustRuleIsKeyable("EMailAddress", ValidatorProperties.GoodEMail(a.eMailAddress, c.tlds));
    AgeRuleIsKeyable(a.age);
    ConcatKeyable(r, m);
    ConcatKeyable(r + m, ApplicantValidation.AgeRule(a.age));
  }

  /**
   * End to end: with the caches loaded, saving an applicant that breaks
   * rules shows the violated rules inline, one form error per rule in the
   * validator's order, on the field with the server's property name
   * lower-cased first, and the form's key parsing never throws.
   */
  lemma UnacceptableSaveShowsEveryViolation(st: Service.ServiceState, answers: DirectoryAnswers, e: Applicant, newId: int)
    requires st.caches.Some? && |st.caches.value.countries| > 0
    requires !ValidatorProperties.Acceptable(e, st.caches.value)
    requires newId !in st.store
    ensures var failures := ValidatorProperties.Violations(0, e, st.caches.value);
      var keys := Controller.ErrorKeys(failures);
      && failures != []
      && Viewport.ClassifySave(ClientView(Controller.UpdateResponse(e.id, Service.UpdateSpec(st, answers, e).result)))
        == Viewport.ShowInline(keys)
      && Viewport.ClassifySave(ClientView(Controller.CreateResponse(Service.CreateSpec(st, answers, e, newId).result)))
        == Viewport.ShowInline(keys)
      && AllKeyable(failures)
      && Form.ParsedPrefix(keys) == ServerKeysOf(failures)
  {
    var c := st.caches.value;
    var failures := ValidatorProperties.Violations(0, e, c);
    UnacceptableIsInvalid(st, answers, e, newId);
    UpdateAnswerClassified(e.id, Fail(Invalid(failures)));
    CreateAnswerClassified(Err(Invalid(failures)));
    ViolationsAreKeyable(e, c);
    ErrorKeysParse(failures);
  }

  /** With the caches loaded, create and update of an applicant that breaks rules fail with the violated rules. */
  lemma UnacceptableIsInvalid(st: Service.ServiceState, answers: DirectoryAnswers, e: Applicant, newId: int)
    requires st.caches.Some? && |st.caches.value.countries| > 0
    requires !ValidatorProperties.Acceptable(e, st.caches.value)
    requires newId !in st.store
    ensures var failures := ValidatorProperties.Violations(0, e, st.caches.value);
      && failures != []
      && Service.UpdateSpec(st, answers, e).result == Fail(Invalid(failures))
      && Service.CreateSpec(st, answers, e, newId).result == Err(Invalid(failures))
  {
    var c := st.caches.value;
    ValidatorProperties.ValidationReportsViolatedRules(c, answers, e);
    ValidatorProperties.ValidIffAcceptable(c, answers, e);
  }
}
