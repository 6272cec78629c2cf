/**
 * The page around the form: it chooses between create and update, builds the
 * repository call's positional arguments from the model's fields, and turns
 * the API's answer into what the user sees (form closed and list reloaded, a
 * not-found notice, inline errors, or an unknown-error notice).
 *
 * The HTTP exchange is a parameter: the answer of the request is passed in,
 * `None` when the request or the JSON decoding of its body failed. Whether
 * the list reload after a success fails is a parameter too: it runs inside
 * the same `try`, so its failure opens the unknown-error notice.
 */
module Viewport {
  import opened Wrappers
  import opened ClientModels

  // ---------------------------------------------------------------------------
  // Positional arguments
  // ---------------------------------------------------------------------------

  /** A field value as `applicant[k]` yields it. */
  datatype FieldValue =
    | NumberValue(number: Option<int>)
    | TextValue(text: Option<string>)
    | FlagValue(flag: bool)

  /** The keys of a model built from `new Applicant()`, in declaration order. */
  const FieldNames: seq<string> :=
    ["id", "name", "familyName", "address", "countryOfOrigin", "eMailAddress", "age", "hired"]

  /** `applicant[name]` for a key of the model. */
  function Field(a: ClientApplicant, name: string): Option<FieldValue>
  {
    if name == "id" then Some(NumberValue(a.id))
    else if name == "name" then Some(TextValue(a.name))
    else if name == "familyName" then Some(TextValue(a.familyName))
    else if name == "address" then Some(TextValue(a.address))
    else if name == "countryOfOrigin" then Some(TextValue(a.countryOfOrigin))
    else if name == "eMailAddress" then Some(TextValue(a.eMailAddress))
    else if name == "age" then Some(NumberValue(a.age))
    else if name == "hired" then Some(FlagValue(a.hired))
    else None
  }

  /** `Object.keys(applicant).map(k => applicant[k])`. */
  function FieldValues(a: ClientApplicant): (vs: seq<FieldValue>)
    ensures |vs| == |FieldNames|
  {
    [NumberValue(a.id), TextValue(a.name), TextValue(a.familyName), TextValue(a.address),
     TextValue(a.countryOfOrigin), TextValue(a.eMailAddress), NumberValue(a.age), FlagValue(a.hired)]
  }

  /** The parameters of the repository's `createApplicant`, in order. */
  const CreateParameters: seq<string> :=
    ["name", "familyName", "address", "countryOfOrigin", "eMailAddress", "age", "hired"]

  /** The parameters of the repository's `updateApplicant`, in order. */
  const UpdateParameters: seq<string> :=
    ["id", "name", "familyName", "address", "countryOfOrigin", "eMailAddress", "age", "hired"]

  /** `createApplicant`: the values with the first key's (`id`'s) dropped by `splice(1)`. */
  function CreateArguments(a: ClientApplicant): (args: seq<FieldValue>)
    ensures |args| == |FieldNames| - 1
  {
    FieldValues(a)[1..]
  }

  /** `updateApplicant`: all values, `id` first. */
  function UpdateArguments(a: ClientApplicant): (args: seq<FieldValue>)
    ensures |args| == |FieldNames|
  {
    FieldValues(a)
  }

  /** Every value lands on the parameter of the same name as the field it was read from. */
  lemma ArgumentsBindByName(a: ClientApplicant)
    ensures |CreateArguments(a)| == |CreateParameters|
    ensures forall k | 0 <= k < |CreateParameters| :: Field(a, CreateParameters[k]) == Some(CreateArguments(a)[k])
    ensures |UpdateArguments(a)| == |UpdateParameters|
    ensures forall k | 0 <= k < |UpdateParameters| :: Field(a, UpdateParameters[k]) == Some(UpdateArguments(a)[k])
  {
    assert forall k | 0 <= k < |FieldNames| :: Field(a, FieldNames[k]) == Some(FieldValues(a)[k]);
    assert CreateParameters == FieldNames[1..];
    assert UpdateParameters == FieldNames;
  }

  // ---------------------------------------------------------------------------
  // Create or update, and what the answer means
  // ---------------------------------------------------------------------------

  /** The repository call a save makes. */
  datatype SaveCall = CreateCall(args: seq<FieldValue>) | UpdateCall(args: seq<FieldValue>)

  /** A truthy id updates; a null or 0 id creates. */
  function SaveCallFor(a: ClientApplicant): (c: SaveCall)
    ensures c.UpdateCall? <==> NonZero(a.id)
    ensures c.UpdateCall? ==> c.args == UpdateArguments(a) && c.args[0] == NumberValue(a.id)
    ensures c.CreateCall? ==> c.args == CreateArguments(a)
  {
    if NonZero(a.id) then UpdateCall(UpdateArguments(a)) else CreateCall(CreateArguments(a))
  }

  /** The error key the client recognises as "no such applicant". */
  const IdNotFound: string := "id-not-found"

  /** What the page does after a save. */
  datatype SaveAction =
    | CloseAndReload
    | SaveNotFound
    | ShowInline(keys: seq<string>)
    | SaveFailed

  /**
   * `onSavePress` on the answer: success closes and reloads; a single
   * "id-not-found" key is a not-found notice; other keys are shown inline;
   * no keys, and an answer that could not be had, are an unknown error.
   */
  function ClassifySave(answer: Option<ApiResponse>): (r: SaveAction)
    ensures r == CloseAndReload <==> answer.Some? && answer.value.success
    ensures r == SaveNotFound <==> answer.Some? && !answer.value.success && answer.value.errorKeys == Some([IdNotFound])
    ensures r.ShowInline? <==> (answer.Some? && !answer.value.success && answer.value.errorKeys.Some?
      && answer.value.errorKeys.value != [] && answer.value.errorKeys.value != [IdNotFound])
    ensures r.ShowInline? ==> Some(r.keys) == answer.value.errorKeys
  {
    match answer
    case None => SaveFailed
    case Some(resp) =>
      if resp.success then CloseAndReload
      else if resp.errorKeys.Some? && |resp.errorKeys.value| > 0 then
        var keys := resp.errorKeys.value;
        assert |keys| == 1 ==> keys == [keys[0]];
        if |keys| == 1 && keys[0] == IdNotFound then SaveNotFound else ShowInline(keys)
      else SaveFailed
  }

  /** What the page does after a confirmed delete. */
  datatype DeleteAction = Reload | DeleteNotFound | DeleteFailed

  /** `onDeletePress` on the answer: success reloads, a single "id-not-found" key is a not-found notice, anything else is an unknown error. */
  function ClassifyDelete(answer: Option<ApiResponse>): (r: DeleteAction)
    ensures r == Reload <==> answer.Some? && answer.value.success
    ensures r == DeleteNotFound <==> answer.Some? && !answer.value.success && answer.value.errorKeys == Some([IdNotFound])
  {
    match answer
    case None => DeleteFailed
    case Some(resp) =>
      assert resp.errorKeys.Some? && |resp.errorKeys.value| == 1 ==> resp.errorKeys.value == [resp.errorKeys.value[0]];
      if resp.success then Reload
      else if resp.errorKeys.Some? && |resp.errorKeys.value| == 1 && resp.errorKeys.value[0] == IdNotFound then DeleteNotFound
      else DeleteFailed
  }

  /** The two classifications agree except that inline errors are a save-only reaction. */
  lemma SaveAndDeleteAgree(answer: Option<ApiResponse>)
    ensures ClassifySave(answer) == CloseAndReload <==> ClassifyDelete(answer) == Reload
    ensures ClassifySave(answer) == SaveNotFound <==> ClassifyDelete(answer) == DeleteNotFound
    ensures ClassifySave(answer) == SaveFailed || ClassifySave(answer).ShowInline? <==> ClassifyDelete(answer) == DeleteFailed
  {
  }

  /** The notices the page opens. */
  datatype Notice = ApplicantNotFound | SavingFailedUnknown | DeletingFailedUnknown

  // ---------------------------------------------------------------------------
  // The page object
  // ---------------------------------------------------------------------------

  class ViewportPage {
    var editingApplicant: ClientApplicant
    /** The server's error keys, bound to the form. */
    var serverInvalidation: seq<string>
    var formOpen: bool
    /** The notices opened so far, in order. */
    var notices: seq<Notice>
    /** How many reloads of the applicant list were started. */
    var reloads: nat

    constructor ()
      ensures serverInvalidation == [] && !formOpen && notices == [] && reloads == 1
    {
      editingApplicant := NewApplicant;
      serverInvalidation := [];
      formOpen := false;
      notices := [];
      reloads := 1;
    }

    /** `onAddPress`: edit a new applicant. */
    method OnAddPress()
      modifies this`editingApplicant, this`formOpen
      ensures editingApplicant == NewApplicant && formOpen
    {
      editingApplicant := NewApplicant;
      formOpen := true;
    }

    /** `onEditPress`: edit a copy of `applicant`. */
    method OnEditPress(applicant: ClientApplicant)
      modifies this`editingApplicant, this`formOpen
      ensures editingApplicant == applicant && formOpen
    {
      editingApplicant := applicant;
      formOpen := true;
    }

    /**
     * `onSavePress`: clear the server errors, make the call `SaveCallFor`
     * chooses, and act on `answer`, the answer to that call. `reloadFails`
     * says whether the reload after a success throws.
     */
    method OnSavePress(answer: Option<ApiResponse>, reloadFails: bool) returns (call: SaveCall)
      modifies this`serverInvalidation, this`formOpen, this`notices, this`reloads
      ensures call == SaveCallFor(editingApplicant)
      ensures match ClassifySave(answer)
        case CloseAndReload =>
          !formOpen && serverInvalidation == [] && reloads == old(reloads) + 1
          && notices == old(notices) + (if reloadFails then [SavingFailedUnknown] else [])
        case SaveNotFound =>
          formOpen == old(formOpen) && serverInvalidation == [] && notices == old(notices) + [ApplicantNotFound]
          && reloads == old(reloads)
        case ShowInline(keys) =>
          formOpen == old(formOpen) && serverInvalidation == keys && notices == old(notices) && reloads == old(reloads)
        case SaveFailed =>
          formOpen == old(formOpen) && serverInvalidation == [] && notices == old(notices) + [SavingFailedUnknown]
          && reloads == old(reloads)
    {
      serverInvalidation := [];
      if NonZero(editingApplicant.id) {
        call := UpdateCall(UpdateArguments(editingApplicant));
      } else {
        call := CreateCall(CreateArguments(editingApplicant));
      }
      if answer.None? {
        notices := notices + [SavingFailedUnknown];
        return;
      }
      var response := answer.value;
      if response.success {
        formOpen := false;
        reloads := reloads + 1;
        if reloadFails {
          notices := notices + [SavingFailedUnknown];
        }
      } else if response.errorKeys.Some? && |response.errorKeys.value| > 0 {
        if |response.errorKeys.value| == 1 && response.errorKeys.value[0] == IdNotFound {
          notices := notices + [ApplicantNotFound];
        } else {
          serverInvalidation := response.errorKeys.value;
        }
      } else {
        notices := notices + [SavingFailedUnknown];
      }
    }

    /**
     * `onDeletePress`: nothing happens unless the user confirms; then delete
     * by the applicant's id and act on `answer`; `reloadFails` says whether
     * the reload after a success throws. Returns the id sent, if any.
     */
    method OnDeletePress(applicant: ClientApplicant, confirmed: bool, answer: Option<ApiResponse>, reloadFails: bool)
      returns (sent: Option<Option<int>>)
      modifies this`notices, this`reloads
      ensures !confirmed ==> sent == None && notices == old(notices) && reloads == old(reloads)
      ensures confirmed ==> sent == Some(applicant.id)
      ensures confirmed ==> match ClassifyDelete(answer)
        case Reload =>
          notices == old(notices) + (if reloadFails then [DeletingFailedUnknown] else []) && reloads == old(reloads) + 1
        case DeleteNotFound => notices == old(notices) + [ApplicantNotFound] && reloads == old(reloads)
        case DeleteFailed => notices == old(notices) + [DeletingFailedUnknown] && reloads == old(reloads)
    {
      if !confirmed {
        return None;
      }
      sent := Some(applicant.id);
      if answer.None? {
        notices := notices + [DeletingFailedUnknown];
        return;
      }
      var response := answer.value;
      if response.success {
        reloads := reloads + 1;
        if reloadFails {
          notices := notices + [DeletingFailedUnknown];
        }
      } else if response.errorKeys.Some? && |response.errorKeys.value| == 1 && response.errorKeys.value[0] == IdNotFound {
        notices := notices + [ApplicantNotFound];
      } else {
        notices := notices + [DeletingFailedUnknown];
      }
    }
  }
}
