/**
 * The browser client's view of the data: the applicant as the form edits it
 * (every field may be null, and JavaScript truthiness decides what counts as
 * filled in), the API answer as the client decodes it, and JavaScript's
 * `TypeError` as a value.
 */
module ClientModels {
  import opened Wrappers

  /** applicant.ts; `None` is null. A fresh applicant has every field null and `hired` false. */
  datatype ClientApplicant = ClientApplicant(
    id: Option<int>,
    name: Option<string>,
    familyName: Option<string>,
    address: Option<string>,
    countryOfOrigin: Option<string>,
    eMailAddress: Option<string>,
    age: Option<int>,
    hired: bool)

  const NewApplicant: ClientApplicant := ClientApplicant(None, None, None, None, None, None, None, false)

  /** JavaScript truthiness of a nullable string: not null and not "". */
  predicate Filled(s: Option<string>)
  {
    s.Some? && s.value != ""
  }

  /** JavaScript truthiness of a nullable number: not null and not 0. */
  predicate NonZero(n: Option<int>)
  {
    n.Some? && n.value != 0
  }

  /** api-response.ts: the JSON body of a create, update or delete answer. */
  datatype ApiResponse = ApiResponse(
    success: bool,
    id: Option<int>,
    uri: Option<string>,
    errorKeys: Option<seq<string>>)

  /** A `TypeError` thrown by a property access on null or undefined. */
  datatype Thrown = TypeError
}
