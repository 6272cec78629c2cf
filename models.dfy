/**
 * The server-side entities: the applicant (a `GenericEntity` with an integer
 * id), the country records of the external directory, the validator's
 * failures, and the three kinds of error the core raises.
 */
module Models {
  import opened Wrappers

  /** Applicant.cs: the id comes from GenericEntity.cs; strings are never null in this model. */
  datatype Applicant = Applicant(
    id: int,
    name: string,
    familyName: string,
    address: string,
    countryOfOrigin: string,
    eMailAddress: string,
    age: int,
    hired: bool)

  /**
   * CountryWebResponse.cs, one element of the directory's JSON array. `None`
   * stands for a JSON null (or a missing member), which the loader
   * dereferences or skips exactly as the source does.
   */
  datatype CountryRecord = CountryRecord(
    name: Option<string>,
    topLevelDomain: Option<seq<Option<string>>>)

  /** What one directory request (`WebGet`) yields: the parsed array, or a failed request or parse. */
  datatype Fetch = DirectoryUnavailable | Fetched(records: seq<CountryRecord>)

  /**
   * The answers to the requests one validation can make: the country check's
   * getter loads with a request of its own, and the e-mail check's getter,
   * when the country set is still empty, loads with another. Each answer is
   * read only when its getter actually loads.
   */
  datatype DirectoryAnswers = DirectoryAnswers(countryLoad: Fetch, eMailLoad: Fetch)

  /** Why the reference-data load threw. */
  datatype Fault =
    | DirectoryFailed        // WebGet threw, or the body was not a JSON array of countries
    | NullCountryName        // `country.Name.ToLower()` on a null name
    | NullTopLevelDomains    // `foreach` over a null `TopLevelDomain`

  /** One failed rule: FluentValidation's `PropertyName` and the `WithMessage` text. */
  datatype ValidationFailure = ValidationFailure(propertyName: string, errorMessage: string)

  /**
   * The exceptions of the core: `KeyNotFoundException`, `ValidationException`
   * carrying all failures, and anything else (here: a failed cache load).
   */
  datatype ServiceError =
    | NotFound
    | Invalid(failures: seq<ValidationFailure>)
    | Infrastructure(fault: Fault)
}
