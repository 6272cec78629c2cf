# Applicant process: a Dafny model

This project models the applicant-management system of the Hahn
"ApplicationProcess.May2020" solution. It has two halves.

The server side:

- **Validator.** `ApplicantValidator` applies a fixed rule set to an applicant: name, family name, address, country of origin, e-mail address and age. It keeps two lazily loaded caches, a set of country names and a set of e-mail top-level domains. They are filled from a country directory, and nine generic TLDs are seeded first.
- **Repository.** `GenericRepository` keeps the applicants in a store keyed by id. It draws a fresh random id for every create.
- **Service.** `GenericService` validates before every create and update, and otherwise passes calls through to the repository.
- **Controller.** `ApplicantsController` turns each outcome into an HTTP status and an `ApiResourceResponse` body. Validation failures become keys of the form `<message>:<PropertyName>`. A missing id becomes the key `id-not-found`.

The browser client:

- **Form.** The applicant form parses the server's error keys back into (code, field) pairs and shows one error per key. It also keeps a memo of country look-ups and a lazily loaded TLD table.
- **Page.** The page around the form chooses between create and update, builds the repository call's positional arguments, and classifies every answer of the API.

Each stateful object of the source is a Dafny `class`:

- the validator's two caches;
- the repository's store, a `map<int, Applicant>`;
- the service and the controller, which hold references;
- the form's caches and error lists;
- the page's editing state.

Each method is proved against a pure specification function of the old state and the inputs: `LoadCaches` against `Load`, `Validate` against `ValidateSpec`, `Create` against `Added`, `AddServerErrors` against `ParsedPrefix` and `Shown`, and so on. The properties the system promises are then proved as lemmas about those functions. A last module, `EndToEnd`, connects the halves. With the caches loaded, saving an applicant that breaks rules reaches the form as one inline error per violated rule, in the validator's order, on the field the rule names.

The environment is passed in as data:

- **Country directory.** The answer to one request, `Fetch`, is either `DirectoryUnavailable` or `Fetched(records)`. Each record's name, `topLevelDomain` list and list entries may be null. A validation can make two requests, one from each cache getter, so it takes `DirectoryAnswers(countryLoad, eMailLoad)`, one answer per request.
- **Random ids.** The random number source is a stream of candidates, `candidates: nat -> int`. The method requires that some candidate is not yet a key of the store.
- **Browser answers.** The browser's HTTP answers are parameters: a `CountryLookup`, a `TldResponse`, and the page's `Option<ApiResponse>`; `None` means the request or `response.json()` failed.

Files:

| file | what it models |
|---|---|
| `wrappers.dfy` | `Option`, `Result`, `Outcome` |
| `text.dfy` | ASCII case folding, `Split`/`Join` on a separator, last segment, decimal rendering of ids |
| `models.dfy` | the applicant entity, validation failures, country records, faults and service errors |
| `applicant_validator.dfy` | the validator: rules, country and e-mail checks, cache loading, the class |
| `validator_properties.dfy` | properties of the validator: load results, reload behaviour, rule-by-rule violations, the example applicant |
| `generic_repository.dfy` | the repository class and its store functions |
| `generic_service.dfy` | the service: validation, then delegation |
| `applicants_controller.dfy` | outcome to response, error keys and resource uris |
| `client_models.dfy` | the client's nullable applicant and decoded API answer |
| `applicant_form.dfy` | server-key parsing, message templates, error bookkeeping, country memo, TLD table |
| `viewport.dfy` | create or update, positional arguments, answer classification, the page class |
| `end_to_end.dfy` | server answers as the client classifies and parses them |

### Behaviour of the code worth knowing

- **Cache loading is not atomic.** `LoadCaches` (ApplicantValidator.cs:110-146) clears both sets and seeds the TLDs before fetching, so a failed fetch leaves no countries and the nine seeds rather than the sets as they were. A record with a null name or a null TLD list throws after the earlier records were added. `Load` and `LoadStopsAtFirstIncomplete` state that partial result. Because countries were added, the next read does not retry (`PartialLoadIsNeverRetried`).
- **One validation can request the directory twice.** The country getter (ApplicantValidator.cs:25-27) and the TLD getter (:36-38) each call `LoadCaches`, and each load makes its own `WebGet`. When the first load succeeds without a country, the e-mail check loads again; that request can fail (`EmptyDirectoryIsFetchedAgain`) or bring countries the country check never saw (`SecondRequestCanChangeTheCountryVerdict`).
- **Drawn ids.** `GetUnusedId` draws from `Random.Next()`, whose range 0..2^31-2 includes 0. The model stores a created entity under whatever unused id is drawn, 0 included. The client treats id 0 as "create" (`Viewport.SaveCallFor`).
- **The client's TLD table keeps keys as they come.** It does not lower-case them. It also stores `""` for a list entry that is itself empty (`"".substring(1)` is `""`), an entry the server skips (ApplicantValidator.cs:135-138 skips null and empty entries). For the entry `"."` both sides store `""`. Both sides seed the same nine TLDs (`ClientSeedsAreServerSeeds`).
- **An empty name gets two failures.** It is reported as both `required` and `minlen-5`; so is a name of fewer than five white-space characters, since `NotEmpty` also fails white-space-only text. Every rule is evaluated, and the failures come in the rules' declaration order.

## Model

| member | source | states |
|---|---|---|
| Text.LowerChar | Hahn.ApplicationProcess.May2020.Domain/Validators/ApplicantValidator.cs:83 | ASCII lower-casing: the result is never an upper-case letter, letters stay letters, and non-upper-case characters are unchanged |
| Text.Lower | Hahn.ApplicationProcess.May2020.Domain/Validators/ApplicantValidator.cs:83 | `ToLower` keeps the length and lower-cases every character |
| Text.NotBlankAt | Hahn.ApplicationProcess.May2020.Domain/Validators/ApplicantValidator.cs:55-69 | a string with a non-white-space character passes `NotEmpty` |
| Text.LowerIdempotent | Hahn.ApplicationProcess.May2020.Domain/Validators/ApplicantValidator.cs:83 | lower-casing twice is lower-casing once |
| Text.LowerFirst | Hahn.ApplicationProcess.May2020.Web/Frontend/src/views/applicant-form.ts:107 | only the first character is lower-cased; the rest and the length are kept |
| Text.IndexOf | Hahn.ApplicationProcess.May2020.Web/Frontend/src/views/applicant-form.ts:106 | the position of the first occurrence of a character |
| Text.Split | Hahn.ApplicationProcess.May2020.Web/Frontend/src/views/applicant-form.ts:106 | `split(sep)` gives at least one part, no part holds the separator, and joining the parts gives back the string |
| Text.SplitJoin | Hahn.ApplicationProcess.May2020.Web/Frontend/src/views/applicant-form.ts:106 | splitting a join of separator-free parts gives back the parts |
| Text.JoinEndsWithLast | Hahn.ApplicationProcess.May2020.Web/Frontend/src/views/applicant-form.ts:261 | a joined string ends with its last part, preceded by the separator when there are several parts |
| Text.LastSegmentIsSuffix | Hahn.ApplicationProcess.May2020.Domain/Validators/ApplicantValidator.cs:100-104 | the text after the last '.' (`Split('.').Last()`) is a separator-free suffix begun by the separator or the whole string |
| Text.LastSegmentAfterSeparator | Hahn.ApplicationProcess.May2020.Domain/Validators/ApplicantValidator.cs:100-104 | the text after the last separator of `p + sep + last` is `last` whenever `last` holds no separator |
| Text.DigitChar | Hahn.ApplicationProcess.May2020.Web/Controllers/ApplicantsController.cs:88 | a digit character denotes its digit |
| Text.NatToDecimal | Hahn.ApplicationProcess.May2020.Web/Controllers/ApplicantsController.cs:88 | the decimal rendering of an id has no leading zero and denotes the id |
| Text.IntToDecimal | Hahn.ApplicationProcess.May2020.Web/Controllers/ApplicantsController.cs:88 | the rendering of an id is never empty |
| Text.IntToDecimalInjective | Hahn.ApplicationProcess.May2020.Web/Controllers/ApplicantsController.cs:88 | different ids render differently |
| ApplicantValidation.AddRecords | Hahn.ApplicationProcess.May2020.Domain/Validators/ApplicantValidator.cs:132-140 | folding records into the caches only adds to both sets |
| ApplicantValidation.AddTldsGrows | Hahn.ApplicationProcess.May2020.Domain/Validators/ApplicantValidator.cs:136-139 | adding a record's domains keeps every TLD already known |
| ApplicantValidation.FaultIsFinal | Hahn.ApplicationProcess.May2020.Domain/Validators/ApplicantValidator.cs:132-145 | once a record throws, later records change nothing: the load stops there |
| ApplicantValidation.Load | Hahn.ApplicationProcess.May2020.Domain/Validators/ApplicantValidator.cs:110-146 | after any load attempt the nine seeds are TLDs; an unreachable directory leaves no countries, just the seeds, and the fault |
| ApplicantValidation.ApplicantValidator.constructor | Hahn.ApplicationProcess.May2020.Domain/Validators/ApplicantValidator.cs:49-53 | both caches start empty |
| ApplicantValidation.ApplicantValidator.LoadCaches | Hahn.ApplicationProcess.May2020.Domain/Validators/ApplicantValidator.cs:110-146 | the clearing, seeding and nested-loop fill leave exactly the caches and fault of `Load` |
| ApplicantValidation.ApplicantValidator.SeedCaches | Hahn.ApplicationProcess.May2020.Domain/Validators/ApplicantValidator.cs:110-122 | after clearing both sets and adding the nine suffixes, the countries are empty and the TLDs are exactly the seeds |
| ApplicantValidation.ApplicantValidator.AddCountry | Hahn.ApplicationProcess.May2020.Domain/Validators/ApplicantValidator.cs:132-139 | one record: a null name throws before anything changes, a null domain list throws after the name is added, otherwise name and domains are added as the pure fold does |
| ApplicantValidation.ApplicantValidator.AddDomains | Hahn.ApplicationProcess.May2020.Domain/Validators/ApplicantValidator.cs:136-139 | the inner loop adds exactly one record's stripped, lower-cased domains |
| ApplicantValidation.ApplicantValidator.CountryCache | Hahn.ApplicationProcess.May2020.Domain/Validators/ApplicantValidator.cs:23-31 | the getter reloads exactly when no country is known, and returns the country set or rethrows the load's fault |
| ApplicantValidation.ApplicantValidator.TldCache | Hahn.ApplicationProcess.May2020.Domain/Validators/ApplicantValidator.cs:33-42 | the TLD getter also reloads exactly when no country is known |
| ApplicantValidation.ApplicantValidator.BeValidCountry | Hahn.ApplicationProcess.May2020.Domain/Validators/ApplicantValidator.cs:78-84 | the check agrees with `CountryCheck` in result and new caches |
| ApplicantValidation.ApplicantValidator.BeValidEMailAddress | Hahn.ApplicationProcess.May2020.Domain/Validators/ApplicantValidator.cs:91-105 | the check agrees with `EMailCheck` in result and new caches |
| ApplicantValidation.ApplicantValidator.Validate | Hahn.ApplicationProcess.May2020.Domain/Validators/ApplicantValidator.cs:55-71 | running the rule set agrees with `ValidateSpec` in failures, fault and new caches; the country getter's load reads the first answer, the TLD getter's load the second |
| ValidatorProperties.DomainsOfSnoc | Hahn.ApplicationProcess.May2020.Domain/Validators/ApplicantValidator.cs:136-139 | the TLDs of a domain list, one entry at a time |
| ValidatorProperties.AddTldsIsUnion | Hahn.ApplicationProcess.May2020.Domain/Validators/ApplicantValidator.cs:136-139 | adding domains gives the old TLDs plus each non-empty domain minus its first character, lower-cased |
| ValidatorProperties.NamesOfSnoc | Hahn.ApplicationProcess.May2020.Domain/Validators/ApplicantValidator.cs:133 | the lower-cased names of a record list, one record at a time |
| ValidatorProperties.ListsTldSnoc | Hahn.ApplicationProcess.May2020.Domain/Validators/ApplicantValidator.cs:136-139 | the TLDs some record lists, one record at a time |
| ValidatorProperties.AddRecordsWellFormed | Hahn.ApplicationProcess.May2020.Domain/Validators/ApplicantValidator.cs:132-140 | records without nulls add exactly their lower-cased names and listed TLDs, without a fault |
| ValidatorProperties.LoadSucceeds | Hahn.ApplicationProcess.May2020.Domain/Validators/ApplicantValidator.cs:110-146 | a successful load makes the countries exactly the fetched names and the TLDs exactly the seeds plus the listed domains |
| ValidatorProperties.LoadStopsAtFirstIncomplete | Hahn.ApplicationProcess.May2020.Domain/Validators/ApplicantValidator.cs:132-145 | a record with a null name or null TLD list faults the load, after the records before it and that record's name were added |
| ValidatorProperties.FirstIncomplete | Hahn.ApplicationProcess.May2020.Domain/Validators/ApplicantValidator.cs:132-140 | a list with a null somewhere has a first incomplete record |
| ValidatorProperties.LoadFaultIffMalformed | Hahn.ApplicationProcess.May2020.Domain/Validators/ApplicantValidator.cs:125-145 | a load faults if and only if the directory is unreachable or some record holds a null |
| ValidatorProperties.ValidationKeepsReachable | Hahn.ApplicationProcess.May2020.Domain/Validators/ApplicantValidator.cs:23-42 | validation keeps the caches in a state that loads produce: empty, or containing the seeds |
| ValidatorProperties.NoReloadOnceCountriesKnown | Hahn.ApplicationProcess.May2020.Domain/Validators/ApplicantValidator.cs:23-42 | once a country is known, validation never reloads, never faults and does not depend on the directory's answers |
| ValidatorProperties.PatternAt | Hahn.ApplicationProcess.May2020.Domain/Validators/ApplicantValidator.cs:51 | an '@', later a '.' followed by a letter, with no line feed between '@' and '.', matches `.*@.*\.[a-z]+` unanchored and case-insensitively |
| ValidatorProperties.TldReadReloadsWhileNoCountry | Hahn.ApplicationProcess.May2020.Domain/Validators/ApplicantValidator.cs:33-42 | with TLDs known but no country, an e-mail check reloads and rethrows the directory's failure |
| ValidatorProperties.FailedLoadIsRetried | Hahn.ApplicationProcess.May2020.Domain/Validators/ApplicantValidator.cs:125-145 | a failed load is rethrown, not reported as a rule failure; the countries stay empty and the next validation reloads |
| ValidatorProperties.PartialLoadIsNeverRetried | Hahn.ApplicationProcess.May2020.Domain/Validators/ApplicantValidator.cs:132-145 | a load that threw after adding a country is never repeated |
| ValidatorProperties.RevalidationIsStable | Hahn.ApplicationProcess.May2020.Domain/Validators/ApplicantValidator.cs:23-42 | after a validation that loaded countries, validating again changes nothing and makes no request; it gives the same answer unless the country was judged before a second request first brought countries, and always when both requests got the same answer |
| ValidatorProperties.EmptyDirectoryIsFetchedAgain | Hahn.ApplicationProcess.May2020.Domain/Validators/ApplicantValidator.cs:25-38 | a first load that brings no country makes the e-mail check request again, and a failure of that request makes the validation throw |
| ValidatorProperties.SecondRequestCanChangeTheCountryVerdict | Hahn.ApplicationProcess.May2020.Domain/Validators/ApplicantValidator.cs:25-38 | the example's country rejected against a first, country-less answer is accepted by the next validation once the second request brought "Germany" |
| ValidatorProperties.GermanyLoad | Hahn.ApplicationProcess.May2020.Domain/Validators/ApplicantValidator.cs:110-146 | loading a directory that lists only "Germany" succeeds with "germany" and the seeds |
| ValidatorProperties.EmptyLoadRejectsCountry | Hahn.ApplicationProcess.May2020.Domain/Validators/ApplicantValidator.cs:78-84 | a load that brings no country leaves no country known, so the example's country is rejected |
| ValidatorProperties.ValidationReportsViolatedRules | Hahn.ApplicationProcess.May2020.Domain/Validators/ApplicantValidator.cs:55-71 | with countries loaded, the failures are exactly the violated rules of the rule table, in declaration order |
| ValidatorProperties.LoadedValidation | Hahn.ApplicationProcess.May2020.Domain/Validators/ApplicantValidator.cs:55-71 | with countries loaded, the failures are the text rules' failures followed by the other rules' |
| ValidatorProperties.ViolationsHead | Hahn.ApplicationProcess.May2020.Domain/Validators/ApplicantValidator.cs:55-63 | the first six rules are the required and minimum-length rules of name, family name and address |
| ValidatorProperties.ViolationsOfName | Hahn.ApplicationProcess.May2020.Domain/Validators/ApplicantValidator.cs:55-57 | name: "required" when empty or white space only, "minlen-5" when shorter than 5 |
| ValidatorProperties.ViolationsOfFamilyName | Hahn.ApplicationProcess.May2020.Domain/Validators/ApplicantValidator.cs:58-60 | family name: "required" when empty or white space only, "minlen-5" when shorter than 5 |
| ValidatorProperties.ViolationsOfAddress | Hahn.ApplicationProcess.May2020.Domain/Validators/ApplicantValidator.cs:61-63 | address: "required" when empty or white space only, "minlen-10" when shorter than 10 |
| ValidatorProperties.ViolationsOfCountry | Hahn.ApplicationProcess.May2020.Domain/Validators/ApplicantValidator.cs:64-66 | the country rules report "required" for an empty or white-space-only country and "invalid" for one not in the lower-cased country set, followed by the rules after them |
| ValidatorProperties.ViolationsOfEMail | Hahn.ApplicationProcess.May2020.Domain/Validators/ApplicantValidator.cs:67-69 | the e-mail rules report "required" for an empty or white-space-only address and "invalid" for one failing the pattern or TLD, followed by the age rule |
| ValidatorProperties.ViolationsOfAge | Hahn.ApplicationProcess.May2020.Domain/Validators/ApplicantValidator.cs:70-71 | the last rule reports "range-20-60" exactly when the age is outside 20..60 inclusive |
| ValidatorProperties.ViolationsTail | Hahn.ApplicationProcess.May2020.Domain/Validators/ApplicantValidator.cs:64-71 | country "required" (empty or white space only)/"invalid", e-mail "required" (empty or white space only)/"invalid", and age "range-20-60" outside 20..60 inclusive |
| ValidatorProperties.ViolationsStep | Hahn.ApplicationProcess.May2020.Domain/Validators/ApplicantValidator.cs:55-71 | each rule contributes its failure exactly when it is violated |
| ValidatorProperties.ValidIffAcceptable | Hahn.ApplicationProcess.May2020.Domain/Validators/ApplicantValidator.cs:55-71 | with countries loaded, an applicant passes if and only if it meets every rule: every text field non-blank, name and family name at least 5, address at least 10 characters, a known country, a good e-mail address and an age in 20..60 |
| ValidatorProperties.ExampleEMail | Hahn.ApplicationProcess.May2020.Web/ApiExamples/ApplicantExample.cs:15 | the example address matches the pattern and its TLD is "com" |
| ValidatorProperties.ExampleEMailMatches | Hahn.ApplicationProcess.May2020.Web/ApiExamples/ApplicantExample.cs:15 | the example address matches the e-mail pattern |
| ValidatorProperties.ExampleEMailTld | Hahn.ApplicationProcess.May2020.Web/ApiExamples/ApplicantExample.cs:15 | the text after the last dot of the example address is "com" |
| ValidatorProperties.ExampleCountry | Hahn.ApplicationProcess.May2020.Web/ApiExamples/ApplicantExample.cs:14 | the example's country lower-cases to "germany" |
| ValidatorProperties.LowerCom | Hahn.ApplicationProcess.May2020.Domain/Validators/ApplicantValidator.cs:103 | "com" lower-cases to itself |
| ValidatorProperties.ExampleEMailIsGood | Hahn.ApplicationProcess.May2020.Web/ApiExamples/ApplicantExample.cs:15 | the example address is accepted once the seeds are loaded |
| ValidatorProperties.ExampleLookups | Hahn.ApplicationProcess.May2020.Web/ApiExamples/ApplicantExample.cs:14-15 | the example's country and address are found in loaded caches |
| ValidatorProperties.ExampleApplicantIsValid | Hahn.ApplicationProcess.May2020.Web/ApiExamples/ApplicantExample.cs:9-18 | the API's example applicant passes once "germany" is a country, because "com" is always seeded |
| ValidatorProperties.ExampleIsAcceptable | Hahn.ApplicationProcess.May2020.Web/ApiExamples/ApplicantExample.cs:9-18 | the example applicant meets every rule once "germany" and the seeds are loaded |
| ValidatorProperties.ExampleIsNotBlank | Hahn.ApplicationProcess.May2020.Web/ApiExamples/ApplicantExample.cs:11-15 | none of the example's text fields is blank |
| ValidatorProperties.MaxIsNotBlank | Hahn.ApplicationProcess.May2020.Domain/Validators/ApplicantValidator.cs:55-57 | the name "Max" passes the `NotEmpty` rule |
| ValidatorProperties.BlankNameIsRequired | Hahn.ApplicationProcess.May2020.Domain/Validators/ApplicantValidator.cs:55-57 | a non-empty name of white space only fails `NotEmpty` with "required", and also "minlen-5" when shorter than five characters |
| ValidatorProperties.ShortNameAndAgeOutOfRange | Hahn.ApplicationProcess.May2020.Domain/Validators/ApplicantValidator.cs:55-71 | a non-blank name under five characters and an out-of-range age, with every other field passing, give exactly the two failures, in that order |
| ValidatorProperties.OnlyNameTooShort | Hahn.ApplicationProcess.May2020.Domain/Validators/ApplicantValidator.cs:55-63 | a non-blank name under five characters, with family name and address long enough, yields exactly one "minlen-5" failure for Name |
| ValidatorProperties.OnlyAgeOutOfRange | Hahn.ApplicationProcess.May2020.Domain/Validators/ApplicantValidator.cs:64-71 | with a known country and a good e-mail address, an age outside 20..60 yields exactly one "range-20-60" failure for Age |
| ValidatorProperties.ShortNameAndYoungAge | Hahn.ApplicationProcess.May2020.Domain/Validators/ApplicantValidator.cs:55-71 | the example with name "Max" and age 15 fails with exactly "minlen-5" on Name and "range-20-60" on Age |
| ValidatorProperties.ShortNameYoungAgeFacts | Hahn.ApplicationProcess.May2020.Web/ApiExamples/ApplicantExample.cs:9-18 | the example with name "Max" and age 15 has a short non-blank name and an out-of-range age and passes every other rule |
| ValidatorProperties.CountryCheckIgnoresCase | Hahn.ApplicationProcess.May2020.Domain/Validators/ApplicantValidator.cs:78-84 | the country check gives the same answer for a country and its lower-cased form |
| ValidatorProperties.EMailTldIsTextAfterLastDot | Hahn.ApplicationProcess.May2020.Domain/Validators/ApplicantValidator.cs:100-104 | for a matching address, validity is exactly membership of the lower-cased text after the last '.' |
| Repository.Find | Hahn.ApplicationProcess.May2020.Data/Repositories/GenericRepository.cs:34-43 | finding gives the stored entity when the id is a key, and not-found otherwise |
| Repository.Added | Hahn.ApplicationProcess.May2020.Data/Repositories/GenericRepository.cs:49-55 | a create adds one new key holding the entity with that id; every other key is unchanged |
| Repository.Updated | Hahn.ApplicationProcess.May2020.Data/Repositories/GenericRepository.cs:62-74 | a missing id is not-found; otherwise that key gets the argument's values and no other key changes |
| Repository.Removed | Hahn.ApplicationProcess.May2020.Data/Repositories/GenericRepository.cs:81-91 | a missing id is not-found; otherwise exactly that key is removed |
| Repository.AnyWithIdIsKey | Hahn.ApplicationProcess.May2020.Data/Repositories/GenericRepository.cs:101 | in a store where each entity sits under its own id, `AnyAsync(e => e.Id == id)` is key membership |
| Repository.GenericRepository.constructor | Hahn.ApplicationProcess.May2020.Data/Repositories/GenericRepository.cs:18-20 | the store starts empty |
| Repository.GenericRepository.GetAll | Hahn.ApplicationProcess.May2020.Data/Repositories/GenericRepository.cs:25-27 | the list holds every stored entity exactly once, and nothing else |
| Repository.GenericRepository.Get | Hahn.ApplicationProcess.May2020.Data/Repositories/GenericRepository.cs:34-43 | the stored entity for a key, not-found for a missing id |
| Repository.GenericRepository.GetUnusedId | Hahn.ApplicationProcess.May2020.Data/Repositories/GenericRepository.cs:96-103 | the probe loop returns the first candidate that is not a key; from a random stream it is in 0..2^31-2 |
| Repository.GenericRepository.Create | Hahn.ApplicationProcess.May2020.Data/Repositories/GenericRepository.cs:49-55 | the caller's id is discarded; the new store is the old one plus the entity under an unused id, and that entity is returned |
| Repository.GenericRepository.Update | Hahn.ApplicationProcess.May2020.Data/Repositories/GenericRepository.cs:62-74 | a missing id fails with not-found and no change; otherwise the store becomes `Updated` |
| Repository.GenericRepository.Delete | Hahn.ApplicationProcess.May2020.Data/Repositories/GenericRepository.cs:81-91 | a missing id fails with not-found and no change; otherwise exactly that key is removed |
| Repository.CreateAllKeys | Hahn.ApplicationProcess.May2020.Data/Repositories/GenericRepository.cs:49-55 | after a series of creates, the keys are the old keys plus the drawn ids |
| Repository.CreatedIdsAreDistinct | Hahn.ApplicationProcess.May2020.Data/Repositories/GenericRepository.cs:96-103 | repeated creates get pairwise distinct ids, none of them an earlier key |
| Repository.CreateAllKeepsKeyed | Hahn.ApplicationProcess.May2020.Data/Repositories/GenericRepository.cs:49-55 | after a series of creates every entity still sits under its own id |
| Service.Verdict | Hahn.ApplicationProcess.May2020.Domain/Services/GenericService.cs:86-96 | a validator fault propagates unchanged; failures become a validation error carrying all of them; no failure passes |
| Service.ValidateStep | Hahn.ApplicationProcess.May2020.Domain/Services/GenericService.cs:82-98 | without a validator every entity passes and there are no caches |
| Service.InvalidBeatsNotFound | Hahn.ApplicationProcess.May2020.Domain/Services/GenericService.cs:62-66 | an invalid entity is reported invalid even when its id is missing, and the store is untouched |
| Service.ValidatorFaultPropagates | Hahn.ApplicationProcess.May2020.Domain/Services/GenericService.cs:86-92 | when the validator throws, create and update raise that fault and leave the store untouched |
| Service.NoValidatorDelegates | Hahn.ApplicationProcess.May2020.Domain/Services/GenericService.cs:84 | with no validator, create and update are exactly the repository's |
| Service.ValidEntityGetsRepositoryEffect | Hahn.ApplicationProcess.May2020.Domain/Services/GenericService.cs:50-66 | a valid entity gets exactly the repository's effect and result |
| Service.UnacceptableUpdateReportsViolations | Hahn.ApplicationProcess.May2020.Domain/Services/GenericService.cs:62-66 | with countries loaded, an update that breaks rules fails with the violated rules and changes nothing |
| Service.CreatedIsStored | Hahn.ApplicationProcess.May2020.Domain/Services/GenericService.cs:50-54 | a created entity can be found under its new id |
| Service.GenericService.constructor | Hahn.ApplicationProcess.May2020.Domain/Services/GenericService.cs:23-27 | the service holds the given repository and optional validator |
| Service.GenericService.DoValidate | Hahn.ApplicationProcess.May2020.Domain/Services/GenericService.cs:82-98 | the verdict and the validator's new caches are those of `ValidateStep` |
| Service.GenericService.GetAll | Hahn.ApplicationProcess.May2020.Domain/Services/GenericService.cs:32-34 | exactly the repository's entities |
| Service.GenericService.Get | Hahn.ApplicationProcess.May2020.Domain/Services/GenericService.cs:41-43 | exactly what the repository returns or raises |
| Service.GenericService.Create | Hahn.ApplicationProcess.May2020.Domain/Services/GenericService.cs:50-54 | validation, then the repository's create, as `CreateSpec` says, with a new id that is the first unused candidate |
| Service.GenericService.Update | Hahn.ApplicationProcess.May2020.Domain/Services/GenericService.cs:62-66 | validation, then the repository's update, as `UpdateSpec` says |
| Service.GenericService.Delete | Hahn.ApplicationProcess.May2020.Domain/Services/GenericService.cs:73-75 | exactly the repository's delete |
| Controller.ErrorKeys | Hahn.ApplicationProcess.May2020.Web/Controllers/ApplicantsController.cs:94 | one key `<message>:<PropertyName>` per failure, in the validator's order |
| Controller.BadRequestResponse | Hahn.ApplicationProcess.May2020.Web/Controllers/ApplicantsController.cs:91-95 | status 400, not successful, carrying the failures' keys |
| Controller.GetAllResponse | Hahn.ApplicationProcess.May2020.Web/Controllers/ApplicantsController.cs:41-48 | status 200 with the service's list |
| Controller.GetResponse | Hahn.ApplicationProcess.May2020.Web/Controllers/ApplicantsController.cs:60-74 | 200 with the entity, 404 with `id-not-found` for a missing id, else 500 with no `ApiResourceResponse` (no body, or a problem-details object) |
| Controller.CreateResponse | Hahn.ApplicationProcess.May2020.Web/Controllers/ApplicantsController.cs:85-101 | 201 with the new id and `applicant/<id>` as uri and location, 400 with the keys, else 500 with no `ApiResourceResponse` (no body, or a problem-details object) |
| Controller.UpdateResponse | Hahn.ApplicationProcess.May2020.Web/Controllers/ApplicantsController.cs:114-140 | 200 with the route id and its uri, 400 with the keys, 404 for a missing id, else 500 with no `ApiResourceResponse` (no body, or a problem-details object) |
| Controller.DeleteResponse | Hahn.ApplicationProcess.May2020.Web/Controllers/ApplicantsController.cs:151-170 | 200 with neither id nor uri, 404 for a missing id, else 500 with no `ApiResourceResponse` (no body, or a problem-details object) |
| Controller.ErrorKeySplits | Hahn.ApplicationProcess.May2020.Web/Controllers/ApplicantsController.cs:94 | a key of colon-free texts splits back into message and property name |
| Controller.ResourceUriIdentifies | Hahn.ApplicationProcess.May2020.Web/Controllers/ApplicantsController.cs:87-89 | the uri `applicant/<id>` identifies the id |
| Controller.CreateNeverAnswersNotFound | Hahn.ApplicationProcess.May2020.Web/Controllers/ApplicantsController.cs:85-101 | the create action never answers 404 |
| Controller.UpdateWritesUnderRouteId | Hahn.ApplicationProcess.May2020.Web/Controllers/ApplicantsController.cs:116-122 | the body's id is replaced by the route's: a valid update stores under the route id and answers with it |
| Controller.UnacceptableDataAnswersBadRequest | Hahn.ApplicationProcess.May2020.Web/Controllers/ApplicantsController.cs:91-95 | with countries loaded, create and update of an applicant that breaks rules answer 400 with one key per violated rule |
| Controller.ApplicantsController.constructor | Hahn.ApplicationProcess.May2020.Web/Controllers/ApplicantsController.cs:29-32 | the controller holds the given service |
| Controller.ApplicantsController.GetAll | Hahn.ApplicationProcess.May2020.Web/Controllers/ApplicantsController.cs:41-48 | status 200 with every stored entity exactly once |
| Controller.ApplicantsController.Get | Hahn.ApplicationProcess.May2020.Web/Controllers/ApplicantsController.cs:60-74 | the response `GetResponse` gives for the lookup |
| Controller.ApplicantsController.Create | Hahn.ApplicationProcess.May2020.Web/Controllers/ApplicantsController.cs:85-101 | the new state and response are those of `CreateSpec` for some unused id; a 201 carries the first unused candidate id |
| Controller.ApplicantsController.Update | Hahn.ApplicationProcess.May2020.Web/Controllers/ApplicantsController.cs:114-140 | the body's id is replaced by the route's, and the state and response follow `UpdateSpec` |
| Controller.ApplicantsController.Delete | Hahn.ApplicationProcess.May2020.Web/Controllers/ApplicantsController.cs:151-170 | the store and response follow `Removed` |
| Form.ParseKey | Hahn.ApplicationProcess.May2020.Web/Frontend/src/views/applicant-form.ts:105-107 | a parsed key has a colon-free code and a non-empty field; a key without a second part makes `parts[1][0]` throw |
| Form.KeyOfParts | Hahn.ApplicationProcess.May2020.Web/Frontend/src/views/applicant-form.ts:106-107 | part 0 is the code and part 1, first letter lower-cased, the field |
| Form.ParsedCodeIsTextBeforeFirstColon | Hahn.ApplicationProcess.May2020.Web/Frontend/src/views/applicant-form.ts:106 | the code is the text before the key's first ':' |
| Form.TemplateChoice | Hahn.ApplicationProcess.May2020.Web/Frontend/src/views/applicant-form.ts:110-137 | "required", "minlen-5"/"minlen-10" with length 5/10 and "range-20-60" with 20..60 get their templates; any other code the default |
| Form.Shown | Hahn.ApplicationProcess.May2020.Web/Frontend/src/views/applicant-form.ts:139 | one added error per key, in order, with the key's template and field |
| Form.ParsedPrefix | Hahn.ApplicationProcess.May2020.Web/Frontend/src/views/applicant-form.ts:105-140 | the keys handled before the first one that throws |
| Form.ParsedPrefixIsLongest | Hahn.ApplicationProcess.May2020.Web/Frontend/src/views/applicant-form.ts:105-140 | every key before the stop parses, and the key at the stop throws |
| Form.ParsedPrefixUnfold | Hahn.ApplicationProcess.May2020.Web/Frontend/src/views/applicant-form.ts:105-140 | the `forEach` stops at a key that throws, else continues with the rest |
| Form.ParsedPrefixStep | Hahn.ApplicationProcess.May2020.Web/Frontend/src/views/applicant-form.ts:105-140 | one iteration of the `forEach` |
| Form.ShownSnoc | Hahn.ApplicationProcess.May2020.Web/Frontend/src/views/applicant-form.ts:139 | one `push` extends the shown errors by one |
| Form.HandlesOf | Hahn.ApplicationProcess.May2020.Web/Frontend/src/views/applicant-form.ts:99 | the handles of a list of added errors are exactly those in the list |
| Form.Without | Hahn.ApplicationProcess.May2020.Web/Frontend/src/views/applicant-form.ts:99 | removing errors never adds any |
| Form.WithoutKeeps | Hahn.ApplicationProcess.May2020.Web/Frontend/src/views/applicant-form.ts:99 | after removal an error is shown if and only if it was shown and is not among the removed |
| Form.WithoutNothing | Hahn.ApplicationProcess.May2020.Web/Frontend/src/views/applicant-form.ts:98-100 | removing nothing changes nothing |
| Form.WithoutCons | Hahn.ApplicationProcess.May2020.Web/Frontend/src/views/applicant-form.ts:99 | removal, one error at a time |
| Form.WithoutTwice | Hahn.ApplicationProcess.May2020.Web/Frontend/src/views/applicant-form.ts:99 | removing in two steps is removing the union |
| Form.HandlesOfSnoc | Hahn.ApplicationProcess.May2020.Web/Frontend/src/views/applicant-form.ts:99 | the handles of a growing prefix |
| Form.ParseKeyOfJoined | Hahn.ApplicationProcess.May2020.Web/Frontend/src/views/applicant-form.ts:105-107 | parsing inverts the server's `<code>:<PropertyName>` with the first letter lower-cased |
| Form.KeyWithoutColonThrows | Hahn.ApplicationProcess.May2020.Web/Frontend/src/views/applicant-form.ts:107 | a key with no ':' throws |
| Form.EmptyFormIgnoresHired | Hahn.ApplicationProcess.May2020.Web/Frontend/src/views/applicant-form.ts:160-168 | a new applicant is empty, `hired` never matters, and a non-empty name makes an empty form non-empty |
| Form.WebCountryCheck | Hahn.ApplicationProcess.May2020.Web/Frontend/src/views/applicant-form.ts:233-243 | a failed look-up is false and caches nothing; otherwise the answer "some country matched" is cached and returned |
| Form.CountryCheck | Hahn.ApplicationProcess.May2020.Web/Frontend/src/views/applicant-form.ts:217-227 | a falsy country is false; a cached answer is returned without a look-up; old entries are kept and at most the country is added |
| Form.CountryAnswerIsMemoised | Hahn.ApplicationProcess.May2020.Web/Frontend/src/views/applicant-form.ts:217-243 | after a look-up that answered, asking again gives the same answer whatever a new look-up would say |
| Form.FailedLookupIsRetried | Hahn.ApplicationProcess.May2020.Web/Frontend/src/views/applicant-form.ts:233-243 | a failed look-up caches nothing, so the next check looks up again |
| Form.CountryMemoIsCaseSensitive | Hahn.ApplicationProcess.May2020.Web/Frontend/src/views/applicant-form.ts:222 | the memo is keyed by the country as typed |
| Form.DropFirst | Hahn.ApplicationProcess.May2020.Web/Frontend/src/views/applicant-form.ts:279 | `substring(1)` drops the first character, and of "" gives "" |
| Form.AddEntries | Hahn.ApplicationProcess.May2020.Web/Frontend/src/views/applicant-form.ts:279 | entries only add, and the loop reaches the end if and only if no entry is null |
| Form.AddAllEntries | Hahn.ApplicationProcess.May2020.Web/Frontend/src/views/applicant-form.ts:277-279 | the records' entries only add |
| Form.LeadingEntries | Hahn.ApplicationProcess.May2020.Web/Frontend/src/views/applicant-form.ts:279 | the number of entries before the first null: all of them are present, and the next one, if any, is null |
| Form.EntryTldsCons | Hahn.ApplicationProcess.May2020.Web/Frontend/src/views/applicant-form.ts:279 | a present first entry adds its text after the first character to the keys of the rest |
| Form.AddEntriesIsUnion | Hahn.ApplicationProcess.May2020.Web/Frontend/src/views/applicant-form.ts:279 | the inner loop gives exactly the old keys plus `substring(1)` of each entry before the first null, and finishes exactly when there is no null |
| Form.ClientListsTldCons | Hahn.ApplicationProcess.May2020.Web/Frontend/src/views/applicant-form.ts:277-279 | a key is listed by the records exactly when the first record's list gives it or the later records list it |
| Form.AddAllEntriesIsUnion | Hahn.ApplicationProcess.May2020.Web/Frontend/src/views/applicant-form.ts:277-279 | with no null list or entry, the table is exactly the old keys plus `substring(1)` of every entry of every record |
| Form.AddAllEntriesStopsAtFirstNull | Hahn.ApplicationProcess.May2020.Web/Frontend/src/views/applicant-form.ts:277-280 | when record m is the first with a null list or entry, the table is the old keys, every key of the records before m, and record m's entries before its null |
| Form.LoadTldsContents | Hahn.ApplicationProcess.May2020.Web/Frontend/src/views/applicant-form.ts:268-283 | an answer without nulls sets the table to exactly the nine seeds plus `substring(1)` of every listed entry |
| Form.LoadTlds | Hahn.ApplicationProcess.May2020.Web/Frontend/src/views/applicant-form.ts:268-283 | a failed fetch leaves the table as it was; once a response arrives the table is set and holds the nine seeds |
| Form.TldCheck | Hahn.ApplicationProcess.May2020.Web/Frontend/src/views/applicant-form.ts:250-263 | a falsy address is false; the table is loaded only while unset; it throws only if still unset; else the answer is membership of the lower-cased last segment |
| Form.UnreadableBodyIsNeverReloaded | Hahn.ApplicationProcess.May2020.Web/Frontend/src/views/applicant-form.ts:268-283 | an unreadable body leaves a seeded table that is never reloaded |
| Form.FailedTldFetchIsRetried | Hahn.ApplicationProcess.May2020.Web/Frontend/src/views/applicant-form.ts:256-262 | a failed fetch leaves the table unset, so the check throws and the next check fetches again |
| Form.ClientSeedsAreServerSeeds | Hahn.ApplicationProcess.May2020.Web/Frontend/src/views/applicant-form.ts:274 | the client seeds the same nine TLDs as the server |
| Form.ApplicantForm.constructor | Hahn.ApplicationProcess.May2020.Web/Frontend/src/views/applicant-form.ts:29-37 | a fresh form is empty, with empty caches and no errors |
| Form.ApplicantForm.RefreshEmptyState | Hahn.ApplicationProcess.May2020.Web/Frontend/src/views/applicant-form.ts:160-168 | `formIsEmpty` is true if and only if all six fields are falsy |
| Form.ApplicantForm.ServersideInvalidationChanged | Hahn.ApplicationProcess.May2020.Web/Frontend/src/views/applicant-form.ts:96-142 | the previous server errors are removed when the old list was non-empty; a non-empty new list adds one error per key, in order, up to the first key that throws |
| Form.ApplicantForm.RemoveServerErrors | Hahn.ApplicationProcess.May2020.Web/Frontend/src/views/applicant-form.ts:99 | the loop removes exactly the previously added server errors |
| Form.ApplicantForm.AddServerErrors | Hahn.ApplicationProcess.May2020.Web/Frontend/src/views/applicant-form.ts:103-141 | the loop adds and remembers one error per parsed key and throws at the first key that does not parse |
| Form.ApplicantForm.PushServerError | Hahn.ApplicationProcess.May2020.Web/Frontend/src/views/applicant-form.ts:139 | one error with the next handle is added to the form and remembered, so the remembered errors stay the errors shown for the keys so far and the form's errors stay the earlier ones followed by them |
| Form.ApplicantForm.CacheCheckValidCountry | Hahn.ApplicationProcess.May2020.Web/Frontend/src/views/applicant-form.ts:217-227 | result and memo are those of `CountryCheck` |
| Form.ApplicantForm.WebCheckValidCountry | Hahn.ApplicationProcess.May2020.Web/Frontend/src/views/applicant-form.ts:233-243 | result and memo are those of `WebCountryCheck` |
| Form.ApplicantForm.CacheCheckValidEMailAddressTld | Hahn.ApplicationProcess.May2020.Web/Frontend/src/views/applicant-form.ts:250-263 | result and table are those of `TldCheck` |
| Form.ApplicantForm.LoadTldCache | Hahn.ApplicationProcess.May2020.Web/Frontend/src/views/applicant-form.ts:268-283 | the seeding and nested loop leave the table of `LoadTlds`, whose contents `LoadTldsContents` and `AddAllEntriesStopsAtFirstNull` give |
| Form.ApplicantForm.AddRecordEntries | Hahn.ApplicationProcess.May2020.Web/Frontend/src/views/applicant-form.ts:279 | the inner loop adds one record's entries, stopping at a null: by `AddEntriesIsUnion` exactly `substring(1)` of each entry before the first null |
| Viewport.FieldValues | Hahn.ApplicationProcess.May2020.Web/Frontend/src/views/viewport.ts:170 | one value per key of the model |
| Viewport.CreateArguments | Hahn.ApplicationProcess.May2020.Web/Frontend/src/views/viewport.ts:157-161 | one value fewer than the model has keys: the id is dropped |
| Viewport.UpdateArguments | Hahn.ApplicationProcess.May2020.Web/Frontend/src/views/viewport.ts:167-171 | every value of the model |
| Viewport.ArgumentsBindByName | Hahn.ApplicationProcess.May2020.Web/Frontend/src/repositories/applicant-repository.ts:45-69 | every positional argument of create and update lands on the repository parameter named like the field it came from |
| Viewport.SaveCallFor | Hahn.ApplicationProcess.May2020.Web/Frontend/src/views/viewport.ts:79-83 | a truthy id updates, with the id first; a null or 0 id creates without it |
| Viewport.ClassifySave | Hahn.ApplicationProcess.May2020.Web/Frontend/src/views/viewport.ts:86-109 | success closes and reloads; exactly `["id-not-found"]` is a not-found notice; other non-empty keys are shown inline; anything else is an unknown error |
| Viewport.ClassifyDelete | Hahn.ApplicationProcess.May2020.Web/Frontend/src/views/viewport.ts:130-148 | success reloads; exactly `["id-not-found"]` is a not-found notice; anything else is a deleting-failed notice |
| Viewport.SaveAndDeleteAgree | Hahn.ApplicationProcess.May2020.Web/Frontend/src/views/viewport.ts:86-143 | save and delete read an answer alike, except that inline errors are a save-only reaction |
| Viewport.ViewportPage.constructor | Hahn.ApplicationProcess.May2020.Web/Frontend/src/views/viewport.ts:27-36 | no server errors, form closed, no notice, the list loaded once |
| Viewport.ViewportPage.OnAddPress | Hahn.ApplicationProcess.May2020.Web/Frontend/src/views/viewport.ts:48-51 | a new applicant is edited |
| Viewport.ViewportPage.OnEditPress | Hahn.ApplicationProcess.May2020.Web/Frontend/src/views/viewport.ts:57-60 | the given applicant is edited |
| Viewport.ViewportPage.OnSavePress | Hahn.ApplicationProcess.May2020.Web/Frontend/src/views/viewport.ts:67-110 | the server errors are emptied first; the call is the one `SaveCallFor` picks; the page then does what `ClassifySave` says; after a success the reload runs inside the same `try`, so a failing reload closes the form and still opens the unknown-error notice |
| Viewport.ViewportPage.OnDeletePress | Hahn.ApplicationProcess.May2020.Web/Frontend/src/views/viewport.ts:117-151 | nothing happens unless confirmed; then the id is sent and the page does what `ClassifyDelete` says; a reload that fails after a successful delete opens the unknown-error notice |
| EndToEnd.ClientView | Hahn.ApplicationProcess.May2020.Web/Frontend/src/models/api-response.ts:6-11 | a 500, which carries no `ApiResourceResponse`, is read as no answer; a resource body is read field for field |
| EndToEnd.ProblemDetailsLikeNoAnswer | Hahn.ApplicationProcess.May2020.Web/Frontend/src/views/viewport.ts:86-109 | a problem-details body without `success` and `errorKeys` leads to the same unknown-error action as an unreadable one |
| EndToEnd.NotFoundKeysAgree | Hahn.ApplicationProcess.May2020.Web/Frontend/src/views/viewport.ts:94 | the client's not-found key is the server's |
| EndToEnd.ErrorKeyIsNotNotFound | Hahn.ApplicationProcess.May2020.Web/Controllers/ApplicantsController.cs:94 | a failure's key contains ':' and is therefore never the not-found key |
| EndToEnd.ErrorKeysAreNotNotFound | Hahn.ApplicationProcess.May2020.Web/Controllers/ApplicantsController.cs:94 | a non-empty list of failure keys is never `["id-not-found"]` |
| EndToEnd.UpdateAnswerClassified | Hahn.ApplicationProcess.May2020.Web/Frontend/src/views/viewport.ts:86-109 | after an update, success reloads, a missing id is a not-found notice, failures are inline, anything else is unknown |
| EndToEnd.CreateAnswerClassified | Hahn.ApplicationProcess.May2020.Web/Frontend/src/views/viewport.ts:86-109 | after a create the same, except that every error other than invalid data is unknown |
| EndToEnd.DeleteAnswerClassified | Hahn.ApplicationProcess.May2020.Web/Frontend/src/views/viewport.ts:130-148 | after a delete, success reloads, a missing id is a not-found notice, anything else is unknown |
| EndToEnd.InvalidIsNeverEmpty | Hahn.ApplicationProcess.May2020.Domain/Services/GenericService.cs:94-96 | the service never reports invalid data without failures |
| EndToEnd.ServerKeyOf | Hahn.ApplicationProcess.May2020.Web/Frontend/src/views/applicant-form.ts:106-107 | the key the form reads from a failure: its message, and its property of the same length |
| EndToEnd.ServerKeysOf | Hahn.ApplicationProcess.May2020.Web/Frontend/src/views/applicant-form.ts:105-107 | one key per failure |
| EndToEnd.ErrorKeysParse | Hahn.ApplicationProcess.May2020.Web/Frontend/src/views/applicant-form.ts:105-107 | the form parses every key the controller builds from colon-free failures back into message and lower-cased property |
| EndToEnd.LowerFirstOfProperties | Hahn.ApplicationProcess.May2020.Web/Frontend/src/models/applicant.ts:5-18 | the server's property names, first letter lower-cased, are the client's field names |
| EndToEnd.RulePropertyIsFormField | Hahn.ApplicationProcess.May2020.Domain/Validators/ApplicantValidator.cs:55-71 | every rule's property, first letter lower-cased, is a field of the client's model |
| EndToEnd.ConcatKeyable | Hahn.ApplicationProcess.May2020.Domain/Validators/ApplicantValidator.cs:55-71 | failures from two groups of rules are all keyable |
| EndToEnd.LengthRulesAreKeyable | Hahn.ApplicationProcess.May2020.Domain/Validators/ApplicantValidator.cs:55-63 | the "required" and minimum-length failures of a text rule make keys the client can parse |
| EndToEnd.RequiredRuleIsKeyable | Hahn.ApplicationProcess.May2020.Domain/Validators/ApplicantValidator.cs:64-69 | a "required" failure makes a key the client can parse |
| EndToEnd.MustRuleIsKeyable | Hahn.ApplicationProcess.May2020.Domain/Validators/ApplicantValidator.cs:64-69 | an "invalid" failure makes a key the client can parse |
| EndToEnd.AgeRuleIsKeyable | Hahn.ApplicationProcess.May2020.Domain/Validators/ApplicantValidator.cs:70-71 | the age failure makes a key the client can parse |
| EndToEnd.TextRulesAreKeyable | Hahn.ApplicationProcess.May2020.Domain/Validators/ApplicantValidator.cs:55-63 | every failure of the name, family-name and address rules makes a key the client can parse |
| EndToEnd.LaterRulesAreKeyable | Hahn.ApplicationProcess.May2020.Domain/Validators/ApplicantValidator.cs:64-71 | every failure of the country, e-mail and age rules makes a key the client can parse |
| EndToEnd.EMailAndAgeRulesAreKeyable | Hahn.ApplicationProcess.May2020.Domain/Validators/ApplicantValidator.cs:67-71 | every failure of the e-mail and age rules makes a key the client can parse |
| EndToEnd.ViolationsAreKeyable | Hahn.ApplicationProcess.May2020.Domain/Validators/ApplicantValidator.cs:55-71 | every failure the validator reports makes a key `<message>:<PropertyName>` with no further colon and a non-empty field, which the client can parse |
| EndToEnd.UnacceptableIsInvalid | Hahn.ApplicationProcess.May2020.Domain/Services/GenericService.cs:94-96 | with countries loaded, create and update of an applicant that breaks rules fail with the non-empty list of violated rules |
| EndToEnd.UnacceptableSaveShowsEveryViolation | Hahn.ApplicationProcess.May2020.Web/Frontend/src/views/applicant-form.ts:96-142 | saving an applicant that breaks rules shows one inline error per violated rule, in order, on the field the rule names, and the form's parsing never throws |

## Left out

- HTTP and JSON are inputs, not operations. This covers the country directory request and its deserialisation in `WebGet`, the browser's `fetch` calls, `response.json()`, and the whole client repository (`applicant-repository.ts`); only its parameter order is used.
- Entity Framework: `FindAsync`, change tracking, `SaveChangesAsync` and the database context are not modelled. The store is a map, and `AnyAsync(e => e.Id == id)` is key membership.
- Repository.GenericRepository.Create: Entity Framework's key generation is not modelled. The key `Id` is a plain `int`, generated by convention, so when the drawn id is 0 (the CLR default) `AddAsync` stores and returns the entity under a key EF generates; the model stores it under 0.
- `Repository.GenericRepository.GetUnusedId`: `System.Random` is a supplied candidate stream. The loop terminates only because some candidate is unused. The method requires this instead of running unbounded.
- async/await, the validator registered as a singleton shared by all requests, and the races between concurrent id allocations or cache loads are not modelled. Every operation runs to completion alone.
- FluentValidation internals are not modelled beyond `NotEmpty` failing empty and white-space-only text, white space being .NET's `char.IsWhiteSpace` set: null strings, cascade behaviour and message formatting. Applicant strings are never null in the server model. Every rule is evaluated.
- Culture-sensitive `ToLower`, and the client's `toLowerCase` (applicant-form.ts:107 and :262), are ASCII case folding. String lengths count characters rather than UTF-16 code units.
- The regular expression `.*@.*\.[a-z]+` is modelled by its unanchored meaning: '@', then '.' and an ASCII letter, with no line feed between '@' and '.'.
- Logging and i18n are left out. The message text is represented by the chosen template and the field, not by `i18n.tr` output.
- The Aurelia validation rules the form registers on the client (applicant-form.ts 47-68), `applicantChanged`, `onFormChange`, `onResetPress`, `onSavePress` of the form, the debounce timer and the `executeValidation` it triggers are not modelled.
- Dialogs, jQuery modals, scrolling to a card and the `parseInt` coercion of the age are left out. The coercion is JavaScript library behaviour.
- The client's TLD table is a set. JavaScript object keys inherited from the prototype are ignored; for example, a TLD "constructor" would be truthy on a real object.
- Aliasing between the page's error-key array and the form's old value is not modelled. The page's `splice(0)` empties the very array the form later receives as its old value. The model gives the form the old list as a value, and whether Aurelia delivers the change notification in that state is framework behaviour.
- The aliasing of the entity object that `CreateAsync` receives and returns is not modelled either. The model returns the stored value.
- `ApiResourceResponseExample`, `Startup`, `Program`, `main.ts` and the other views and dialogs are wiring or UI and are not part of this model.
