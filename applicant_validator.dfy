/**
 * The applicant rule set and its lazily loaded reference data
 * (ApplicantValidator.cs).
 *
 * The validator owns two string sets, the country cache and the TLD cache.
 * Reading either of them while the COUNTRY set is empty runs the load: clear
 * both, seed nine fixed TLDs, fetch the country directory, then fold every
 * record into the sets. Each load makes its own request, whose answer is an
 * input (`Fetch`); a validation can load twice, once per getter, and takes
 * one answer for each (`DirectoryAnswers`). A thrown exception is a `Fault`. The pure functions below describe every step on values; the class
 * `ApplicantValidator` does the same on its fields and is proved equal to them.
 */
module ApplicantValidation {
  import opened Wrappers
  import opened Text
  import opened Models

  /** The generic and regional suffixes added before every fetch. */
  const SeedTlds: set<string> := {"com", "net", "info", "org", "at", "ch", "li", "de", "eu"}

  /** The pair of cache sets. */
  datatype Caches = Caches(countries: set<string>, tlds: set<string>)

  /** The caches after a load attempt, and the fault the attempt raised, if any. */
  datatype Loaded = Loaded(caches: Caches, fault: Option<Fault>)

  /** A result computed while reading the caches, with the caches afterwards. */
  datatype Checked<T> = Checked(caches: Caches, result: Result<T, Fault>)

  // ---------------------------------------------------------------------------
  // Loading the caches
  // ---------------------------------------------------------------------------

  /** `tld.Substring(1).ToLower()`: the domain without its leading dot, lower-cased. */
  function StrippedTld(d: string): string
    requires d != ""
  {
    Lower(d[1..])
  }

  /** The inner `foreach` over one record's domains; null and empty entries are skipped. */
  function AddTlds(tlds: set<string>, domains: seq<Option<string>>): set<string>
    decreases |domains|
  {
    if domains == [] then tlds
    else
      var before := AddTlds(tlds, domains[..|domains| - 1]);
      var d := domains[|domains| - 1];
      if d.None? || d.value == "" then before else before + {StrippedTld(d.value)}
  }

  /** One iteration of the outer `foreach`: the name is added before the domain list is touched. */
  function AddRecord(c: Caches, r: CountryRecord): Loaded
  {
    match r.name
    case None => Loaded(c, Some(NullCountryName))
    case Some(n) =>
      var named := c.(countries := c.countries + {Lower(n)});
      match r.topLevelDomain
      case None => Loaded(named, Some(NullTopLevelDomains))
      case Some(ds) => Loaded(named.(tlds := AddTlds(named.tlds, ds)), None)
  }

  /** The outer `foreach`, stopping at the first record that throws; what was added stays. */
  function AddRecords(c: Caches, records: seq<CountryRecord>): (r: Loaded)
    ensures c.countries <= r.caches.countries && c.tlds <= r.caches.tlds
    decreases |records|
  {
    if records == [] then Loaded(c, None)
    else
      var before := AddRecords(c, records[..|records| - 1]);
      if before.fault.Some? then before
      else
        var r := AddRecord(before.caches, records[|records| - 1]);
        assert before.caches.tlds <= AddTlds(before.caches.tlds, []);
        AddTldsGrows(before.caches.tlds, if records[|records| - 1].topLevelDomain.Some? then records[|records| - 1].topLevelDomain.value else []);
        r
  }

  lemma {:induction false} AddTldsGrows(tlds: set<string>, domains: seq<Option<string>>)
    ensures tlds <= AddTlds(tlds, domains)
    decreases |domains|
  {
    if domains != [] {
      AddTldsGrows(tlds, domains[..|domains| - 1]);
    }
  }

  /** Once a record has thrown, the records after it are never looked at. */
  lemma {:induction false} FaultIsFinal(c: Caches, records: seq<CountryRecord>, k: nat)
    requires k <= |records|
    requires AddRecords(c, records[..k]).fault.Some?
    ensures AddRecords(c, records) == AddRecords(c, records[..k])
    decreases |records| - k
  {
    if k < |records| {
      assert records[..k + 1][..k] == records[..k];
      FaultIsFinal(c, records, k + 1);
    } else {
      assert records[..k] == records;
    }
  }

  /** `LoadCaches`: both sets cleared, the seeds added, then the fetched records folded in. */
  function Load(fetch: Fetch): (r: Loaded)
    ensures SeedTlds <= r.caches.tlds
    ensures fetch.DirectoryUnavailable? ==> r == Loaded(Caches({}, SeedTlds), Some(DirectoryFailed))
  {
    var seeded := Caches({}, SeedTlds);
    match fetch
    case DirectoryUnavailable => Loaded(seeded, Some(DirectoryFailed))
    case Fetched(records) => AddRecords(seeded, records)
  }

  /** The guard of both cache getters: load while the country set is empty. */
  function EnsureLoaded(c: Caches, fetch: Fetch): Loaded
  {
    if |c.countries| == 0 then Load(fetch) else Loaded(c, None)
  }

  // ---------------------------------------------------------------------------
  // The two cache-backed rules and the whole rule set
  // ---------------------------------------------------------------------------

  /** `BeValidCountry`: an empty string is invalid without touching the caches. */
  function CountryCheck(c: Caches, fetch: Fetch, country: string): Checked<bool>
  {
    if country == "" then Checked(c, Ok(false))
    else
      var l := EnsureLoaded(c, fetch);
      if l.fault.Some? then Checked(l.caches, Err(l.fault.value))
      else Checked(l.caches, Ok(Lower(country) in l.caches.countries))
  }

  /**
   * The regular expression `.*@.*\.[a-z]+` with IgnoreCase, matched anywhere
   * in the string: an '@', later a '.', then an ASCII letter, and no line feed
   * between the '@' and the '.' (`.` does not match '\n').
   */
  predicate EMailPattern(s: string)
  {
    exists i, j | 0 <= i < j < |s| - 1 ::
      s[i] == '@' && s[j] == '.' && IsAsciiLetter(s[j + 1]) && NoLineFeedBetween(s, i, j)
  }

  predicate NoLineFeedBetween(s: string, i: int, j: int)
    requires 0 <= i <= j <= |s|
  {
    forall m | i < m < j :: s[m] != '\n'
  }

  /** `BeValidEMailAddress`: the caches are read only for a non-empty, matching address. */
  function EMailCheck(c: Caches, fetch: Fetch, eMailAddress: string): Checked<bool>
  {
    if eMailAddress == "" || !EMailPattern(eMailAddress) then Checked(c, Ok(false))
    else
      var l := EnsureLoaded(c, fetch);
      if l.fault.Some? then Checked(l.caches, Err(l.fault.value))
      else Checked(l.caches, Ok(Lower(LastSegment(eMailAddress, '.')) in l.caches.tlds))
  }

  /**
   * `NotEmpty().WithMessage("required").MinimumLength(min).WithMessage(minMessage)`;
   * both rules run. `NotEmpty` on a string fails an empty or white-space-only one.
   */
  function LengthRules(property: string, value: string, min: nat, minMessage: string): seq<ValidationFailure>
  {
    (if Blank(value) then [ValidationFailure(property, "required")] else [])
    + (if |value| < min then [ValidationFailure(property, minMessage)] else [])
  }

  /** The rules that need no reference data: Name, FamilyName, Address. */
  function TextRules(a: Applicant): seq<ValidationFailure>
  {
    LengthRules("Name", a.name, 5, "minlen-5")
    + LengthRules("FamilyName", a.familyName, 5, "minlen-5")
    + LengthRules("Address", a.address, 10, "minlen-10")
  }

  /** `NotEmpty().WithMessage("required")` alone. */
  function RequiredRule(property: string, value: string): seq<ValidationFailure>
  {
    if Blank(value) then [ValidationFailure(property, "required")] else []
  }

  function MustRule(property: string, ok: bool): seq<ValidationFailure>
  {
    if ok then [] else [ValidationFailure(property, "invalid")]
  }

  /** `InclusiveBetween(20, 60).WithMessage("range-20-60")`. */
  function AgeRule(age: int): seq<ValidationFailure>
  {
    if 20 <= age <= 60 then [] else [ValidationFailure("Age", "range-20-60")]
  }

  /**
   * `Validate(applicant)`: every rule of every property in declaration order;
   * a fault raised while reading the caches aborts the whole validation.
   */
  function ValidateSpec(c: Caches, answers: DirectoryAnswers, a: Applicant): Checked<seq<ValidationFailure>>
  {
    var cc := CountryCheck(c, answers.countryLoad, a.countryOfOrigin);
    if cc.result.Err? then Checked(cc.caches, Err(cc.result.error))
    else
      var ec := EMailCheck(cc.caches, answers.eMailLoad, a.eMailAddress);
      if ec.result.Err? then Checked(ec.caches, Err(ec.result.error))
      else
        Checked(ec.caches, Ok(
          TextRules(a)
          + RequiredRule("CountryOfOrigin", a.countryOfOrigin) + MustRule("CountryOfOrigin", cc.result.value)
          + RequiredRule("EMailAddress", a.eMailAddress) + MustRule("EMailAddress", ec.result.value)
          + AgeRule(a.age)))
  }

  // ---------------------------------------------------------------------------
  // The validator object
  // ---------------------------------------------------------------------------

  class ApplicantValidator {
    var countryCache: set<string>
    var tldCache: set<string>

    function State(): Caches
      reads this
    {
      Caches(countryCache, tldCache)
    }

    constructor ()
      ensures State() == Caches({}, {})
    {
      countryCache := {};
      tldCache := {};
    }

    /** `LoadCaches`; the returned fault is the exception it rethrows. */
    method LoadCaches(fetch: Fetch) returns (fault: Option<Fault>)
      modifies this
      ensures Loaded(State(), fault) == Load(fetch)
    {
      SeedCaches();
      if fetch.DirectoryUnavailable? {
        return Some(DirectoryFailed);
      }
      var countries := fetch.records;
      var i := 0;
      while i < |countries|
        invariant 0 <= i <= |countries|
        invariant AddRecords(Caches({}, SeedTlds), countries[..i]) == Loaded(State(), None)
      {
        assert countries[..i + 1][..i] == countries[..i];
        fault := AddCountry(countries[i]);
        if fault.Some? {
          FaultIsFinal(Caches({}, SeedTlds), countries, i + 1);
          return;
        }
        i := i + 1;
      }
      assert countries[..i] == countries;
      fault := None;
    }

    /** The start of `LoadCaches`: both sets cleared, then the nine seeds added one by one. */
    method SeedCaches()
      modifies this
      ensures State() == Caches({}, SeedTlds)
    {
      countryCache := {};
      tldCache := {};
      tldCache := tldCache + {"com"};
      tldCache := tldCache + {"net"};
      tldCache := tldCache + {"info"};
      tldCache := tldCache + {"org"};
      tldCache := tldCache + {"at"};
      tldCache := tldCache + {"ch"};
      tldCache := tldCache + {"li"};
      tldCache := tldCache + {"de"};
      tldCache := tldCache + {"eu"};
    }

    /** One iteration of the outer `foreach` of `LoadCaches`: the record's name, then its domains. */
    method AddCountry(country: CountryRecord) returns (fault: Option<Fault>)
      modifies this
      ensures Loaded(State(), fault) == AddRecord(old(State()), country)
    {
      if country.name.None? {
        return Some(NullCountryName);
      }
      countryCache := countryCache + {Lower(country.name.value)};
      if country.topLevelDomain.None? {
        return Some(NullTopLevelDomains);
      }
      AddDomains(country.topLevelDomain.value);
      fault := None;
    }

    /** The inner `foreach` of `LoadCaches`, over one record's domains. */
    method AddDomains(domains: seq<Option<string>>)
      modifies this
      ensures countryCache == old(countryCache)
      ensures tldCache == AddTlds(old(tldCache), domains)
    {
      var j := 0;
      while j < |domains|
        invariant 0 <= j <= |domains|
        invariant countryCache == old(countryCache)
        invariant tldCache == AddTlds(old(tldCache), domains[..j])
      {
        assert domains[..j + 1][..j] == domains[..j];
        var tld := domains[j];
        if tld.None? || tld.value == "" {
          j := j + 1;
          continue;
        }
        tldCache := tldCache + {StrippedTld(tld.value)};
        j := j + 1;
      }
      assert domains[..j] == domains;
    }

    /** The `CountryCache` getter. */
    method CountryCache(fetch: Fetch) returns (r: Result<set<string>, Fault>)
      modifies this
      ensures var l := EnsureLoaded(old(State()), fetch);
        State() == l.caches && r == (if l.fault.Some? then Err(l.fault.value) else Ok(l.caches.countries))
    {
      if |countryCache| == 0 {
        var fault := LoadCaches(fetch);
        if fault.Some? {
          return Err(fault.value);
        }
      }
      r := Ok(countryCache);
    }

    /** The `TldCache` getter: guarded by the COUNTRY set, like the other one. */
    method TldCache(fetch: Fetch) returns (r: Result<set<string>, Fault>)
      modifies this
      ensures var l := EnsureLoaded(old(State()), fetch);
        State() == l.caches && r == (if l.fault.Some? then Err(l.fault.value) else Ok(l.caches.tlds))
    {
      if |countryCache| == 0 {
        var fault := LoadCaches(fetch);
        if fault.Some? {
          return Err(fault.value);
        }
      }
      r := Ok(tldCache);
    }

    method BeValidCountry(country: string, fetch: Fetch) returns (r: Result<bool, Fault>)
      modifies this
      ensures Checked(State(), r) == CountryCheck(old(State()), fetch, country)
    {
      if country == "" {
        return Ok(false);
      }
      var countries := CountryCache(fetch);
      if countries.Err? {
        return Err(countries.error);
      }
      r := Ok(Lower(country) in countries.value);
    }

    method BeValidEMailAddress(eMailAddress: string, fetch: Fetch) returns (r: Result<bool, Fault>)
      modifies this
      ensures Checked(State(), r) == EMailCheck(old(State()), fetch, eMailAddress)
    {
      if eMailAddress == "" {
        return Ok(false);
      }
      if !EMailPattern(eMailAddress) {
        return Ok(false);
      }
      var eMailTld := Lower(LastSegment(eMailAddress, '.'));
      var tlds := TldCache(fetch);
      if tlds.Err? {
        return Err(tlds.error);
      }
      r := Ok(eMailTld in tlds.value);
    }

    /** The FluentValidation run of the rule set built in the constructor. */
    method Validate(a: Applicant, answers: DirectoryAnswers) returns (r: Result<seq<ValidationFailure>, Fault>)
      modifies this
      ensures Checked(State(), r) == ValidateSpec(old(State()), answers, a)
    {
      var failures := TextRules(a);
      failures := failures + RequiredRule("CountryOfOrigin", a.countryOfOrigin);
      var country := BeValidCountry(a.countryOfOrigin, answers.countryLoad);
      if country.Err? {
        return Err(country.error);
      }
      failures := failures + MustRule("CountryOfOrigin", country.value);
      failures := failures + RequiredRule("EMailAddress", a.eMailAddress);
      var eMail := BeValidEMailAddress(a.eMailAddress, answers.eMailLoad);
      if eMail.Err? {
        return Err(eMail.error);
      }
      failures := failures + MustRule("EMailAddress", eMail.value);
      failures := failures + AgeRule(a.age);
      r := Ok(failures);
    }
  }
}
