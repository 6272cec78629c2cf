/**
 * What the applicant validator promises: what a load puts into the caches,
 * when a read reloads them, and which failures a validation reports.
 */
module ValidatorProperties {
  import opened Wrappers
  import opened Text
  import opened Models
  import opened ApplicantValidation

  // ---------------------------------------------------------------------------
  // Reference definitions of what a load collects
  // ---------------------------------------------------------------------------

  /** A record the loader can fold in without throwing. */
  predicate Complete(r: CountryRecord)
  {
    r.name.Some? && r.topLevelDomain.Some?
  }

  predicate WellFormed(records: seq<CountryRecord>)
  {
    forall k | 0 <= k < |records| :: Complete(records[k])
  }

  /** The lower-cased names of the records that have one. */
  ghost function NamesOf(records: seq<CountryRecord>): set<string>
  {
    set k | 0 <= k < |records| && records[k].name.Some? :: Lower(records[k].name.value)
  }

  /** The stripped, lower-cased non-empty entries of one domain list. */
  ghost function DomainsOf(domains: seq<Option<string>>): set<string>
  {
    set k | 0 <= k < |domains| && domains[k].Some? && domains[k].value != "" :: StrippedTld(domains[k].value)
  }

  /** Every TLD a record list contributes: one for each non-empty entry of each present domain list. */
  ghost predicate ListsTld(records: seq<CountryRecord>, t: string)
  {
    exists k | 0 <= k < |records| && records[k].topLevelDomain.Some? :: t in DomainsOf(records[k].topLevelDomain.value)
  }

  lemma DomainsOfSnoc(domains: seq<Option<string>>)
    requires domains != []
    ensures var n := |domains| - 1; var d := domains[n];
      DomainsOf(domains) == DomainsOf(domains[..n]) + (if d.None? || d.value == "" then {} else {StrippedTld(d.value)})
  {
    var n := |domains| - 1;
    var d := domains[n];
    var prefix := domains[..n];
    forall t | t in DomainsOf(domains)
      ensures t in DomainsOf(prefix) + (if d.None? || d.value == "" then {} else {StrippedTld(d.value)})
    {
      var k :| 0 <= k < |domains| && domains[k].Some? && domains[k].value != "" && t == StrippedTld(domains[k].value);
      if k < n {
        assert prefix[k] == domains[k];
      }
    }
    forall t | t in DomainsOf(prefix)
      ensures t in DomainsOf(domains)
    {
      var k :| 0 <= k < |prefix| && prefix[k].Some? && prefix[k].value != "" && t == StrippedTld(prefix[k].value);
      assert domains[k] == prefix[k];
    }
  }

  /** The inner loop adds exactly the stripped, lower-cased non-empty entries. */
  lemma {:induction false} AddTldsIsUnion(tlds: set<string>, domains: seq<Option<string>>)
    ensures AddTlds(tlds, domains) == tlds + DomainsOf(domains)
    decreases |domains|
  {
    if domains == [] {
      assert DomainsOf(domains) == {};
    } else {
      AddTldsIsUnion(tlds, domains[..|domains| - 1]);
      DomainsOfSnoc(domains);
    }
  }

  lemma NamesOfSnoc(records: seq<CountryRecord>)
    requires records != [] && records[|records| - 1].name.Some?
    ensures var n := |records| - 1;
      NamesOf(records) == NamesOf(records[..n]) + {Lower(records[n].name.value)}
  {
    var n := |records| - 1;
    var prefix := records[..n];
    forall t | t in NamesOf(records)
      ensures t in NamesOf(prefix) + {Lower(records[n].name.value)}
    {
      var k :| 0 <= k < |records| && records[k].name.Some? && t == Lower(records[k].name.value);
      if k < n {
        assert prefix[k] == records[k];
      }
    }
    forall t | t in NamesOf(prefix)
      ensures t in NamesOf(records)
    {
      var k :| 0 <= k < |prefix| && prefix[k].name.Some? && t == Lower(prefix[k].name.value);
      assert records[k] == prefix[k];
    }
  }

  lemma ListsTldSnoc(records: seq<CountryRecord>, t: string)
    requires records != [] && records[|records| - 1].topLevelDomain.Some?
    ensures var n := |records| - 1;
      ListsTld(records, t) <==> ListsTld(records[..n], t) || t in DomainsOf(records[n].topLevelDomain.value)
  {
    var n := |records| - 1;
    var prefix := records[..n];
    if ListsTld(records, t) {
      var k :| 0 <= k < |records| && records[k].topLevelDomain.Some? && t in DomainsOf(records[k].topLevelDomain.value);
      if k < n {
        assert prefix[k] == records[k];
      }
    }
    if ListsTld(prefix, t) {
      var k :| 0 <= k < |prefix| && prefix[k].topLevelDomain.Some? && t in DomainsOf(prefix[k].topLevelDomain.value);
      assert records[k] == prefix[k];
    }
  }

  /**
   * Folding well-formed records never throws and adds exactly their
   * lower-cased names and their stripped, lower-cased domains.
   */
  lemma {:induction false} AddRecordsWellFormed(c: Caches, records: seq<CountryRecord>)
    requires WellFormed(records)
    ensures var r := AddRecords(c, records);
      r.fault.None?
      && r.caches.countries == c.countries + NamesOf(records)
      && forall t :: t in r.caches.tlds <==> t in c.tlds || ListsTld(records, t)
    decreases |records|
  {
    if records == [] {
      assert NamesOf(records) == {};
    } else {
      var n := |records| - 1;
      var prefix := records[..n];
      assert WellFormed(prefix) by {
        forall k | 0 <= k < |prefix| ensures Complete(prefix[k]) {
          assert prefix[k] == records[k];
        }
      }
      assert Complete(records[n]);
      AddRecordsWellFormed(c, prefix);
      var before := AddRecords(c, prefix);
      var ds := records[n].topLevelDomain.value;
      NamesOfSnoc(records);
      AddTldsIsUnion(before.caches.tlds, ds);
      forall t ensures t in AddRecords(c, records).caches.tlds <==> t in c.tlds || ListsTld(records, t) {
        ListsTldSnoc(records, t);
      }
    }
  }

  /**
   * A successful load makes the country set exactly the lower-cased fetched
   * names, and the TLD set exactly the nine seeds plus every non-empty domain
   * entry without its first character, lower-cased.
   */
  lemma LoadSucceeds(records: seq<CountryRecord>)
    requires WellFormed(records)
    ensures var r := Load(Fetched(records));
      r.fault.None?
      && r.caches.countries == NamesOf(records)
      && forall t :: t in r.caches.tlds <==> t in SeedTlds || ListsTld(records, t)
  {
    AddRecordsWellFormed(Caches({}, SeedTlds), records);
  }

  /**
   * A record with a null name or a null domain list throws; the load then
   * ends with what the records before it added, plus that record's name when
   * it has one. Nothing is rolled back and the later records are ignored.
   */
  lemma LoadStopsAtFirstIncomplete(records: seq<CountryRecord>, k: nat)
    requires k < |records| && WellFormed(records[..k]) && !Complete(records[k])
    ensures var r := Load(Fetched(records));
      r.fault == Some(if records[k].name.None? then NullCountryName else NullTopLevelDomains)
      && r.caches.countries == NamesOf(records[..k]) + (if records[k].name.Some? then {Lower(records[k].name.value)} else {})
      && forall t :: t in r.caches.tlds <==> t in SeedTlds || ListsTld(records[..k], t)
  {
    var seeded := Caches({}, SeedTlds);
    AddRecordsWellFormed(seeded, records[..k]);
    assert records[..k + 1][..k] == records[..k];
    FaultIsFinal(seeded, records, k + 1);
  }

  lemma {:induction false} FirstIncomplete(records: seq<CountryRecord>) returns (k: nat)
    requires !WellFormed(records)
    ensures k < |records| && !Complete(records[k]) && WellFormed(records[..k])
    decreases |records|
  {
    var n := |records| - 1;
    if WellFormed(records[..n]) {
      k := n;
    } else {
      k := FirstIncomplete(records[..n]);
      assert records[..n][..k] == records[..k];
      assert records[..n][k] == records[k];
    }
  }

  /** The load throws exactly when the directory failed or some record is incomplete. */
  lemma LoadFaultIffMalformed(fetch: Fetch)
    ensures Load(fetch).fault.None? <==> fetch.Fetched? && WellFormed(fetch.records)
  {
    if fetch.Fetched? {
      var records := fetch.records;
      if WellFormed(records) {
        LoadSucceeds(records);
      } else {
        var k := FirstIncomplete(records);
        assert WellFormed(records[..k]);
        LoadStopsAtFirstIncomplete(records, k);
      }
    }
  }

  // ---------------------------------------------------------------------------
  // When the caches are (re)loaded
  // ---------------------------------------------------------------------------

  /** The states the caches can be in: never loaded, or loaded at least once (the seeds are in). */
  ghost predicate Reachable(c: Caches)
  {
    c == Caches({}, {}) || SeedTlds <= c.tlds
  }

  /** Validation keeps the caches reachable: after any load attempt the nine seeds are present. */
  lemma ValidationKeepsReachable(c: Caches, answers: DirectoryAnswers, a: Applicant)
    requires Reachable(c)
    ensures Reachable(ValidateSpec(c, answers, a).caches)
  {
  }

  /**
   * Once the country set is non-empty, validation reads the caches without
   * reloading: the caches stay as they are, nothing is raised, and the
   * directory's answers do not matter.
   */
  lemma NoReloadOnceCountriesKnown(c: Caches, f1: DirectoryAnswers, f2: DirectoryAnswers, a: Applicant)
    requires |c.countries| > 0
    ensures ValidateSpec(c, f1, a) == ValidateSpec(c, f2, a)
    ensures ValidateSpec(c, f1, a).caches == c && ValidateSpec(c, f1, a).result.Ok?
  {
  }

  lemma PatternAt(s: string, i: nat, j: nat)
    requires i < j < |s| - 1 && s[i] == '@' && s[j] == '.' && IsAsciiLetter(s[j + 1])
    requires forall m | i < m < j :: s[m] != '\n'
    ensures EMailPattern(s)
  {
    assert NoLineFeedBetween(s, i, j);
  }

  /**
   * The TLD read is guarded by the COUNTRY set: with the seeds already in the
   * TLD set but no country known, checking an address ending in ".com" still
   * reloads, and a failing directory makes the check throw.
   */
  lemma TldReadReloadsWhileNoCountry()
    ensures EMailCheck(Caches({}, SeedTlds), DirectoryUnavailable, "ab@cd.com")
      == Checked(Caches({}, SeedTlds), Err(DirectoryFailed))
  {
    PatternAt("ab@cd.com", 2, 5);
  }

  /**
   * A failed directory request is raised as a fault, not as a rule failure,
   * and leaves the country set empty, so the next validation loads again and
   * succeeds once the directory answers.
   */
  lemma FailedLoadIsRetried(a: Applicant, records: seq<CountryRecord>, unused: Fetch, later: Fetch)
    requires a.countryOfOrigin != ""
    requires WellFormed(records) && records != []
    ensures var first := ValidateSpec(Caches({}, {}), DirectoryAnswers(DirectoryUnavailable, unused), a);
      first.result == Err(DirectoryFailed) && first.caches == Caches({}, SeedTlds)
      && var second := ValidateSpec(first.caches, DirectoryAnswers(Fetched(records), later), a);
      second.result.Ok? && second.caches.countries == NamesOf(records) && |second.caches.countries| > 0
  {
    LoadSucceeds(records);
    assert Lower(records[0].name.value) in NamesOf(records);
  }

  /**
   * The load commits partially: a record with a name but a null domain list
   * throws after its name was added, so the country set is no longer empty
   * and no later read retries the load; the TLD set keeps only the seeds.
   */
  lemma PartialLoadIsNeverRetried(later: Fetch)
    ensures var first := Load(Fetched([CountryRecord(Some("de"), None)]));
      first == Loaded(Caches({"de"}, SeedTlds), Some(NullTopLevelDomains))
      && EnsureLoaded(first.caches, later) == Loaded(first.caches, None)
  {
    assert Lower("de") == "de";
  }

  /**
   * Validating again after a validation that left a known country set leaves
   * the caches alone and needs no directory request. It gives the same answer
   * unless the country was judged against a load that brought no country and
   * the e-mail check's own request then brought some (see
   * `SecondRequestCanChangeTheCountryVerdict`); a directory that gives the
   * same answer to both requests always gives the same answer.
   */
  lemma RevalidationIsStable(c: Caches, answers: DirectoryAnswers, later: DirectoryAnswers, a: Applicant)
    requires ValidateSpec(c, answers, a).result.Ok?
    requires |ValidateSpec(c, answers, a).caches.countries| > 0
    ensures var first := ValidateSpec(c, answers, a);
      ValidateSpec(first.caches, later, a).caches == first.caches && ValidateSpec(first.caches, later, a).result.Ok?
    ensures var first := ValidateSpec(c, answers, a);
      var cc := CountryCheck(c, answers.countryLoad, a.countryOfOrigin);
      a.countryOfOrigin == "" || |cc.caches.countries| > 0 || answers.countryLoad == answers.eMailLoad ==>
        ValidateSpec(first.caches, later, a) == first
  {
    var cc := CountryCheck(c, answers.countryLoad, a.countryOfOrigin);
    var ec := EMailCheck(cc.caches, answers.eMailLoad, a.eMailAddress);
    assert ValidateSpec(c, answers, a).caches == ec.caches;
  }

  /**
   * The two getters make separate requests: when the country check's load
   * succeeds without a country, the e-mail check loads again, and a failure
   * of that second request makes the validation throw.
   */
  lemma EmptyDirectoryIsFetchedAgain(a: Applicant)
    requires a.countryOfOrigin != "" && EMailPattern(a.eMailAddress)
    ensures ValidateSpec(Caches({}, {}), DirectoryAnswers(Fetched([]), DirectoryUnavailable), a)
      == Checked(Caches({}, SeedTlds), Err(DirectoryFailed))
  {
    assert Load(Fetched([])) == Loaded(Caches({}, SeedTlds), None);
  }

  /**
   * A first answer without countries and a second one with "Germany": the
   * example's country is rejected against the empty set, and the next
   * validation, reading the second load's countries, accepts it.
   */
  lemma SecondRequestCanChangeTheCountryVerdict(later: DirectoryAnswers)
    ensures var records := [CountryRecord(Some("Germany"), Some([]))];
      var first := ValidateSpec(Caches({}, {}), DirectoryAnswers(Fetched([]), Fetched(records)), ExampleApplicant);
      first.result.Ok? && ValidationFailure("CountryOfOrigin", "invalid") in first.result.value
      && var second := ValidateSpec(first.caches, later, ExampleApplicant);
      second.result.Ok? && ValidationFailure("CountryOfOrigin", "invalid") !in second.result.value
  {
    var records := [CountryRecord(Some("Germany"), Some([]))];
    var a := ExampleApplicant;
    var loaded := GermanyLoad();
    EmptyLoadRejectsCountry();
    ExampleEMailIsGood(loaded.tlds);
    var ec := EMailCheck(Caches({}, SeedTlds), Fetched(records), a.eMailAddress);
    assert ec == Checked(loaded, Ok(true));
    var first := ValidateSpec(Caches({}, {}), DirectoryAnswers(Fetched([]), Fetched(records)), a);
    assert first.caches == loaded;
    var failures := first.result.value;
    assert failures == TextRules(a) + RequiredRule("CountryOfOrigin", a.countryOfOrigin)
      + [ValidationFailure("CountryOfOrigin", "invalid")]
      + RequiredRule("EMailAddress", a.eMailAddress) + MustRule("EMailAddress", true) + AgeRule(a.age);
    ExampleApplicantIsValid(loaded, later);
  }

  /** The load of a directory listing only "Germany", with no domains. */
  lemma GermanyLoad() returns (loaded: Caches)
    ensures Load(Fetched([CountryRecord(Some("Germany"), Some([]))])) == Loaded(loaded, None)
    ensures "germany" in loaded.countries && SeedTlds <= loaded.tlds
  {
    var records := [CountryRecord(Some("Germany"), Some([]))];
    assert WellFormed(records);
    LoadSucceeds(records);
    ExampleCountry();
    assert Lower(records[0].name.value) in NamesOf(records);
    loaded := Load(Fetched(records)).caches;
  }

  /** A load that brings no country leaves the example's country rejected. */
  lemma EmptyLoadRejectsCountry()
    ensures CountryCheck(Caches({}, {}), Fetched([]), ExampleApplicant.countryOfOrigin)
      == Checked(Caches({}, SeedTlds), Ok(false))
  {
    assert Load(Fetched([])) == Loaded(Caches({}, SeedTlds), None);
  }

  // ---------------------------------------------------------------------------
  // What a validation reports
  // ---------------------------------------------------------------------------

  /** Every rule of the rule set, as (PropertyName, message), in declaration order. */
  const RuleTable: seq<ValidationFailure> := [
    ValidationFailure("Name", "required"), ValidationFailure("Name", "minlen-5"),
    ValidationFailure("FamilyName", "required"), ValidationFailure("FamilyName", "minlen-5"),
    ValidationFailure("Address", "required"), ValidationFailure("Address", "minlen-10"),
    ValidationFailure("CountryOfOrigin", "required"), ValidationFailure("CountryOfOrigin", "invalid"),
    ValidationFailure("EMailAddress", "required"), ValidationFailure("EMailAddress", "invalid"),
    ValidationFailure("Age", "range-20-60")]

  /** The e-mail address is well formed and its last '.'-segment, lower-cased, is a known TLD. */
  predicate GoodEMail(e: string, tlds: set<string>)
  {
    e != "" && EMailPattern(e) && Lower(LastSegment(e, '.')) in tlds
  }

  /** When rule `k` of the table fails, stated on the applicant's fields and the loaded caches. */
  predicate Violates(k: nat, a: Applicant, c: Caches)
  {
    match k
    case 0 => Blank(a.name)
    case 1 => |a.name| < 5
    case 2 => Blank(a.familyName)
    case 3 => |a.familyName| < 5
    case 4 => Blank(a.address)
    case 5 => |a.address| < 10
    case 6 => Blank(a.countryOfOrigin)
    case 7 => !(a.countryOfOrigin != "" && Lower(a.countryOfOrigin) in c.countries)
    case 8 => Blank(a.eMailAddress)
    case 9 => !GoodEMail(a.eMailAddress, c.tlds)
    case 10 => !(20 <= a.age <= 60)
    case _ => false
  }

  /** What rule `k` of the table reports: its failure when violated, else nothing. */
  function Reported(k: nat, a: Applicant, c: Caches): seq<ValidationFailure>
    requires k < |RuleTable|
  {
    if Violates(k, a, c) then [RuleTable[k]] else []
  }

  /** The violated rules from position `k` of the table on, in table order. */
  function Violations(k: nat, a: Applicant, c: Caches): seq<ValidationFailure>
    decreases |RuleTable| - k
  {
    if k >= |RuleTable| then [] else Reported(k, a, c) + Violations(k + 1, a, c)
  }

  lemma AppendAssoc(x: seq<ValidationFailure>, y: seq<ValidationFailure>, z: seq<ValidationFailure>)
    ensures x + (y + z) == (x + y) + z
  {
  }

  /**
   * With the caches loaded, a validation reports exactly the violated rules,
   * each once, in the rule set's declaration order.
   */
  lemma ValidationReportsViolatedRules(c: Caches, answers: DirectoryAnswers, a: Applicant)
    requires |c.countries| > 0
    ensures ValidateSpec(c, answers, a) == Checked(c, Ok(Violations(0, a, c)))
  {
    LoadedValidation(c, answers, a);
    ViolationsHead(a, c);
  }

  /** With a known country set, the two checks read the caches as they are. */
  lemma LoadedValidation(c: Caches, answers: DirectoryAnswers, a: Applicant)
    requires |c.countries| > 0
    ensures ValidateSpec(c, answers, a) == Checked(c, Ok(TextRules(a) + Violations(6, a, c)))
  {
    ViolationsTail(a, c);
    var t := TextRules(a);
    var r1 := RequiredRule("CountryOfOrigin", a.countryOfOrigin);
    var m1 := MustRule("CountryOfOrigin", a.countryOfOrigin != "" && Lower(a.countryOfOrigin) in c.countries);
    var r2 := RequiredRule("EMailAddress", a.eMailAddress);
    var m2 := MustRule("EMailAddress", GoodEMail(a.eMailAddress, c.tlds));
    var g := AgeRule(a.age);
    assert ValidateSpec(c, answers, a) == Checked(c, Ok(t + r1 + m1 + r2 + m2 + g));
    AppendAssoc(t, r1, m1);
    AppendAssoc(t, r1 + m1, r2);
    AppendAssoc(t, r1 + m1 + r2, m2);
    AppendAssoc(t, r1 + m1 + r2 + m2, g);
  }

  lemma ViolationsTail(a: Applicant, c: Caches)
    ensures Violations(6, a, c) == RequiredRule("CountryOfOrigin", a.countryOfOrigin)
      + MustRule("CountryOfOrigin", a.countryOfOrigin != "" && Lower(a.countryOfOrigin) in c.countries)
      + RequiredRule("EMailAddress", a.eMailAddress) + MustRule("EMailAddress", GoodEMail(a.eMailAddress, c.tlds))
      + AgeRule(a.age)
  {
    ViolationsOfCountry(a, c);
    ViolationsOfEMail(a, c);
    ViolationsOfAge(a, c);
    var r1 := RequiredRule("CountryOfOrigin", a.countryOfOrigin);
    var m1 := MustRule("CountryOfOrigin", a.countryOfOrigin != "" && Lower(a.countryOfOrigin) in c.countries);
    var r2 := RequiredRule("EMailAddress", a.eMailAddress);
    var m2 := MustRule("EMailAddress", GoodEMail(a.eMailAddress, c.tlds));
    AppendAssoc(r1 + m1, r2 + m2, AgeRule(a.age));
    AppendAssoc(r1 + m1, r2, m2);
  }

  lemma ViolationsHead(a: Applicant, c: Caches)
    ensures Violations(0, a, c) == TextRules(a) + Violations(6, a, c)
  {
    ViolationsOfName(a, c);
    ViolationsOfFamilyName(a, c);
    ViolationsOfAddress(a, c);
    var n := LengthRules("Name", a.name, 5, "minlen-5");
    var f := LengthRules("FamilyName", a.familyName, 5, "minlen-5");
    var d := LengthRules("Address", a.address, 10, "minlen-10");
    var v := Violations(6, a, c);
    AppendAssoc(f, d, v);
    AppendAssoc(n, f + d, v);
    AppendAssoc(n, f, d);
  }

  lemma ViolationsOfName(a: Applicant, c: Caches)
    ensures Violations(0, a, c) == LengthRules("Name", a.name, 5, "minlen-5") + Violations(2, a, c)
  {
    ViolationsStep(0, a, c);
    ViolationsStep(1, a, c);
    AppendAssoc(Reported(0, a, c), Reported(1, a, c), Violations(2, a, c));
    assert RuleTable[0] == ValidationFailure("Name", "required");
    assert RuleTable[1] == ValidationFailure("Name", "minlen-5");
  }

  lemma ViolationsOfFamilyName(a: Applicant, c: Caches)
    ensures Violations(2, a, c) == LengthRules("FamilyName", a.familyName, 5, "minlen-5") + Violations(4, a, c)
  {
    ViolationsStep(2, a, c);
    ViolationsStep(3, a, c);
    AppendAssoc(Reported(2, a, c), Reported(3, a, c), Violations(4, a, c));
    assert RuleTable[2] == ValidationFailure("FamilyName", "required");
    assert RuleTable[3] == ValidationFailure("FamilyName", "minlen-5");
  }

  lemma ViolationsOfAddress(a: Applicant, c: Caches)
    ensures Violations(4, a, c) == LengthRules("Address", a.address, 10, "minlen-10") + Violations(6, a, c)
  {
    ViolationsStep(4, a, c);
    ViolationsStep(5, a, c);
    AppendAssoc(Reported(4, a, c), Reported(5, a, c), Violations(6, a, c));
    assert RuleTable[4] == ValidationFailure("Address", "required");
    assert RuleTable[5] == ValidationFailure("Address", "minlen-10");
  }

  /** The country rules: "required", then "invalid", then the rules after them. */
  lemma ViolationsOfCountry(a: Applicant, c: Caches)
    ensures Violations(6, a, c) == RequiredRule("CountryOfOrigin", a.countryOfOrigin)
      + MustRule("CountryOfOrigin", a.countryOfOrigin != "" && Lower(a.countryOfOrigin) in c.countries)
      + Violations(8, a, c)
  {
    ViolationsStep(6, a, c);
    ViolationsStep(7, a, c);
    AppendAssoc(Reported(6, a, c), Reported(7, a, c), Violations(8, a, c));
    assert RuleTable[6] == ValidationFailure("CountryOfOrigin", "required");
    assert RuleTable[7] == ValidationFailure("CountryOfOrigin", "invalid");
  }

  /** The e-mail rules: "required", then "invalid", then the age rule. */
  lemma ViolationsOfEMail(a: Applicant, c: Caches)
    ensures Violations(8, a, c) == RequiredRule("EMailAddress", a.eMailAddress)
      + MustRule("EMailAddress", GoodEMail(a.eMailAddress, c.tlds)) + Violations(10, a, c)
  {
    ViolationsStep(8, a, c);
    ViolationsStep(9, a, c);
    AppendAssoc(Reported(8, a, c), Reported(9, a, c), Violations(10, a, c));
    assert RuleTable[8] == ValidationFailure("EMailAddress", "required");
    assert RuleTable[9] == ValidationFailure("EMailAddress", "invalid");
  }

  /** The last rule is the age range. */
  lemma ViolationsOfAge(a: Applicant, c: Caches)
    ensures Violations(10, a, c) == AgeRule(a.age)
  {
    assert Violations(11, a, c) == [];
    assert RuleTable[10] == ValidationFailure("Age", "range-20-60");
  }

  /** One rule of the table: reported if violated, then the rest. */
  lemma ViolationsStep(k: nat, a: Applicant, c: Caches)
    requires k < |RuleTable|
    ensures Violations(k, a, c) == (if Violates(k, a, c) then [RuleTable[k]] else []) + Violations(k + 1, a, c)
  {
  }

  /** The applicant passes every rule. */
  predicate Acceptable(a: Applicant, c: Caches)
  {
    && !Blank(a.name) && |a.name| >= 5
    && !Blank(a.familyName) && |a.familyName| >= 5
    && !Blank(a.address) && |a.address| >= 10
    && !Blank(a.countryOfOrigin) && Lower(a.countryOfOrigin) in c.countries
    && !Blank(a.eMailAddress) && GoodEMail(a.eMailAddress, c.tlds)
    && 20 <= a.age <= 60
  }

  /** With the caches loaded, an applicant validates without failures exactly when it is acceptable. */
  lemma ValidIffAcceptable(c: Caches, answers: DirectoryAnswers, a: Applicant)
    requires |c.countries| > 0
    ensures ValidateSpec(c, answers, a) == Checked(c, Ok([])) <==> Acceptable(a, c)
  {
  }

  /** ApplicantExample.cs: the documented example applicant. */
  const ExampleApplicant := Applicant(1, "Maximilian", "Mustermann", "Musterstraße 7, 56351 Hausen",
    "Germany", "max.mustermann@gmail.com", 30, true)

  /** The example address matches the pattern and ends in ".com". */
  lemma ExampleEMail()
    ensures EMailPattern(ExampleApplicant.eMailAddress)
    ensures LastSegment(ExampleApplicant.eMailAddress, '.') == "com"
  {
    ExampleEMailMatches();
    ExampleEMailTld();
  }

  /** The example address matches the pattern, the '@' at index 14 and the last '.' at index 20. */
  lemma ExampleEMailMatches()
    ensures EMailPattern(ExampleApplicant.eMailAddress)
  {
    PatternAt(ExampleApplicant.eMailAddress, 14, 20);
  }

  /** The text after the example address's last '.' is "com". */
  lemma ExampleEMailTld()
    ensures LastSegment(ExampleApplicant.eMailAddress, '.') == "com"
  {
    assert ExampleApplicant.eMailAddress == "max.mustermann@gmail" + ['.'] + "com";
    LastSegmentAfterSeparator("max.mustermann@gmail", '.', "com");
  }

  /** The example's country and e-mail address pass their rules once the seeds are loaded. */
  lemma ExampleLookups(tlds: set<string>)
    requires SeedTlds <= tlds
    ensures Lower(ExampleApplicant.countryOfOrigin) == "germany"
    ensures GoodEMail(ExampleApplicant.eMailAddress, tlds)
  {
    ExampleCountry();
    ExampleEMailIsGood(tlds);
  }

  lemma ExampleCountry()
    ensures Lower(ExampleApplicant.countryOfOrigin) == "germany"
  {
  }

  lemma ExampleEMailIsGood(tlds: set<string>)
    requires SeedTlds <= tlds
    ensures GoodEMail(ExampleApplicant.eMailAddress, tlds)
  {
    ExampleEMail();
    LowerCom();
  }

  lemma LowerCom()
    ensures Lower("com") == "com"
  {
  }

  /**
   * The example applicant is valid once "germany" is a known country and the
   * seeds have been loaded ("com" is one of them).
   */
  lemma ExampleApplicantIsValid(c: Caches, answers: DirectoryAnswers)
    requires "germany" in c.countries && SeedTlds <= c.tlds
    ensures ValidateSpec(c, answers, ExampleApplicant) == Checked(c, Ok([]))
  {
    ExampleIsAcceptable(c);
    ValidIffAcceptable(c, answers, ExampleApplicant);
  }

  /** The example applicant passes every rule once "germany" and the seeds are loaded. */
  lemma ExampleIsAcceptable(c: Caches)
    requires "germany" in c.countries && SeedTlds <= c.tlds
    ensures |c.countries| > 0 && Acceptable(ExampleApplicant, c)
  {
    ExampleLookups(c.tlds);
    var e := ExampleApplicant;
    assert |e.name| >= 5 && |e.familyName| >= 5 && |e.address| >= 10;
    ExampleIsNotBlank();
    assert c.countries != {};
  }

  /** Every text field of the example starts with a visible character. */
  lemma ExampleIsNotBlank()
    ensures !Blank(ExampleApplicant.name) && !Blank(ExampleApplicant.familyName) && !Blank(ExampleApplicant.address)
    ensures !Blank(ExampleApplicant.countryOfOrigin) && !Blank(ExampleApplicant.eMailAddress)
  {
    var e := ExampleApplicant;
    NotBlankAt(e.name, 0);
    NotBlankAt(e.familyName, 0);
    NotBlankAt(e.address, 0);
    NotBlankAt(e.countryOfOrigin, 0);
    NotBlankAt(e.eMailAddress, 0);
  }

  /**
   * `NotEmpty` fails white space: a name of five or more blanks is "required"
   * only, a shorter non-empty one is both "required" and "minlen-5".
   */
  lemma BlankNameIsRequired(name: string)
    requires name != "" && Blank(name)
    ensures |name| >= 5 ==> LengthRules("Name", name, 5, "minlen-5") == [ValidationFailure("Name", "required")]
    ensures |name| < 5 ==>
      LengthRules("Name", name, 5, "minlen-5") == [ValidationFailure("Name", "required"), ValidationFailure("Name", "minlen-5")]
  {
  }

  /**
   * The example with a three-letter name and age 15 fails exactly the name's
   * minimum length and the age range, in that order; "required" is not
   * reported for the non-blank name.
   */
  lemma ShortNameAndYoungAge(c: Caches, answers: DirectoryAnswers)
    requires "germany" in c.countries && SeedTlds <= c.tlds
    ensures ValidateSpec(c, answers, ExampleApplicant.(name := "Max", age := 15))
      == Checked(c, Ok([ValidationFailure("Name", "minlen-5"), ValidationFailure("Age", "range-20-60")]))
  {
    var a := ExampleApplicant.(name := "Max", age := 15);
    ShortNameYoungAgeFacts(c);
    ShortNameAndAgeOutOfRange(c, answers, a);
  }

  /** The example with name "Max" and age 15: a short name, an age out of range, everything else passing. */
  lemma ShortNameYoungAgeFacts(c: Caches)
    requires "germany" in c.countries && SeedTlds <= c.tlds
    ensures |c.countries| > 0
    ensures var a := ExampleApplicant.(name := "Max", age := 15);
      && !Blank(a.name) && 0 < |a.name| < 5
      && !Blank(a.familyName) && |a.familyName| >= 5 && !Blank(a.address) && |a.address| >= 10
      && !Blank(a.countryOfOrigin) && Lower(a.countryOfOrigin) in c.countries
      && !Blank(a.eMailAddress) && GoodEMail(a.eMailAddress, c.tlds)
      && !(20 <= a.age <= 60)
  {
    ExampleLookups(c.tlds);
    var a := ExampleApplicant.(name := "Max", age := 15);
    assert |a.name| == 3 && |a.familyName| >= 5 && |a.address| >= 10;
    ExampleIsNotBlank();
    MaxIsNotBlank();
    assert c.countries != {};
  }

  lemma MaxIsNotBlank()
    ensures !Blank("Max")
  {
    NotBlankAt("Max", 0);
  }

  /**
   * A non-blank name shorter than five characters and an age outside 20..60,
   * everything else acceptable: exactly the two failures, name first.
   */
  lemma ShortNameAndAgeOutOfRange(c: Caches, answers: DirectoryAnswers, a: Applicant)
    requires |c.countries| > 0
    requires !Blank(a.name) && 0 < |a.name| < 5
    requires !Blank(a.familyName) && |a.familyName| >= 5 && !Blank(a.address) && |a.address| >= 10
    requires !Blank(a.countryOfOrigin) && Lower(a.countryOfOrigin) in c.countries
    requires !Blank(a.eMailAddress) && GoodEMail(a.eMailAddress, c.tlds)
    requires !(20 <= a.age <= 60)
    ensures ValidateSpec(c, answers, a)
      == Checked(c, Ok([ValidationFailure("Name", "minlen-5"), ValidationFailure("Age", "range-20-60")]))
  {
    LoadedValidation(c, answers, a);
    OnlyNameTooShort(a);
    OnlyAgeOutOfRange(a, c);
    assert [ValidationFailure("Name", "minlen-5")] + [ValidationFailure("Age", "range-20-60")]
      == [ValidationFailure("Name", "minlen-5"), ValidationFailure("Age", "range-20-60")];
  }

  /** A short, non-blank name with long enough, non-blank family name and address fails only "minlen-5". */
  lemma OnlyNameTooShort(a: Applicant)
    requires !Blank(a.name) && 0 < |a.name| < 5
    requires !Blank(a.familyName) && |a.familyName| >= 5 && !Blank(a.address) && |a.address| >= 10
    ensures TextRules(a) == [ValidationFailure("Name", "minlen-5")]
  {
  }

  /** With country and e-mail address accepted, an out-of-range age is the only later failure. */
  lemma OnlyAgeOutOfRange(a: Applicant, c: Caches)
    requires !Blank(a.countryOfOrigin) && Lower(a.countryOfOrigin) in c.countries
    requires !Blank(a.eMailAddress) && GoodEMail(a.eMailAddress, c.tlds)
    requires !(20 <= a.age <= 60)
    ensures Violations(6, a, c) == [ValidationFailure("Age", "range-20-60")]
  {
    ViolationsOfCountry(a, c);
    ViolationsOfEMail(a, c);
    ViolationsOfAge(a, c);
  }

  /** The country rule ignores ASCII case: "Germany", "GERMANY" and "germany" are judged alike. */
  lemma CountryCheckIgnoresCase(c: Caches, fetch: Fetch, country: string)
    ensures CountryCheck(c, fetch, country) == CountryCheck(c, fetch, Lower(country))
  {
    LowerIdempotent(country);
  }

  /**
   * For a matching address and loaded caches, the TLD rule holds exactly when
   * the text after the address's last '.', lower-cased, is a known TLD.
   */
  lemma EMailTldIsTextAfterLastDot(c: Caches, fetch: Fetch, e: string, k: nat)
    requires |c.countries| > 0 && EMailPattern(e)
    requires k < |e| && e[k] == '.' && '.' !in e[k + 1..]
    ensures EMailCheck(c, fetch, e) == Checked(c, Ok(Lower(e[k + 1..]) in c.tlds))
  {
    LastSegmentIsSuffix(e, '.');
  }
}
