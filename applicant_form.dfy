/**
 * The applicant form of the browser client: it turns the server's error keys
 * into inline errors, tracks whether the form is empty, and checks country and
 * e-mail top-level domain against two client-side caches.
 *
 * The validation controller is modelled only as far as the form uses it: a
 * list of the errors added through `addError`, each with a handle that
 * `removeError` takes back. Message texts come from i18n and are represented
 * by the template chosen and the field it names.
 */
module Form {
  import opened Wrappers
  import opened Text
  import opened Models
  import opened ClientModels
  import ApplicantValidation

  // ---------------------------------------------------------------------------
  // Server error keys
  // ---------------------------------------------------------------------------

  /** A parsed key: the code before the first ':' and the field name after it. */
  datatype ServerKey = ServerKey(code: string, property: string)

  /**
   * `inv.split(':')`, then part 0 as the code and part 1, first character
   * lower-cased, as the field. Without a part 1, or with an empty one,
   * `parts[1][0].toLowerCase()` throws; that is `None` here.
   */
  function ParseKey(key: string): (r: Option<ServerKey>)
    ensures r.Some? ==> ':' !in r.value.code && r.value.property != ""
  {
    KeyOfParts(Split(key, ':'))
  }

  /** Part 0 as the code, part 1 with its first character lower-cased as the field. */
  function KeyOfParts(parts: seq<string>): (r: Option<ServerKey>)
    requires forall k :: 0 <= k < |parts| ==> ':' !in parts[k]
    ensures r.Some? ==> ':' !in r.value.code && r.value.property != ""
  {
    if |parts| < 2 || parts[1] == "" then None
    else Some(ServerKey(parts[0], LowerFirst(parts[1])))
  }

  /** The code of a parsed key is the text before its first ':'. */
  lemma ParsedCodeIsTextBeforeFirstColon(key: string)
    requires ParseKey(key).Some?
    ensures var code := ParseKey(key).value.code;
      |code| < |key| && key[..|code| + 1] == code + ":"
  {
    var parts := Split(key, ':');
    assert parts == [parts[0]] + parts[1..];
    assert key == parts[0] + [':'] + Join(parts[1..], ':');
  }

  /** The message templates of the form. */
  datatype Template =
    | RequiredTemplate
    | MinLengthTemplate(length: nat)
    | RangeTemplate(min: int, max: int)
    | DefaultTemplate

  /** The template for a server code; "invalid", "default" and unknown codes all use the default one. */
  function TemplateFor(code: string): Template
  {
    if code == "required" then RequiredTemplate
    else if code == "minlen-5" then MinLengthTemplate(5)
    else if code == "minlen-10" then MinLengthTemplate(10)
    else if code == "range-20-60" then RangeTemplate(20, 60)
    else DefaultTemplate
  }

  /** The five server codes pick their templates; every other code, "invalid" included, the default one. */
  lemma TemplateChoice(code: string)
    ensures TemplateFor("required") == RequiredTemplate
    ensures TemplateFor("minlen-5") == MinLengthTemplate(5) && TemplateFor("minlen-10") == MinLengthTemplate(10)
    ensures TemplateFor("range-20-60") == RangeTemplate(20, 60)
    ensures TemplateFor("invalid") == DefaultTemplate && TemplateFor("default") == DefaultTemplate
    ensures code !in {"required", "minlen-5", "minlen-10", "range-20-60"} ==> TemplateFor(code) == DefaultTemplate
  {
  }

  /** One error added to the validation controller: its handle, template and field. */
  datatype FormError = FormError(handle: nat, template: Template, property: string)

  /** The errors added for `keys`, in order, with consecutive handles from `first`. */
  function Shown(keys: seq<ServerKey>, first: nat): (r: seq<FormError>)
    ensures |r| == |keys|
    ensures forall k | 0 <= k < |keys| ::
      r[k] == FormError(first + k, TemplateFor(keys[k].code), keys[k].property)
  {
    seq(|keys|, k requires 0 <= k < |keys| => FormError(first + k, TemplateFor(keys[k].code), keys[k].property))
  }

  /** The keys parsed before the first one that throws: the longest prefix of parseable keys. */
  function ParsedPrefix(keys: seq<string>): (r: seq<ServerKey>)
    ensures |r| <= |keys|
    decreases |keys|
  {
    if keys == [] then []
    else match ParseKey(keys[0])
      case None => []
      case Some(key) => [key] + ParsedPrefix(keys[1..])
  }

  /** Every key in the prefix parses to its entry, and the key right after it, if any, throws. */
  lemma {:induction false} ParsedPrefixIsLongest(keys: seq<string>)
    ensures var r := ParsedPrefix(keys);
      && (forall k | 0 <= k < |r| :: ParseKey(keys[k]) == Some(r[k]))
      && (|r| < |keys| ==> ParseKey(keys[|r|]).None?)
    decreases |keys|
  {
    if keys != [] && ParseKey(keys[0]).Some? {
      ParsedPrefixIsLongest(keys[1..]);
      var v := ParseKey(keys[0]).value;
      var rest := ParsedPrefix(keys[1..]);
      ParsedPrefixUnfold(keys);
      forall k | 1 <= k < 1 + |rest|
        ensures ParseKey(keys[k]) == Some(([v] + rest)[k])
      {
        assert keys[k] == keys[1..][k - 1];
      }
      if 1 + |rest| < |keys| {
        assert keys[1 + |rest|] == keys[1..][|rest|];
      }
    }
  }

  lemma ParsedPrefixUnfold(keys: seq<string>)
    requires keys != []
    ensures ParseKey(keys[0]).None? ==> ParsedPrefix(keys) == []
    ensures ParseKey(keys[0]).Some? ==> ParsedPrefix(keys) == [ParseKey(keys[0]).value] + ParsedPrefix(keys[1..])
  {
  }

  /** One step of the key loop: a key that throws ends the parsed prefix, one that parses extends it. */
  lemma ParsedPrefixStep(keys: seq<string>, i: nat, done: seq<ServerKey>)
    requires i < |keys| && ParsedPrefix(keys) == done + ParsedPrefix(keys[i..])
    ensures ParseKey(keys[i]).None? ==> ParsedPrefix(keys) == done
    ensures ParseKey(keys[i]).Some? ==>
      ParsedPrefix(keys) == (done + [ParseKey(keys[i]).value]) + ParsedPrefix(keys[i + 1..])
  {
    ParsedPrefixUnfold(keys[i..]);
    assert keys[i..][0] == keys[i] && keys[i..][1..] == keys[i + 1..];
    if ParseKey(keys[i]).None? {
      assert done + [] == done;
    } else {
      var v := ParseKey(keys[i]).value;
      assert done + ([v] + ParsedPrefix(keys[i + 1..])) == (done + [v]) + ParsedPrefix(keys[i + 1..]);
    }
  }

  lemma ShownSnoc(keys: seq<ServerKey>, key: ServerKey, first: nat)
    ensures Shown(keys + [key], first)
      == Shown(keys, first) + [FormError(first + |keys|, TemplateFor(key.code), key.property)]
  {
    assert forall k | 0 <= k < |keys| :: (keys + [key])[k] == keys[k];
  }

  /** The handles of a list of errors. */
  function HandlesOf(rs: seq<FormError>): (h: set<nat>)
    ensures forall k | 0 <= k < |rs| :: rs[k].handle in h
    ensures forall x | x in h :: exists k | 0 <= k < |rs| :: rs[k].handle == x
  {
    set k | 0 <= k < |rs| :: rs[k].handle
  }

  /** `errors` without those whose handle is in `handles`, order kept. */
  function Without(errors: seq<FormError>, handles: set<nat>): (r: seq<FormError>)
    ensures |r| <= |errors|
    decreases |errors|
  {
    if errors == [] then []
    else (if errors[0].handle in handles then [] else [errors[0]]) + Without(errors[1..], handles)
  }

  /** `Without` keeps exactly the errors whose handle is not named. */
  lemma {:induction false} WithoutKeeps(errors: seq<FormError>, handles: set<nat>)
    ensures forall e :: e in Without(errors, handles) <==> e in errors && e.handle !in handles
    decreases |errors|
  {
    if errors != [] {
      WithoutKeeps(errors[1..], handles);
      assert errors == [errors[0]] + errors[1..];
    }
  }

  /** Removing no handle changes nothing. */
  lemma {:induction false} WithoutNothing(errors: seq<FormError>)
    ensures Without(errors, {}) == errors
    decreases |errors|
  {
    if errors != [] {
      WithoutNothing(errors[1..]);
      assert errors == [errors[0]] + errors[1..];
    }
  }

  lemma WithoutCons(e: FormError, rest: seq<FormError>, handles: set<nat>)
    ensures Without([e] + rest, handles) == (if e.handle in handles then [] else [e]) + Without(rest, handles)
  {
    assert ([e] + rest)[0] == e;
    assert ([e] + rest)[1..] == rest;
  }

  /** Removing in two steps is removing the union. */
  lemma {:induction false} WithoutTwice(errors: seq<FormError>, a: set<nat>, b: set<nat>)
    ensures Without(Without(errors, a), b) == Without(errors, a + b)
    decreases |errors|
  {
    if errors != [] {
      var e := errors[0];
      var rest := errors[1..];
      WithoutTwice(rest, a, b);
      if e.handle !in a {
        assert Without(errors, a) == [e] + Without(rest, a);
        WithoutCons(e, Without(rest, a), b);
      } else {
        assert Without(errors, a) == [] + Without(rest, a);
        assert [] + Without(rest, a) == Without(rest, a);
      }
    }
  }

  lemma HandlesOfSnoc(rs: seq<FormError>, i: nat)
    requires i < |rs|
    ensures HandlesOf(rs[..i + 1]) == HandlesOf(rs[..i]) + {rs[i].handle}
  {
    var l := HandlesOf(rs[..i + 1]);
    var r := HandlesOf(rs[..i]) + {rs[i].handle};
    forall x | x in l
      ensures x in r
    {
      var k :| 0 <= k < i + 1 && rs[..i + 1][k].handle == x;
      if k < i {
        assert rs[..i][k].handle == x;
      }
    }
    forall x | x in r
      ensures x in l
    {
      if x != rs[i].handle {
        var k :| 0 <= k < i && rs[..i][k].handle == x;
        assert rs[..i + 1][k].handle == x;
      } else {
        assert rs[..i + 1][i].handle == x;
      }
    }
  }

  /** The parsed field of a key written as "<code>:<Property>" is the property with its first letter lower-cased. */
  lemma ParseKeyOfJoined(code: string, property: string)
    requires ':' !in code && ':' !in property && property != ""
    ensures ParseKey(code + ":" + property) == Some(ServerKey(code, LowerFirst(property)))
  {
    var parts := [code, property];
    assert Join(parts, ':') == code + ":" + property by {
      assert parts[1..] == [property];
    }
    SplitJoin(parts, ':');
  }

  /** A key without any ':' throws. */
  lemma KeyWithoutColonThrows(key: string)
    requires ':' !in key
    ensures ParseKey(key).None?
  {
  }

  // ---------------------------------------------------------------------------
  // The form's empty state
  // ---------------------------------------------------------------------------

  /** `refreshEmptyState`: every field the form shows is falsy; `hired` is not looked at. */
  predicate IsEmptyForm(a: ClientApplicant)
  {
    !(Filled(a.name) || Filled(a.familyName) || Filled(a.address)
      || Filled(a.countryOfOrigin) || Filled(a.eMailAddress) || NonZero(a.age))
  }

  /** A new applicant is an empty form, and `hired` never makes a form non-empty. */
  lemma EmptyFormIgnoresHired(a: ClientApplicant)
    ensures IsEmptyForm(NewApplicant)
    ensures IsEmptyForm(a) == IsEmptyForm(a.(hired := !a.hired))
    ensures IsEmptyForm(a) ==> forall s: string :: !IsEmptyForm(a.(name := Some(s))) <==> s != ""
  {
  }

  // ---------------------------------------------------------------------------
  // Country check with memo
  // ---------------------------------------------------------------------------

  /**
   * The answer of the country directory for a name: a JSON array of that many
   * matches, a JSON value without a length (the directory's not-found
   * object), or a failed request or body.
   */
  datatype CountryLookup = Matches(count: nat) | NoLength | LookupFailed

  /** `webCheckValidCountry`: the new memo and the answer. */
  function WebCountryCheck(cache: map<string, bool>, country: string, lookup: CountryLookup): (r: (map<string, bool>, bool))
    ensures lookup.LookupFailed? ==> r == (cache, false)
    ensures !lookup.LookupFailed? ==> r.0 == cache[country := r.1]
    ensures r.1 <==> lookup.Matches? && lookup.count > 0
  {
    match lookup
    case Matches(n) => (cache[country := n > 0], n > 0)
    case NoLength => (cache[country := false], false)
    case LookupFailed => (cache, false)
  }

  /** `cacheCheckValidCountry`: falsy is false, a memoised answer is returned as is, otherwise ask the directory. */
  function CountryCheck(cache: map<string, bool>, country: Option<string>, lookup: CountryLookup): (r: (map<string, bool>, bool))
    ensures !Filled(country) ==> r == (cache, false)
    ensures Filled(country) && country.value in cache ==> r == (cache, cache[country.value])
    ensures forall k | k in cache :: k in r.0 && r.0[k] == cache[k]
    ensures r.0.Keys <= cache.Keys + (if Filled(country) then {country.value} else {})
  {
    if !Filled(country) then (cache, false)
    else if country.value in cache then (cache, cache[country.value])
    else WebCountryCheck(cache, country.value, lookup)
  }

  /**
   * Once the directory has answered for a country, every later check of the
   * same string gives the same answer without asking again.
   */
  lemma CountryAnswerIsMemoised(cache: map<string, bool>, country: string, first: CountryLookup, later: CountryLookup)
    requires country != "" && !first.LookupFailed?
    ensures var (c1, v1) := CountryCheck(cache, Some(country), first);
      CountryCheck(c1, Some(country), later) == (c1, v1)
  {
  }

  /** A failed lookup answers false and memoises nothing, so the next check asks again. */
  lemma FailedLookupIsRetried(cache: map<string, bool>, country: string, later: CountryLookup)
    requires country != "" && country !in cache
    ensures CountryCheck(cache, Some(country), LookupFailed) == (cache, false)
    ensures CountryCheck(cache, Some(country), later) == WebCountryCheck(cache, country, later)
  {
  }

  /** The memo is keyed by the string as typed: "Germany" and "germany" are looked up separately. */
  lemma CountryMemoIsCaseSensitive()
    ensures CountryCheck(map["germany" := true], Some("Germany"), NoLength) == (map["germany" := true, "Germany" := false], false)
  {
  }

  // ---------------------------------------------------------------------------
  // E-mail TLD check with a lazily loaded cache
  // ---------------------------------------------------------------------------

  /** The nine TLDs the client starts out with. */
  const ClientSeedTlds: set<string> := {"com", "net", "info", "org", "at", "ch", "li", "de", "eu"}

  /** The answer of the directory's list of all countries, seen from the client. */
  datatype TldResponse = TldFetchFailed | TldBodyUnreadable | TldBody(records: seq<CountryRecord>)

  /** JavaScript `substring(1)`: "" stays "". */
  function DropFirst(s: string): (r: string)
    ensures s != "" ==> r == s[1..]
    ensures s == "" ==> r == ""
  {
    if s == "" then "" else s[1..]
  }

  /** The domains of one record added in order; false when a null entry threw. */
  function AddEntries(tlds: set<string>, entries: seq<Option<string>>): (r: (set<string>, bool))
    ensures tlds <= r.0
    ensures r.1 <==> forall k | 0 <= k < |entries| :: entries[k].Some?
    decreases |entries|
  {
    if entries == [] then (tlds, true)
    else match entries[0]
      case None => (tlds, false)
      case Some(d) =>
        var r := AddEntries(tlds + {DropFirst(d)}, entries[1..]);
        assert forall k | 1 <= k < |entries| :: entries[k] == entries[1..][k - 1];
        r
  }

  /** All records' domains added in order, up to the first null list or entry, which throws. */
  function AddAllEntries(tlds: set<string>, records: seq<CountryRecord>): (r: set<string>)
    ensures tlds <= r
    decreases |records|
  {
    if records == [] then tlds
    else match records[0].topLevelDomain
      case None => tlds
      case Some(entries) =>
        var (t, ok) := AddEntries(tlds, entries);
        if ok then AddAllEntries(t, records[1..]) else t
  }

  /** `loadTldCache`: the cache after the load; it is seeded only once the request has answered. */
  function LoadTlds(cache: Option<set<string>>, response: TldResponse): (r: Option<set<string>>)
    ensures response.TldFetchFailed? ==> r == cache
    ensures !response.TldFetchFailed? ==> r.Some? && ClientSeedTlds <= r.value
  {
    match response
    case TldFetchFailed => cache
    case TldBodyUnreadable => Some(ClientSeedTlds)
    case TldBody(records) => Some(AddAllEntries(ClientSeedTlds, records))
  }

  /** How many entries of a domain list come before its first null one. */
  function LeadingEntries(entries: seq<Option<string>>): (n: nat)
    ensures n <= |entries|
    ensures forall k | 0 <= k < n :: entries[k].Some?
    ensures n < |entries| ==> entries[n].None?
    decreases |entries|
  {
    if entries == [] || entries[0].None? then 0
    else
      var n := 1 + LeadingEntries(entries[1..]);
      assert forall k | 1 <= k < |entries| :: entries[k] == entries[1..][k - 1];
      n
  }

  /** What the client stores for one domain list: each entry before the first null one, first character dropped. */
  ghost function EntryTlds(entries: seq<Option<string>>): set<string>
  {
    set k | 0 <= k < LeadingEntries(entries) && entries[k].Some? :: DropFirst(entries[k].value)
  }

  /** A record the client folds in without throwing: a domain list without null entries. */
  predicate ClientComplete(r: CountryRecord)
  {
    r.topLevelDomain.Some? && LeadingEntries(r.topLevelDomain.value) == |r.topLevelDomain.value|
  }

  /** `t` is stored for some record's domain list. */
  ghost predicate ClientListsTld(records: seq<CountryRecord>, t: string)
  {
    exists k | 0 <= k < |records| && records[k].topLevelDomain.Some? :: t in EntryTlds(records[k].topLevelDomain.value)
  }

  lemma EntryTldsCons(entries: seq<Option<string>>)
    requires entries != [] && entries[0].Some?
    ensures LeadingEntries(entries) == 1 + LeadingEntries(entries[1..])
    ensures EntryTlds(entries) == {DropFirst(entries[0].value)} + EntryTlds(entries[1..])
  {
    var rest := entries[1..];
    forall t | t in EntryTlds(entries)
      ensures t in {DropFirst(entries[0].value)} + EntryTlds(rest)
    {
      var k :| 0 <= k < LeadingEntries(entries) && entries[k].Some? && t == DropFirst(entries[k].value);
      if k > 0 {
        assert rest[k - 1] == entries[k];
      }
    }
    forall t | t in EntryTlds(rest)
      ensures t in EntryTlds(entries)
    {
      var k :| 0 <= k < LeadingEntries(rest) && rest[k].Some? && t == DropFirst(rest[k].value);
      assert entries[k + 1] == rest[k];
    }
  }

  /** One record's domains: the entries before the first null one are added, and the fold goes on only if there is none. */
  lemma {:induction false} AddEntriesIsUnion(tlds: set<string>, entries: seq<Option<string>>)
    ensures AddEntries(tlds, entries) == (tlds + EntryTlds(entries), LeadingEntries(entries) == |entries|)
    decreases |entries|
  {
    if entries == [] || entries[0].None? {
      assert LeadingEntries(entries) == 0;
      assert EntryTlds(entries) == {};
      assert tlds + EntryTlds(entries) == tlds;
    } else {
      var d := DropFirst(entries[0].value);
      AddEntriesIsUnion(tlds + {d}, entries[1..]);
      EntryTldsCons(entries);
      assert AddEntries(tlds, entries) == AddEntries(tlds + {d}, entries[1..]);
      assert tlds + {d} + EntryTlds(entries[1..]) == tlds + EntryTlds(entries);
    }
  }

  lemma ClientListsTldCons(records: seq<CountryRecord>, t: string)
    requires records != []
    ensures ClientListsTld(records, t) <==>
      (records[0].topLevelDomain.Some? && t in EntryTlds(records[0].topLevelDomain.value))
      || ClientListsTld(records[1..], t)
  {
    var rest := records[1..];
    if ClientListsTld(records, t) {
      var k :| 0 <= k < |records| && records[k].topLevelDomain.Some? && t in EntryTlds(records[k].topLevelDomain.value);
      if k > 0 {
        assert rest[k - 1] == records[k];
      }
    }
    if ClientListsTld(rest, t) {
      var k :| 0 <= k < |rest| && rest[k].topLevelDomain.Some? && t in EntryTlds(rest[k].topLevelDomain.value);
      assert records[k + 1] == rest[k];
    }
  }

  /** Records without null lists or entries add exactly the entries of all lists, first characters dropped. */
  lemma {:induction false} AddAllEntriesIsUnion(tlds: set<string>, records: seq<CountryRecord>)
    requires forall k | 0 <= k < |records| :: ClientComplete(records[k])
    ensures forall t :: t in AddAllEntries(tlds, records) <==> t in tlds || ClientListsTld(records, t)
    decreases |records|
  {
    if records != [] {
      var entries := records[0].topLevelDomain.value;
      AddEntriesIsUnion(tlds, entries);
      assert forall k | 0 <= k < |records| - 1 :: records[1..][k] == records[k + 1];
      AddAllEntriesIsUnion(tlds + EntryTlds(entries), records[1..]);
      forall t
        ensures ClientListsTld(records, t) <==> t in EntryTlds(entries) || ClientListsTld(records[1..], t)
      {
        ClientListsTldCons(records, t);
      }
    }
  }

  /**
   * At the first record with a null list or entry the fold stops: the
   * records before it are added whole, that record's entries before its
   * first null one, and nothing after it.
   */
  lemma {:induction false} AddAllEntriesStopsAtFirstNull(tlds: set<string>, records: seq<CountryRecord>, m: nat)
    requires m < |records| && !ClientComplete(records[m])
    requires forall k | 0 <= k < m :: ClientComplete(records[k])
    ensures forall t :: t in AddAllEntries(tlds, records) <==>
      || t in tlds || ClientListsTld(records[..m], t)
      || (records[m].topLevelDomain.Some? && t in EntryTlds(records[m].topLevelDomain.value))
    decreases m
  {
    var r := records[m];
    if m == 0 {
      if r.topLevelDomain.Some? {
        AddEntriesIsUnion(tlds, r.topLevelDomain.value);
      }
      assert forall t :: !ClientListsTld(records[..0], t);
    } else {
      var entries := records[0].topLevelDomain.value;
      var rest := records[1..];
      AddEntriesIsUnion(tlds, entries);
      assert rest[m - 1] == r;
      assert forall k | 0 <= k < m - 1 :: rest[k] == records[k + 1];
      AddAllEntriesStopsAtFirstNull(tlds + EntryTlds(entries), rest, m - 1);
      assert records[..m][1..] == rest[..m - 1];
      forall t
        ensures ClientListsTld(records[..m], t) <==> t in EntryTlds(entries) || ClientListsTld(rest[..m - 1], t)
      {
        ClientListsTldCons(records[..m], t);
      }
    }
  }

  /** A body without null lists or entries gives the seeds plus every entry with its first character dropped. */
  lemma LoadTldsContents(cache: Option<set<string>>, records: seq<CountryRecord>)
    requires forall k | 0 <= k < |records| :: ClientComplete(records[k])
    ensures LoadTlds(cache, TldBody(records)).Some?
    ensures forall t :: t in LoadTlds(cache, TldBody(records)).value <==> t in ClientSeedTlds || ClientListsTld(records, t)
  {
    AddAllEntriesIsUnion(ClientSeedTlds, records);
  }

  /**
   * `cacheCheckValidEMailAddressTld`: falsy is false; the cache is loaded while
   * it is null, and a cache that is still null makes the lookup throw.
   */
  function TldCheck(cache: Option<set<string>>, eMailAddress: Option<string>, response: TldResponse)
    : (r: (Option<set<string>>, Result<bool, Thrown>))
    ensures !Filled(eMailAddress) ==> r == (cache, Ok(false))
    ensures Filled(eMailAddress) && cache.Some? ==> r.0 == cache
    ensures r.1.Err? <==> Filled(eMailAddress) && cache.None? && response.TldFetchFailed?
    ensures r.1.Ok? && Filled(eMailAddress) ==>
      r.0.Some? && (r.1.value <==> Lower(LastSegment(eMailAddress.value, '.')) in r.0.value)
  {
    if !Filled(eMailAddress) then (cache, Ok(false))
    else
      var loaded := if cache.None? then LoadTlds(cache, response) else cache;
      if loaded.None? then (loaded, Err(TypeError))
      else (loaded, Ok(Lower(LastSegment(eMailAddress.value, '.')) in loaded.value))
  }

  /**
   * A body that cannot be read leaves the seeded cache in place, and it is
   * never loaded again: later checks use the nine seeds only.
   */
  lemma UnreadableBodyIsNeverReloaded(later: TldResponse, e: string)
    requires e != ""
    ensures LoadTlds(None, TldBodyUnreadable) == Some(ClientSeedTlds)
    ensures TldCheck(Some(ClientSeedTlds), Some(e), later)
      == (Some(ClientSeedTlds), Ok(Lower(LastSegment(e, '.')) in ClientSeedTlds))
  {
  }

  /** A failed request leaves the cache null; the lookup throws and the next check loads again. */
  lemma FailedTldFetchIsRetried(e: string, later: TldResponse)
    requires e != ""
    ensures TldCheck(None, Some(e), TldFetchFailed) == (None, Err(TypeError))
    ensures TldCheck(None, Some(e), later).0 == LoadTlds(None, later)
  {
  }

  /** The client's seeds are the server's. */
  lemma ClientSeedsAreServerSeeds()
    ensures ClientSeedTlds == ApplicantValidation.SeedTlds
  {
  }

  // ---------------------------------------------------------------------------
  // The form object
  // ---------------------------------------------------------------------------

  class ApplicantForm {
    var applicant: ClientApplicant
    var formIsEmpty: bool
    var countryValidationCache: map<string, bool>
    var tldCache: Option<set<string>>
    /** The errors added to the validation controller and not yet removed. */
    var errors: seq<FormError>
    var serverSideValidateResults: seq<FormError>
    /** The handle the next added error gets. */
    var nextHandle: nat

    constructor ()
      ensures applicant == NewApplicant && formIsEmpty
      ensures countryValidationCache == map[] && tldCache == None
      ensures errors == [] && serverSideValidateResults == [] && nextHandle == 0
    {
      applicant := NewApplicant;
      formIsEmpty := true;
      countryValidationCache := map[];
      tldCache := None;
      errors := [];
      serverSideValidateResults := [];
      nextHandle := 0;
    }

    /** `refreshEmptyState`. */
    method RefreshEmptyState()
      modifies this`formIsEmpty
      ensures formIsEmpty == IsEmptyForm(applicant)
    {
      formIsEmpty := !(Filled(applicant.name) || Filled(applicant.familyName) || Filled(applicant.address)
        || Filled(applicant.countryOfOrigin) || Filled(applicant.eMailAddress) || NonZero(applicant.age));
    }

    /** `serversideinvalidationChanged`: take back the previous server errors, then add one per new key. */
    method ServersideInvalidationChanged(newInvalidation: Option<seq<string>>, oldInvalidation: Option<seq<string>>)
      returns (thrown: Option<Thrown>)
      modifies this`errors, this`serverSideValidateResults, this`nextHandle
      ensures var kept := if oldInvalidation.Some? && |oldInvalidation.value| > 0
        then Without(old(errors), HandlesOf(old(serverSideValidateResults))) else old(errors);
        if newInvalidation.Some? && |newInvalidation.value| > 0 then
          var parsed := ParsedPrefix(newInvalidation.value);
          && serverSideValidateResults == Shown(parsed, old(nextHandle))
          && errors == kept + serverSideValidateResults
          && nextHandle == old(nextHandle) + |parsed|
          && (thrown.None? <==> |parsed| == |newInvalidation.value|)
        else
          && errors == kept
          && serverSideValidateResults == old(serverSideValidateResults)
          && nextHandle == old(nextHandle)
          && thrown.None?
    {
      if oldInvalidation.Some? && |oldInvalidation.value| > 0 {
        RemoveServerErrors();
      }
      thrown := None;
      if newInvalidation.Some? && |newInvalidation.value| > 0 {
        serverSideValidateResults := [];
        thrown := AddServerErrors(newInvalidation.value);
      }
    }

    /** `serverSideValidateResults.forEach(vr => controller.removeError(vr))`. */
    method RemoveServerErrors()
      modifies this`errors
      ensures errors == Without(old(errors), HandlesOf(serverSideValidateResults))
    {
      assert HandlesOf(serverSideValidateResults[..0]) == {};
      WithoutNothing(old(errors));
      var i := 0;
      while i < |serverSideValidateResults|
        invariant 0 <= i <= |serverSideValidateResults|
        invariant errors == Without(old(errors), HandlesOf(serverSideValidateResults[..i]))
      {
        HandlesOfSnoc(serverSideValidateResults, i);
        WithoutTwice(old(errors), HandlesOf(serverSideValidateResults[..i]), {serverSideValidateResults[i].handle});
        errors := Without(errors, {serverSideValidateResults[i].handle});
        i := i + 1;
      }
      assert serverSideValidateResults[..i] == serverSideValidateResults;
    }

    /** `newInvalidation.forEach(...)`: parse each key and push the error added for it, until a key throws. */
    method AddServerErrors(keys: seq<string>) returns (thrown: Option<Thrown>)
      requires serverSideValidateResults == []
      modifies this`errors, this`serverSideValidateResults, this`nextHandle
      ensures var parsed := ParsedPrefix(keys);
        && serverSideValidateResults == Shown(parsed, old(nextHandle))
        && errors == old(errors) + serverSideValidateResults
        && nextHandle == old(nextHandle) + |parsed|
        && (thrown.None? <==> |parsed| == |keys|)
    {
      var i := 0;
      ghost var first := nextHandle;
      ghost var done: seq<ServerKey> := [];
      assert keys[i..] == keys;
      while i < |keys|
        invariant 0 <= i <= |keys| && |done| == i
        invariant ParsedPrefix(keys) == done + ParsedPrefix(keys[i..])
        invariant serverSideValidateResults == Shown(done, first)
        invariant errors == old(errors) + serverSideValidateResults
        invariant nextHandle == first + i && first == old(nextHandle)
      {
        ParsedPrefixStep(keys, i, done);
        var parsed := ParseKey(keys[i]);
        if parsed.None? {
          return Some(TypeError);
        }
        PushServerError(parsed.value, done, first, old(errors));
        done := done + [parsed.value];
        i := i + 1;
      }
      assert keys[i..] == [];
      thrown := None;
    }

    /**
     * The body of the loop for a key that parsed: add its error and keep it as
     * a server result. `done` are the keys already shown, from handle `first`.
     */
    method PushServerError(key: ServerKey, ghost done: seq<ServerKey>, ghost first: nat, ghost before: seq<FormError>)
      requires serverSideValidateResults == Shown(done, first) && nextHandle == first + |done|
      requires errors == before + serverSideValidateResults
      modifies this`errors, this`serverSideValidateResults, this`nextHandle
      ensures var added := FormError(old(nextHandle), TemplateFor(key.code), key.property);
        && serverSideValidateResults == Shown(done + [key], first)
        && errors == old(errors) + [added]
        && errors == before + serverSideValidateResults
        && nextHandle == old(nextHandle) + 1
    {
      var added := FormError(nextHandle, TemplateFor(key.code), key.property);
      ShownSnoc(done, key, first);
      assert before + (serverSideValidateResults + [added]) == (before + serverSideValidateResults) + [added];
      serverSideValidateResults := serverSideValidateResults + [added];
      errors := errors + [added];
      nextHandle := nextHandle + 1;
    }

    /** `cacheCheckValidCountry`, with `webCheckValidCountry` inlined below. */
    method CacheCheckValidCountry(country: Option<string>, lookup: CountryLookup) returns (valid: bool)
      modifies this`countryValidationCache
      ensures (countryValidationCache, valid) == CountryCheck(old(countryValidationCache), country, lookup)
    {
      if !Filled(country) {
        return false;
      }
      if country.value in countryValidationCache {
        valid := countryValidationCache[country.value];
      } else {
        valid := WebCheckValidCountry(country.value, lookup);
      }
    }

    method WebCheckValidCountry(country: string, lookup: CountryLookup) returns (valid: bool)
      modifies this`countryValidationCache
      ensures (countryValidationCache, valid) == WebCountryCheck(old(countryValidationCache), country, lookup)
    {
      match lookup
      case LookupFailed =>
        valid := false;
      case NoLength =>
        countryValidationCache := countryValidationCache[country := false];
        valid := countryValidationCache[country];
      case Matches(n) =>
        countryValidationCache := countryValidationCache[country := n > 0];
        valid := countryValidationCache[country];
    }

    /** `cacheCheckValidEMailAddressTld`. */
    method CacheCheckValidEMailAddressTld(eMailAddress: Option<string>, response: TldResponse)
      returns (r: Result<bool, Thrown>)
      modifies this`tldCache
      ensures (tldCache, r) == TldCheck(old(tldCache), eMailAddress, response)
    {
      if !Filled(eMailAddress) {
        return Ok(false);
      }
      if tldCache.None? {
        LoadTldCache(response);
      }
      if tldCache.None? {
        return Err(TypeError);
      }
      var eMailTld := LastSegment(eMailAddress.value, '.');
      r := Ok(Lower(eMailTld) in tldCache.value);
    }

    /** `loadTldCache`: seed after the request answered, then add each record's domains until one throws. */
    method LoadTldCache(response: TldResponse)
      modifies this`tldCache
      ensures tldCache == LoadTlds(old(tldCache), response)
    {
      if response.TldFetchFailed? {
        return;
      }
      tldCache := Some(ClientSeedTlds);
      if response.TldBodyUnreadable? {
        return;
      }
      var records := response.records;
      var i := 0;
      while i < |records|
        invariant 0 <= i <= |records| && tldCache.Some?
        invariant AddAllEntries(tldCache.value, records[i..]) == AddAllEntries(ClientSeedTlds, records)
      {
        assert records[i..][1..] == records[i + 1..];
        if records[i].topLevelDomain.None? {
          return;
        }
        var ok := AddRecordEntries(records[i].topLevelDomain.value);
        if !ok {
          return;
        }
        i := i + 1;
      }
    }

    /** The inner `tld.forEach(...)` over one record's domains. */
    method AddRecordEntries(entries: seq<Option<string>>) returns (ok: bool)
      requires tldCache.Some?
      modifies this`tldCache
      ensures tldCache.Some? && (tldCache.value, ok) == AddEntries(old(tldCache).value, entries)
    {
      var j := 0;
      while j < |entries|
        invariant 0 <= j <= |entries| && tldCache.Some?
        invariant AddEntries(tldCache.value, entries[j..]) == AddEntries(old(tldCache).value, entries)
      {
        assert entries[j..][1..] == entries[j + 1..];
        if entries[j].None? {
          return false;
        }
        tldCache := Some(tldCache.value + {DropFirst(entries[j].value)});
        j := j + 1;
      }
      ok := true;
    }
  }
}
