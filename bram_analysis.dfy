/** The recorded-traffic analyser of ass1/bram/s1015194.py: from the entries
    of a HAR log and the domain map it computes the report of one site
    (request and cookie-header counts, third-party domains, tracker-cookie
    domains, third-party entities and one row per request).

    The libraries it calls are parameters: `urlparse(url).netloc`,
    `publicsuffix2.get_sld`, `http.cookies.BaseCookie.load` (given as the
    morsels it yields or the CookieError it raises) and `email.utils.parsedate_to_datetime`. */
module BramAnalysis {
  import opened Base
  import opened Text
  import opened Sorting
  import opened Har

  /** A morsel of `http.cookies.BaseCookie`: the attributes the analyser
      reads, each `""` when the Set-Cookie value does not set it. */
  datatype Morsel = Morsel(domain: string, maxAge: string, expires: string, samesite: string)

  datatype Libraries = Libraries(
    netloc: string -> string,              // urllib.parse.urlparse(url).netloc
    sld: string -> string,                 // publicsuffix2.get_sld
    loadCookie: string -> Outcome<seq<Morsel>>,  // the morsels BaseCookie().load(raw) holds, in key order, or its CookieError
    parseDate: string -> Option<Instant>)  // email.utils.parsedate_to_datetime, None where it raises

  /** `url_to_domain`: the registrable domain of the URL's network location. */
  function UrlToDomain(lib: Libraries, url: string): (domain: string)
    ensures domain == lib.sld(lib.netloc(url))
  {
    lib.sld(lib.netloc(url))
  }

  /** Only the network location matters: URLs that differ in scheme, path
      or query but share a host get the same domain. */
  lemma SameNetlocSameDomain(lib: Libraries, url1: string, url2: string)
    requires lib.netloc(url1) == lib.netloc(url2)
    ensures UrlToDomain(lib, url1) == UrlToDomain(lib, url2)
  {
  }

  /** The label `get_entityname` gives a domain the map does not name. */
  function UnknownEntity(domain: string): string {
    "Unknown (" + domain + ")"
  }

  /** `get_entityname`: the `entityName` the map holds for the domain, and
      `Unknown (<domain>)` when the domain or its `entityName` is missing
      (both raise the KeyError the function catches). */
  function GetEntityName(domainMap: DomainMap, domain: string): string {
    if domain in domainMap && domainMap[domain].entityName.Some? then domainMap[domain].entityName.value
    else UnknownEntity(domain)
  }

  /** A mapped domain gets its entity name; an unmapped one gets the
      fallback label, and distinct unmapped domains get distinct labels. */
  lemma EntityNameFallback(domainMap: DomainMap, d1: string, d2: string)
    ensures d1 in domainMap && domainMap[d1].entityName.Some? ==>
      GetEntityName(domainMap, d1) == domainMap[d1].entityName.value
    ensures !(d1 in domainMap && domainMap[d1].entityName.Some?) ==>
      GetEntityName(domainMap, d1) == "Unknown (" + d1 + ")"
    ensures (&& !(d1 in domainMap && domainMap[d1].entityName.Some?)
             && !(d2 in domainMap && domainMap[d2].entityName.Some?)
             && GetEntityName(domainMap, d1) == GetEntityName(domainMap, d2)) ==> d1 == d2
  {
    var prefix := "Unknown (";
    var a, b := UnknownEntity(d1), UnknownEntity(d2);
    if a == b {
      assert |d1| == |d2|;
      assert d1 == a[|prefix|..|prefix| + |d1|];
      assert d2 == b[|prefix|..|prefix| + |d2|];
    }
  }

  /** An unmapped domain is reported under the literal fallback label. */
  lemma UnknownEntityExample(domainMap: DomainMap)
    requires "example-tracker.test" !in domainMap
    ensures GetEntityName(domainMap, "example-tracker.test") == "Unknown (example-tracker.test)"
  {
  }

  /** The headers of the request or of the response of an entry. */
  function HeadersOf(e: Entry, ofResponse: bool): seq<Header> {
    if ofResponse then e.response.headers else e.request.headers
  }

  /** The number of headers named exactly `name`. */
  function CountNamed(headers: seq<Header>, name: string): (n: nat)
    ensures n <= |headers|
    ensures n > 0 <==> exists h :: h in headers && h.name == name
    decreases |headers|
  {
    if |headers| == 0 then 0
    else (if headers[0].name == name then 1 else 0) + CountNamed(headers[1..], name)
  }

  /** jq `H | select(.[].name == name)` on one header array `H`: the
      condition yields one boolean per header, and `select` emits `H` once
      for each true one. */
  function SelectByName(headers: seq<Header>, name: string): (out: seq<seq<Header>>)
    ensures |out| == CountNamed(headers, name)
    ensures forall k :: 0 <= k < |out| ==> out[k] == headers
  {
    seq(CountNamed(headers, name), _ => headers)
  }

  /** jq `.log.entries.[].request.headers | select(.[].name == name)` (or
      `.response.headers`), in log order. */
  function Selections(log: seq<Entry>, ofResponse: bool, name: string): seq<seq<Header>>
    decreases |log|
  {
    if |log| == 0 then []
    else Selections(log[..|log| - 1], ofResponse, name) + SelectByName(HeadersOf(log[|log| - 1], ofResponse), name)
  }

  /** The sum, over the entries, of the number of their headers named `name`. */
  function NamedHeaderTotal(log: seq<Entry>, ofResponse: bool, name: string): nat
    decreases |log|
  {
    if |log| == 0 then 0
    else CountNamed(HeadersOf(log[0], ofResponse), name) + NamedHeaderTotal(log[1..], ofResponse, name)
  }

  /** The number of entries with at least one header named `name`. */
  function EntriesWithNamed(log: seq<Entry>, ofResponse: bool, name: string): nat
    decreases |log|
  {
    if |log| == 0 then 0
    else (if CountNamed(HeadersOf(log[0], ofResponse), name) > 0 then 1 else 0) + EntriesWithNamed(log[1..], ofResponse, name)
  }

  /** The selection emits as many arrays as there are matching headers. */
  lemma {:induction false} SelectionsCount(log: seq<Entry>, ofResponse: bool, name: string)
    ensures |Selections(log, ofResponse, name)| == NamedHeaderTotal(log, ofResponse, name)
    decreases |log|
  {
    if |log| > 0 {
      var n := |log| - 1;
      SelectionsCount(log[..n], ofResponse, name);
      NamedHeaderTotalSnoc(log[..n], log[n], ofResponse, name);
      assert log[..n] + [log[n]] == log;
    }
  }

  lemma {:induction false} NamedHeaderTotalSnoc(log: seq<Entry>, e: Entry, ofResponse: bool, name: string)
    ensures NamedHeaderTotal(log + [e], ofResponse, name) ==
      NamedHeaderTotal(log, ofResponse, name) + CountNamed(HeadersOf(e, ofResponse), name)
    decreases |log|
  {
    if |log| > 0 {
      assert (log + [e])[1..] == log[1..] + [e];
      NamedHeaderTotalSnoc(log[1..], e, ofResponse, name);
    }
  }

  /** Each selected array is the header array of an entry that has a
      header named `name`, and every such entry's array is selected. */
  lemma {:induction false} SelectionsMembers(log: seq<Entry>, ofResponse: bool, name: string)
    ensures forall hs :: hs in Selections(log, ofResponse, name) <==>
      exists e :: e in log && hs == HeadersOf(e, ofResponse) && CountNamed(HeadersOf(e, ofResponse), name) > 0
    decreases |log|
  {
    if |log| > 0 {
      var n := |log| - 1;
      SelectionsMembers(log[..n], ofResponse, name);
      assert log == log[..n] + [log[n]];
      var last := SelectByName(HeadersOf(log[n], ofResponse), name);
      if |last| > 0 {
        assert last[0] == HeadersOf(log[n], ofResponse);
      }
      forall hs
        ensures hs in Selections(log, ofResponse, name) <==>
          exists e :: e in log && hs == HeadersOf(e, ofResponse) && CountNamed(HeadersOf(e, ofResponse), name) > 0
      {
        if exists e :: e in log && hs == HeadersOf(e, ofResponse) && CountNamed(HeadersOf(e, ofResponse), name) > 0 {
          var e :| e in log && hs == HeadersOf(e, ofResponse) && CountNamed(HeadersOf(e, ofResponse), name) > 0;
          if e !in log[..n] {
            assert e == log[n];
            assert hs in last;
          }
        }
      }
    }
  }

  /** The number of requests: jq `.log.entries.[].request` yields one value
      per entry. */
  function ComputeNumRequests(log: seq<Entry>): (n: nat)
    ensures n == |log|
  {
    |seq(|log|, k requires 0 <= k < |log| => log[k].request)|
  }

  /** "Requests with cookies": the number of request headers named exactly
      `cookie`, over all entries (one selection output per header). */
  function ComputeNumWithCookiesRequest(log: seq<Entry>): (n: nat)
    ensures n == NamedHeaderTotal(log, false, "cookie")
  {
    SelectionsCount(log, false, "cookie");
    |Selections(log, false, "cookie")|
  }

  /** "Responses with cookies": the number of response headers named
      exactly `set-cookie`, over all entries. */
  function ComputeNumWithCookiesResponse(log: seq<Entry>): (n: nat)
    ensures n == NamedHeaderTotal(log, true, "set-cookie")
  {
    SelectionsCount(log, true, "set-cookie");
    |Selections(log, true, "set-cookie")|
  }

  /** The header count is at least the number of entries carrying such a
      header, and equals it exactly when no entry carries two. */
  lemma {:induction false} HeaderTotalVersusEntries(log: seq<Entry>, ofResponse: bool, name: string)
    ensures EntriesWithNamed(log, ofResponse, name) <= NamedHeaderTotal(log, ofResponse, name)
    ensures EntriesWithNamed(log, ofResponse, name) == NamedHeaderTotal(log, ofResponse, name) <==>
      forall e :: e in log ==> CountNamed(HeadersOf(e, ofResponse), name) <= 1
    decreases |log|
  {
    if |log| > 0 {
      HeaderTotalVersusEntries(log[1..], ofResponse, name);
      assert forall e :: e in log <==> e == log[0] || e in log[1..];
    }
  }

  /** The domains of all request URLs, in log order. */
  function RequestDomains(lib: Libraries, log: seq<Entry>): (ds: seq<string>)
    ensures |ds| == |log|
    ensures forall d :: d in ds <==> exists e :: e in log && UrlToDomain(lib, e.request.url) == d
  {
    var ds := seq(|log|, i requires 0 <= i < |log| => UrlToDomain(lib, log[i].request.url));
    assert forall i :: 0 <= i < |log| ==> ds[i] == UrlToDomain(lib, log[i].request.url);
    ds
  }

  /** `filter(lambda d: d != x, xs)`. */
  function Without(xs: seq<string>, x: string): (r: seq<string>)
    ensures forall y :: y in r <==> y in xs && y != x
    ensures |r| <= |xs|
    decreases |xs|
  {
    if |xs| == 0 then []
    else (if xs[0] == x then [] else [xs[0]]) + Without(xs[1..], x)
  }

  /** `compute_third_party_domains`: the distinct registrable domains of the
      request URLs other than the first party, sorted; being strictly
      increasing, the list holds each domain once. */
  function ComputeThirdPartyDomains(lib: Libraries, log: seq<Entry>, firstParty: string): (domains: seq<string>)
    ensures StrictlySorted(domains)
    ensures firstParty !in domains
    ensures forall d :: d in domains <==> d != firstParty && exists e :: e in log && UrlToDomain(lib, e.request.url) == d
  {
    SortedDistinct(Without(RequestDomains(lib, log), firstParty))
  }

  /** The max-age test of the tracker rule. */
  predicate MaxAgeAtLeast60Days(cookie: Morsel) {
    |cookie.maxAge| > 0 && ParseInt(cookie.maxAge).Some? && ParseInt(cookie.maxAge).value >= SixtyDaysInSeconds
  }

  /** The expires test of the tracker rule. */
  predicate ExpiresAtLeast60Days(lib: Libraries, cookie: Morsel, responseDate: Instant) {
    && |cookie.expires| > 0
    && lib.parseDate(cookie.expires).Some?
    && var delta := SecondsBetween(lib.parseDate(cookie.expires).value, responseDate);
       delta.Success? && delta.value >= SixtyDaysInSeconds
  }

  /** `check_cookie_requirements`: samesite must be `none` (any case); then
      a max-age of at least 60 days qualifies, and otherwise, whatever the
      max-age was, an expiry at least 60 days after the response date
      qualifies. `int()` on a malformed max-age, an unparsable expiry and a
      naive/aware date mix raise. */
  function CheckCookieRequirements(lib: Libraries, cookie: Morsel, responseDate: Instant): (r: Outcome<bool>)
    ensures Lower(cookie.samesite) != "none" ==> r == Success(false)
  {
    if Lower(cookie.samesite) != "none" then Success(false)
    else if |cookie.maxAge| > 0 && ParseInt(cookie.maxAge).None? then Failure(ValueError)
    else if |cookie.maxAge| > 0 && ParseInt(cookie.maxAge).value >= SixtyDaysInSeconds then Success(true)
    else if |cookie.expires| > 0 then
      match lib.parseDate(cookie.expires)
      case None => Failure(ValueError)
      case Some(expireDate) =>
        match SecondsBetween(expireDate, responseDate)
        case Failure(e) => Failure(e)
        case Success(delta) => Success(delta >= SixtyDaysInSeconds)
    else Success(false)
  }

  /** The tracker rule as the code decides it: with samesite `none`, a
      cookie qualifies iff its max-age is at least 60 days, or its max-age
      is absent or readable and its expiry is at least 60 days after the
      response date. A max-age below the threshold does not stop the
      expires test. */
  lemma TrackerRule(lib: Libraries, cookie: Morsel, responseDate: Instant)
    ensures CheckCookieRequirements(lib, cookie, responseDate) == Success(true) <==>
      && Lower(cookie.samesite) == "none"
      && (|| MaxAgeAtLeast60Days(cookie)
          || ((|cookie.maxAge| == 0 || ParseInt(cookie.maxAge).Some?) && ExpiresAtLeast60Days(lib, cookie, responseDate)))
    ensures CheckCookieRequirements(lib, cookie, responseDate).Failure? ==>
      Lower(cookie.samesite) == "none" && (|cookie.maxAge| > 0 || |cookie.expires| > 0)
  {
  }

  /** The max-age does not take precedence: a samesite-none cookie whose
      max-age is short but readable still qualifies on a long expiry. */
  lemma ShortMaxAgeDoesNotBlockExpires(lib: Libraries, cookie: Morsel, responseDate: Instant, maxAge: int)
    requires Lower(cookie.samesite) == "none"
    requires ParseInt(cookie.maxAge) == Some(maxAge) && maxAge < SixtyDaysInSeconds
    requires |cookie.expires| > 0
    requires lib.parseDate(cookie.expires) == Some(Instant(responseDate.seconds + 90 * 24 * 3600, responseDate.aware))
    ensures CheckCookieRequirements(lib, cookie, responseDate) == Success(true)
  {
  }

  /** jq `.[] | select(.name == name) | .value` on one header array: the
      values of the headers named `name`, in order. */
  function ValuesNamed(headers: seq<Header>, name: string): (vs: seq<string>)
    ensures forall v :: v in vs <==> exists h :: h in headers && h.name == name && h.value == v
    ensures |vs| == CountNamed(headers, name)
    decreases |headers|
  {
    if |headers| == 0 then []
    else (if headers[0].name == name then [headers[0].value] else []) + ValuesNamed(headers[1..], name)
  }

  /** The date of a response: the first `date` header (jq `.first()` raises
      when there is none), parsed. */
  function ResponseDate(lib: Libraries, headers: seq<Header>): Outcome<Instant> {
    var dates := ValuesNamed(headers, "date");
    if |dates| == 0 then Failure(StopIteration)
    else
      match lib.parseDate(dates[0])
      case None => Failure(ValueError)
      case Some(t) => Success(t)
  }

  /** What one raw Set-Cookie value contributes: the CookieError of a value
      `load` refuses (the call is outside the `try`); nothing when it loads
      no morsel; otherwise the registrable domain of its first morsel's
      `domain` attribute exactly when that morsel qualifies, and the
      exception of the requirements check when that raises. */
  function CookieVerdict(lib: Libraries, raw: string, responseDate: Instant): (r: Outcome<seq<string>>)
    ensures lib.loadCookie(raw).Failure? ==> r == Failure(lib.loadCookie(raw).error)
    ensures lib.loadCookie(raw) == Success([]) ==> r == Success([])
    ensures r.Success? ==> |r.value| <= 1
    ensures r.Success? && |r.value| == 1 ==>
      && lib.loadCookie(raw).Success? && |lib.loadCookie(raw).value| > 0
      && CheckCookieRequirements(lib, lib.loadCookie(raw).value[0], responseDate) == Success(true)
      && r.value[0] == lib.sld(lib.loadCookie(raw).value[0].domain)
    ensures lib.loadCookie(raw).Success? && |lib.loadCookie(raw).value| > 0 ==>
      var check := CheckCookieRequirements(lib, lib.loadCookie(raw).value[0], responseDate);
      && (r.Success? <==> check.Success?)
      && (check.Failure? ==> r == Failure(check.error))
      && (check == Success(true) ==> r == Success([lib.sld(lib.loadCookie(raw).value[0].domain)]))
      && (check == Success(false) ==> r == Success([]))
  {
    match lib.loadCookie(raw)
    case Failure(e) => Failure(e)
    case Success(morsels) =>
      if |morsels| == 0 then Success([])
      else
        match CheckCookieRequirements(lib, morsels[0], responseDate)
        case Failure(e) => Failure(e)
        case Success(qualifies) => Success(if qualifies then [lib.sld(morsels[0].domain)] else [])
  }

  /** The domains one selected response array contributes. */
  function ResponseTrackerDomains(lib: Libraries, headers: seq<Header>): Outcome<seq<string>> {
    match ResponseDate(lib, headers)
    case Failure(e) => Failure(e)
    case Success(date) => FlatMap(ValuesNamed(headers, "set-cookie"), raw => CookieVerdict(lib, raw, date))
  }

  /** The tracker-cookie domains as `compute_tracker_cookie_domains` builds
      them: the domain list of every selected response array in turn, then
      `list(set(domains))`, whose order Python leaves unspecified. */
  function TrackerCookieDomains(lib: Libraries, log: seq<Entry>): Outcome<set<string>> {
    match FlatMap(Selections(log, true, "set-cookie"), hs => ResponseTrackerDomains(lib, hs))
    case Failure(e) => Failure(e)
    case Success(ds) => Success(set d | d in ds)
  }

  /** The inner loop of `compute_tracker_cookie_domains` on one selected
      response array: its date, then each of its Set-Cookie values in turn. */
  method ResponseCookieDomains(lib: Libraries, headers: seq<Header>) returns (r: Outcome<seq<string>>)
    ensures r == ResponseTrackerDomains(lib, headers)
  {
    var responseDate := ResponseDate(lib, headers);
    if responseDate.Failure? {
      return Failure(responseDate.error);
    }
    var date := responseDate.value;
    var rawCookies := ValuesNamed(headers, "set-cookie");
    var perCookie := raw => CookieVerdict(lib, raw, date);
    var domains: seq<string> := [];
    for j := 0 to |rawCookies|
      invariant FlatMap(rawCookies[..j], perCookie) == Success(domains)
    {
      FlatMapStep(rawCookies, perCookie, j);
      ghost var verdict := CookieVerdict(lib, rawCookies[j], date);
      assert perCookie(rawCookies[j]) == verdict;
      var loaded := lib.loadCookie(rawCookies[j]);
      if loaded.Failure? {
        assert verdict == Failure(loaded.error);
        FlatMapFailurePersists(rawCookies, perCookie, j + 1);
        return Failure(loaded.error);
      }
      var morsels := loaded.value;
      if |morsels| == 0 {
        assert verdict == Success([]);
        assert domains + [] == domains;
        continue;
      }
      var cookie := morsels[0];
      var qualifies := CheckCookieRequirements(lib, cookie, date);
      if qualifies.Failure? {
        assert verdict == Failure(qualifies.error);
        FlatMapFailurePersists(rawCookies, perCookie, j + 1);
        return Failure(qualifies.error);
      }
      if qualifies.value {
        assert verdict == Success([lib.sld(cookie.domain)]);
        domains := domains + [lib.sld(cookie.domain)];
      } else {
        assert verdict == Success([]);
        assert domains + [] == domains;
      }
    }
    assert rawCookies[..|rawCookies|] == rawCookies;
    r := Success(domains);
  }

  /** `compute_tracker_cookie_domains`. */
  method ComputeTrackerCookieDomains(lib: Libraries, log: seq<Entry>) returns (r: Outcome<set<string>>)
    ensures r == TrackerCookieDomains(lib, log)
  {
    var responsesWithCookies := Selections(log, true, "set-cookie");
    var perResponse := hs => ResponseTrackerDomains(lib, hs);
    var domains: seq<string> := [];
    for i := 0 to |responsesWithCookies|
      invariant FlatMap(responsesWithCookies[..i], perResponse) == Success(domains)
    {
      FlatMapStep(responsesWithCookies, perResponse, i);
      var found := ResponseCookieDomains(lib, responsesWithCookies[i]);
      if found.Failure? {
        FlatMapFailurePersists(responsesWithCookies, perResponse, i + 1);
        return Failure(found.error);
      }
      domains := domains + found.value;
    }
    assert responsesWithCookies[..|responsesWithCookies|] == responsesWithCookies;
    r := Success(set d | d in domains);
  }

  /** The response of an entry sets a tracker cookie for domain `d`. */
  predicate SetsTrackerCookie(lib: Libraries, headers: seq<Header>, d: string) {
    && ResponseDate(lib, headers).Success?
    && exists raw :: raw in ValuesNamed(headers, "set-cookie") &&
         CookieVerdict(lib, raw, ResponseDate(lib, headers).value) == Success([d])
  }

  /** When the pass succeeds, its domains are exactly those for which some
      entry's response sets a qualifying cookie (the repeated selection of
      an array changes nothing); it succeeds exactly when every response
      with a set-cookie header has a readable date and no cookie check
      raises. */
  lemma TrackerCookieDomainsMembers(lib: Libraries, log: seq<Entry>)
    ensures TrackerCookieDomains(lib, log).Success? <==>
      forall e :: e in log && CountNamed(e.response.headers, "set-cookie") > 0 ==>
        ResponseTrackerDomains(lib, e.response.headers).Success?
    ensures TrackerCookieDomains(lib, log).Success? ==>
      forall d :: d in TrackerCookieDomains(lib, log).value <==>
        exists e :: e in log && SetsTrackerCookie(lib, e.response.headers, d)
  {
    var sels := Selections(log, true, "set-cookie");
    var f := hs => ResponseTrackerDomains(lib, hs);
    TrackerCookieDomainsSucceed(lib, log);
    if FlatMap(sels, f).Success? {
      forall d
        ensures d in FlatMap(sels, f).value <==> exists e :: e in log && SetsTrackerCookie(lib, e.response.headers, d)
      {
        TrackerDomainMember(lib, log, d);
      }
    }
  }

  /** A qualifying first morsel of a Set-Cookie value in a dated response
      puts the registrable domain of its `domain` attribute among the
      tracker-cookie domains, whenever the pass succeeds. */
  lemma QualifyingCookieFound(lib: Libraries, log: seq<Entry>, e: Entry, raw: string)
    requires e in log && raw in ValuesNamed(e.response.headers, "set-cookie")
    requires ResponseDate(lib, e.response.headers).Success?
    requires lib.loadCookie(raw).Success? && |lib.loadCookie(raw).value| > 0
    requires CheckCookieRequirements(lib, lib.loadCookie(raw).value[0], ResponseDate(lib, e.response.headers).value) == Success(true)
    requires TrackerCookieDomains(lib, log).Success?
    ensures lib.sld(lib.loadCookie(raw).value[0].domain) in TrackerCookieDomains(lib, log).value
  {
    TrackerCookieDomainsMembers(lib, log);
    assert SetsTrackerCookie(lib, e.response.headers, lib.sld(lib.loadCookie(raw).value[0].domain));
  }

  /** The search succeeds exactly when every response with a `set-cookie`
      header has its domains computed. */
  lemma TrackerCookieDomainsSucceed(lib: Libraries, log: seq<Entry>)
    ensures FlatMap(Selections(log, true, "set-cookie"), hs => ResponseTrackerDomains(lib, hs)).Success? <==>
      forall e :: e in log && CountNamed(e.response.headers, "set-cookie") > 0 ==>
        ResponseTrackerDomains(lib, e.response.headers).Success?
  {
    var sels := Selections(log, true, "set-cookie");
    var f := hs => ResponseTrackerDomains(lib, hs);
    FlatMapMembers(sels, f);
    ResponseSelections(log);
    if forall e :: e in log && CountNamed(e.response.headers, "set-cookie") > 0 ==>
        ResponseTrackerDomains(lib, e.response.headers).Success? {
      forall hs | hs in sels
        ensures f(hs).Success?
      {
        var e :| e in log && hs == e.response.headers && CountNamed(e.response.headers, "set-cookie") > 0;
      }
    }
    if FlatMap(sels, f).Success? {
      forall e | e in log && CountNamed(e.response.headers, "set-cookie") > 0
        ensures ResponseTrackerDomains(lib, e.response.headers).Success?
      {
        assert e.response.headers in sels;
        assert f(e.response.headers).Success?;
      }
    }
  }

  /** The header arrays jq selects for `set-cookie` are those of the
      responses with such a header. */
  lemma ResponseSelections(log: seq<Entry>)
    ensures forall hs :: hs in Selections(log, true, "set-cookie") <==>
      exists e :: e in log && hs == e.response.headers && CountNamed(e.response.headers, "set-cookie") > 0
  {
    SelectionsMembers(log, true, "set-cookie");
    assert forall e :: HeadersOf(e, true) == e.response.headers;
  }

  /** One domain is found exactly when some response sets a tracker cookie
      for it. */
  lemma TrackerDomainMember(lib: Libraries, log: seq<Entry>, d: string)
    requires FlatMap(Selections(log, true, "set-cookie"), hs => ResponseTrackerDomains(lib, hs)).Success?
    ensures d in FlatMap(Selections(log, true, "set-cookie"), hs => ResponseTrackerDomains(lib, hs)).value <==>
      exists e :: e in log && SetsTrackerCookie(lib, e.response.headers, d)
  {
    var sels := Selections(log, true, "set-cookie");
    var f := hs => ResponseTrackerDomains(lib, hs);
    FlatMapMembers(sels, f);
    ResponseSelections(log);
    if d in FlatMap(sels, f).value {
      var hs :| hs in sels && f(hs).Success? && d in f(hs).value;
      var e :| e in log && hs == e.response.headers && CountNamed(e.response.headers, "set-cookie") > 0;
      ResponseMembers(lib, e.response.headers, d);
    }
    if exists e :: e in log && SetsTrackerCookie(lib, e.response.headers, d) {
      var e :| e in log && SetsTrackerCookie(lib, e.response.headers, d);
      var raw :| raw in ValuesNamed(e.response.headers, "set-cookie") &&
        CookieVerdict(lib, raw, ResponseDate(lib, e.response.headers).value) == Success([d]);
      assert CountNamed(e.response.headers, "set-cookie") > 0;
      assert e.response.headers in sels;
      ResponseMembers(lib, e.response.headers, d);
    }
  }

  /** Within one response: the domains are those of its qualifying cookies. */
  lemma ResponseMembers(lib: Libraries, headers: seq<Header>, d: string)
    requires ResponseTrackerDomains(lib, headers).Success?
    ensures d in ResponseTrackerDomains(lib, headers).value <==> SetsTrackerCookie(lib, headers, d)
  {
    var date := ResponseDate(lib, headers).value;
    var raws := ValuesNamed(headers, "set-cookie");
    var g := raw => CookieVerdict(lib, raw, date);
    FlatMapSuccess(raws, g);
    if d in ResponseTrackerDomains(lib, headers).value {
      var i :| 0 <= i < |raws| && g(raws[i]).Success? && d in g(raws[i]).value;
      assert raws[i] in raws && CookieVerdict(lib, raws[i], date) == Success([d]);
    }
    if SetsTrackerCookie(lib, headers, d) {
      var raw :| raw in raws && CookieVerdict(lib, raw, date) == Success([d]);
      var i :| 0 <= i < |raws| && raws[i] == raw;
      assert g(raws[i]).Success? && d in g(raws[i]).value;
    }
  }

  /** `compute_third_party_entities`: the distinct entity names of the
      third-party domains, sorted; never more names than domains. */
  function ComputeThirdPartyEntities(domainMap: DomainMap, thirdPartyDomains: seq<string>): (entities: seq<string>)
    ensures StrictlySorted(entities)
    ensures forall x :: x in entities <==> exists d :: d in thirdPartyDomains && GetEntityName(domainMap, d) == x
    ensures |entities| <= |thirdPartyDomains|
  {
    var names := seq(|thirdPartyDomains|, i requires 0 <= i < |thirdPartyDomains| => GetEntityName(domainMap, thirdPartyDomains[i]));
    assert forall x :: x in names <==> exists d :: d in thirdPartyDomains && GetEntityName(domainMap, d) == x by {
      forall x
        ensures x in names <==> exists d :: d in thirdPartyDomains && GetEntityName(domainMap, d) == x
      {
        if exists d :: d in thirdPartyDomains && GetEntityName(domainMap, d) == x {
          var d :| d in thirdPartyDomains && GetEntityName(domainMap, d) == x;
          var i :| 0 <= i < |thirdPartyDomains| && thirdPartyDomains[i] == d;
          assert names[i] == x;
        }
      }
    }
    SortedDistinct(names)
  }

  /** The row `compute_requests` builds for one entry. */
  function RequestRowOf(lib: Libraries, domainMap: DomainMap, firstParty: string, e: Entry): (row: RequestRow)
    ensures row.urlFirst128Char <= e.request.url
    ensures |row.urlFirst128Char| == if |e.request.url| < 128 then |e.request.url| else 128
    ensures row.urlDomain == UrlToDomain(lib, e.request.url)
    ensures row.isThirdParty <==> row.urlDomain != firstParty
    ensures row.setHttpCookies <==> exists h :: h in e.response.headers && h.name == "set-cookie"
    ensures row.entityName == GetEntityName(domainMap, row.urlDomain)
  {
    var url := e.request.url;
    var domain := UrlToDomain(lib, url);
    RequestRow(
      UrlFirst128Char(url),
      domain,
      domain != firstParty,
      |ValuesNamed(e.response.headers, "set-cookie")| > 0,
      GetEntityName(domainMap, domain))
  }

  /** `compute_requests`: one row per entry, in log order. */
  method ComputeRequests(lib: Libraries, domainMap: DomainMap, log: seq<Entry>, firstParty: string) returns (rows: seq<RequestRow>)
    ensures |rows| == |log|
    ensures forall i :: 0 <= i < |log| ==> rows[i] == RequestRowOf(lib, domainMap, firstParty, log[i])
  {
    rows := [];
    for i := 0 to |log|
      invariant |rows| == i
      invariant forall k :: 0 <= k < i ==> rows[k] == RequestRowOf(lib, domainMap, firstParty, log[k])
    {
      var entry := log[i];
      var url := entry.request.url;
      var domain := UrlToDomain(lib, url);
      var row := RequestRow(
        UrlFirst128Char(url),
        domain,
        domain != firstParty,
        |ValuesNamed(entry.response.headers, "set-cookie")| > 0,
        GetEntityName(domainMap, domain));
      rows := rows + [row];
    }
  }

  /** The report of one log. */
  datatype Report = Report(
    numReqs: nat,
    numRequestsWCookies: nat,
    numResponsesWCookies: nat,
    thirdPartyDomains: seq<string>,
    trackerCookieDomains: set<string>,
    thirdPartyEntities: seq<string>,
    requests: seq<RequestRow>)

  /** `compute_results`: the report, which fails exactly when the
      tracker-cookie pass raises; its entities never outnumber its
      third-party domains and it has one row per request. */
  method ComputeResults(lib: Libraries, log: seq<Entry>, domainMap: DomainMap, firstParty: string) returns (r: Outcome<Report>)
    ensures r.Success? <==> TrackerCookieDomains(lib, log).Success?
    ensures r.Failure? ==> r == Failure(TrackerCookieDomains(lib, log).error)
    ensures r.Success? ==>
      && r.value.numReqs == |log|
      && r.value.numRequestsWCookies == NamedHeaderTotal(log, false, "cookie")
      && r.value.numResponsesWCookies == NamedHeaderTotal(log, true, "set-cookie")
      && r.value.thirdPartyDomains == ComputeThirdPartyDomains(lib, log, firstParty)
      && r.value.trackerCookieDomains == TrackerCookieDomains(lib, log).value
      && r.value.thirdPartyEntities == ComputeThirdPartyEntities(domainMap, r.value.thirdPartyDomains)
      && |r.value.thirdPartyEntities| <= |r.value.thirdPartyDomains|
      && |r.value.requests| == |log|
      && forall i :: 0 <= i < |log| ==> r.value.requests[i] == RequestRowOf(lib, domainMap, firstParty, log[i])
  {
    var numReqs := ComputeNumRequests(log);
    var numRequestsWCookies := ComputeNumWithCookiesRequest(log);
    var numResponsesWCookies := ComputeNumWithCookiesResponse(log);
    var thirdPartyDomains := ComputeThirdPartyDomains(lib, log, firstParty);
    var trackerCookieDomains := ComputeTrackerCookieDomains(lib, log);
    if trackerCookieDomains.Failure? {
      return Failure(trackerCookieDomains.error);
    }
    var thirdPartyEntities := ComputeThirdPartyEntities(domainMap, thirdPartyDomains);
    var requests := ComputeRequests(lib, domainMap, log, firstParty);
    r := Success(Report(numReqs, numRequestsWCookies, numResponsesWCookies, thirdPartyDomains,
                        trackerCookieDomains.value, thirdPartyEntities, requests));
  }
}
