/** The recorded-traffic analyser of ass1/robin/s1031986.py for the site
    `apotheekenhuid.nl`: request URLs, request and cookie counts, third
    parties, tracker-cookie domains, third-party entities and one row per
    request, each built by a loop over the entries of a HAR log.

    The libraries it calls are parameters: `tld.get_fld`, `dateutil.parser.parse`
    and the clock read by `datetime.now(timezone.utc)`. */
module RobinAnalysis {
  import opened Base
  import opened Text
  import opened Har
  import opened Numerals

  /** The first party, written into `get_third_parties` and `get_request`. */
  const FirstParty: string := "apotheekenhuid.nl"

  datatype Libraries = Libraries(
    fld: string -> string,                  // tld.get_fld
    parseDate: string -> Option<Instant>,   // dateutil.parser.parse, None where it raises ValueError
    nowSeconds: int)                        // datetime.now(timezone.utc), in seconds since the epoch

  /** The current time: an aware datetime. */
  function Now(lib: Libraries): Instant {
    Instant(lib.nowSeconds, true)
  }

  // ---------------------------------------------------------------------
  // URLs and counts

  /** The request URLs of the entries, as a set. */
  function UrlsOf(log: seq<Entry>): set<string>
    decreases |log|
  {
    if |log| == 0 then {}
    else UrlsOf(log[..|log| - 1]) + {log[|log| - 1].request.url}
  }

  /** A URL is in the set exactly when some entry requests it. */
  lemma {:induction false} UrlsOfMembers(log: seq<Entry>)
    ensures forall u :: u in UrlsOf(log) <==> exists k :: 0 <= k < |log| && log[k].request.url == u
    decreases |log|
  {
    if |log| > 0 {
      var front := log[..|log| - 1];
      UrlsOfMembers(front);
      assert forall k :: 0 <= k < |log| - 1 ==> front[k] == log[k];
    }
  }

  /** There are at most as many distinct URLs as entries. */
  lemma {:induction false} UrlsOfBound(log: seq<Entry>)
    ensures |UrlsOf(log)| <= |log|
    decreases |log|
  {
    if |log| > 0 {
      UrlsOfBound(log[..|log| - 1]);
    }
  }

  /** `get_urls_from_entries`: the set of request URLs, filled by `add`. */
  method GetUrlsFromEntries(log: seq<Entry>) returns (urls: set<string>)
    ensures urls == UrlsOf(log)
  {
    urls := {};
    for i := 0 to |log|
      invariant urls == UrlsOf(log[..i])
    {
      assert log[..i + 1][..i] == log[..i];
      urls := urls + {log[i].request.url};
    }
    assert log[..|log|] == log;
  }

  /** `get_number_of_reqs`: one request per entry, never fewer than the
      distinct request URLs. */
  function GetNumberOfReqs(log: seq<Entry>): (n: nat)
    ensures n == |log|
    ensures |UrlsOf(log)| <= n
  {
    UrlsOfBound(log);
    |log|
  }

  /** The cookie list of the request or of the response of an entry. */
  function CookiesOf(e: Entry, ofResponse: bool): seq<HarCookie> {
    if ofResponse then e.response.cookies else e.request.cookies
  }

  /** The number of entries whose request (or response) cookie list is
      empty. */
  function EmptyCookieEntries(log: seq<Entry>, ofResponse: bool): (n: nat)
    ensures n <= |log|
    ensures n == 0 <==> forall k :: 0 <= k < |log| ==> CookiesOf(log[k], ofResponse) != []
    ensures n == |log| <==> forall k :: 0 <= k < |log| ==> CookiesOf(log[k], ofResponse) == []
    decreases |log|
  {
    if |log| == 0 then 0
    else
      var front := log[..|log| - 1];
      assert forall k :: 0 <= k < |log| - 1 ==> front[k] == log[k];
      EmptyCookieEntries(front, ofResponse) + (if CookiesOf(log[|log| - 1], ofResponse) == [] then 1 else 0)
  }

  /** The counting loop shared by the two cookie counts. */
  method CountEmptyCookieLists(log: seq<Entry>, ofResponse: bool) returns (count: nat)
    ensures count == EmptyCookieEntries(log, ofResponse)
  {
    count := 0;
    for i := 0 to |log|
      invariant count == EmptyCookieEntries(log[..i], ofResponse)
    {
      assert log[..i + 1][..i] == log[..i];
      if CookiesOf(log[i], ofResponse) == [] {
        count := count + 1;
      }
    }
    assert log[..|log|] == log;
  }

  /** `get_number_of_reqs_with_cookies`: despite its name, the number of
      entries whose request carries no cookie. */
  method GetNumberOfReqsWithCookies(log: seq<Entry>) returns (count: nat)
    ensures count == EmptyCookieEntries(log, false)
    ensures count <= GetNumberOfReqs(log)
  {
    count := CountEmptyCookieLists(log, false);
  }

  /** `get_number_of_resp_with_cookes`: the number of entries whose
      response carries no cookie. */
  method GetNumberOfRespWithCookies(log: seq<Entry>) returns (count: nat)
    ensures count == EmptyCookieEntries(log, true)
    ensures count <= GetNumberOfReqs(log)
  {
    count := CountEmptyCookieLists(log, true);
  }

  // ---------------------------------------------------------------------
  // Third parties

  /** The first-level domains of the request URLs other than the first
      party. */
  function ThirdParties(lib: Libraries, log: seq<Entry>): (tp: set<string>)
    ensures FirstParty !in tp
    decreases |log|
  {
    if |log| == 0 then {}
    else
      var d := lib.fld(log[|log| - 1].request.url);
      ThirdParties(lib, log[..|log| - 1]) + (if d != FirstParty then {d} else {})
  }

  /** A domain is a third party exactly when it is not the first party and
      some request URL of the log has it as its first-level domain. */
  lemma {:induction false} ThirdPartiesMembers(lib: Libraries, log: seq<Entry>)
    ensures forall d :: d in ThirdParties(lib, log) <==>
      d != FirstParty && exists k :: 0 <= k < |log| && lib.fld(log[k].request.url) == d
    decreases |log|
  {
    if |log| > 0 {
      var front := log[..|log| - 1];
      ThirdPartiesMembers(lib, front);
      assert forall k :: 0 <= k < |log| - 1 ==> front[k] == log[k];
    }
  }

  /** There are at most as many third parties as entries. */
  lemma {:induction false} ThirdPartiesBound(lib: Libraries, log: seq<Entry>)
    ensures |ThirdParties(lib, log)| <= |log|
    decreases |log|
  {
    if |log| > 0 {
      ThirdPartiesBound(lib, log[..|log| - 1]);
    }
  }

  /** `get_third_parties`. */
  method GetThirdParties(lib: Libraries, log: seq<Entry>) returns (thirdParties: set<string>)
    ensures thirdParties == ThirdParties(lib, log)
  {
    thirdParties := {};
    for i := 0 to |log|
      invariant thirdParties == ThirdParties(lib, log[..i])
    {
      assert log[..i + 1][..i] == log[..i];
      var urlDomain := lib.fld(log[i].request.url);
      if urlDomain != FirstParty {
        thirdParties := thirdParties + {urlDomain};
      }
    }
    assert log[..|log|] == log;
  }

  // ---------------------------------------------------------------------
  // Max-Age and expires attributes

  /** The index of the first part containing `key`, as the loops with
      `break` find it. */
  function FirstContaining(parts: seq<string>, key: string): (r: Option<nat>)
    ensures r.Some? ==> r.value < |parts| && Contains(parts[r.value], key)
    ensures forall k :: 0 <= k < |parts| && (r.None? || k < r.value) ==> !Contains(parts[k], key)
    decreases |parts|
  {
    if |parts| == 0 then None
    else if Contains(parts[0], key) then Some(0)
    else
      match FirstContaining(parts[1..], key)
      case None => None
      case Some(k) => Some(k + 1)
  }

  /** A part that does not contain the key, put after the others, does not
      change which part is found first. */
  lemma FirstContainingAppend(parts: seq<string>, extra: string, key: string)
    requires !Contains(extra, key)
    ensures FirstContaining(parts + [extra], key) == FirstContaining(parts, key)
  {
    var all := parts + [extra];
    var r := FirstContaining(all, key);
    var s := FirstContaining(parts, key);
    if s.Some? {
      assert all[s.value] == parts[s.value];
    }
    if r.Some? {
      assert r.value < |parts|;
      assert all[r.value] == parts[r.value];
    }
  }

  /** `part.split('=')[1].strip()`: the text after the first `=`, up to a
      second `=`, stripped; IndexError when the part has no `=`. */
  function AttributeValue(part: string): (r: Outcome<string>)
    ensures r.Failure? <==> '=' !in part
    ensures r.Failure? ==> r.error == IndexError
    ensures r.Success? ==> '=' !in r.value && forall c :: c in r.value ==> c in part
  {
    SplitSingle(part, '=');
    var fields := Split(part, '=');
    if |fields| < 2 then Failure(IndexError)
    else
      assert forall c :: c in fields[1] ==> c in part by {
        JoinSplit(part, '=');
        JoinContainsPieces(fields, '=', 1);
      }
      Success(Strip(fields[1]))
  }

  /** Every piece of a join occurs in it. */
  lemma {:induction false} JoinContainsPieces(parts: seq<string>, sep: char, i: nat)
    requires i < |parts|
    ensures forall c :: c in parts[i] ==> c in Join(parts, sep)
    decreases |parts|
  {
    if |parts| > 1 {
      if i > 0 {
        JoinContainsPieces(parts[1..], sep, i - 1);
      }
      assert Join(parts, sep) == parts[0] + [sep] + Join(parts[1..], sep);
    }
  }

  /** An attribute written `name=value` yields its stripped value. */
  lemma AttributeValueOf(name: string, value: string)
    requires '=' !in name && '=' !in value
    ensures AttributeValue(name + "=" + value) == Success(Strip(value))
  {
    SplitPair(name, value, '=');
  }

  /** The stripped value of the first part containing `key`; `None` when
      no part contains it. */
  function AttributeOfFirst(parts: seq<string>, key: string): Outcome<Option<string>> {
    match FirstContaining(parts, key)
    case None => Success(None)
    case Some(k) =>
      match AttributeValue(parts[k])
      case Failure(e) => Failure(e)
      case Success(v) => Success(Some(v))
  }

  /** An attribute `name=value` whose name mentions `key` (such as the
      ` Max-Age` that `split(';')` leaves after `id=1; Max-Age=...`), after
      parts that do not mention `key`, is the one whose stripped value is
      read, whatever follows it. */
  lemma AttributeOfFirstIs(front: seq<string>, name: string, key: string, value: string, rest: seq<string>)
    requires forall k :: 0 <= k < |front| ==> !Contains(front[k], key)
    requires Contains(name, key)
    requires '=' !in name && '=' !in value
    ensures AttributeOfFirst(front + [name + "=" + value] + rest, key) == Success(Some(Strip(value)))
  {
    var parts := front + [name + "=" + value] + rest;
    var k := |front|;
    assert parts[k] == name + "=" + value;
    ContainsIffOccurs(name, key);
    var j :| OccursAt(name, key, j);
    assert parts[k][j..j + |key|] == name[j..j + |key|];
    assert OccursAt(parts[k], key, j);
    ContainsIffOccurs(parts[k], key);
    assert forall i :: 0 <= i < k ==> parts[i] == front[i];
    assert FirstContaining(parts, key) == Some(k);
    AttributeValueOf(name, value);
  }

  /** A part that does not mention `key`, put after the others, does not
      change the attribute read. */
  lemma AttributeOfFirstAppend(parts: seq<string>, extra: string, key: string)
    requires !Contains(extra, key)
    ensures AttributeOfFirst(parts + [extra], key) == AttributeOfFirst(parts, key)
  {
    FirstContainingAppend(parts, extra, key);
    var m := FirstContaining(parts, key);
    if m.Some? {
      assert (parts + [extra])[m.value] == parts[m.value];
    }
  }

  /** `is_max_age_60_or_more_days`: `int()` of the value of the first part
      containing `Max-Age` (case-sensitive) is at least 60 days in seconds;
      false when there is no such part. */
  function MaxAgeVerdict(parts: seq<string>): Outcome<bool> {
    MaxAgeOfAttribute(AttributeOfFirst(parts, "Max-Age"))
  }

  /** The max-age test on the value found (or the exception raised) by the
      search. */
  function MaxAgeOfAttribute(found: Outcome<Option<string>>): Outcome<bool> {
    match found
    case Failure(e) => Failure(e)
    case Success(None) => Success(false)
    case Success(Some(text)) => MaxAgeOfNumber(ParseInt(text))
  }

  /** `int(max_age) >= 60*60*24*60`, where `int()` raises ValueError on text
      it cannot read. */
  function MaxAgeOfNumber(parsed: Option<int>): Outcome<bool> {
    match parsed
    case None => Failure(ValueError)
    case Some(maxAge) => Success(maxAge >= SixtyDaysInSeconds)
  }

  /** `is_max_age_60_or_more_days`, with its search loop. */
  method IsMaxAge60OrMoreDays(parts: seq<string>) returns (r: Outcome<bool>)
    ensures r == MaxAgeVerdict(parts)
  {
    var maxAge: Option<string> := None;
    var i := 0;
    while i < |parts|
      invariant 0 <= i <= |parts|
      invariant forall k :: 0 <= k < i ==> !Contains(parts[k], "Max-Age")
      invariant maxAge.None?
    {
      if Contains(parts[i], "Max-Age") {
        assert FirstContaining(parts, "Max-Age") == Some(i);
        var found := AttributeValue(parts[i]);
        if found.Failure? {
          return Failure(found.error);
        }
        maxAge := Some(found.value);
        assert AttributeOfFirst(parts, "Max-Age") == Success(maxAge);
        break;
      }
      i := i + 1;
    }
    if maxAge.None? {
      assert FirstContaining(parts, "Max-Age").None?;
      return Success(false);
    }
    assert AttributeOfFirst(parts, "Max-Age") == Success(maxAge);
    var value := ParseInt(maxAge.value);
    if value.None? {
      return Failure(ValueError);
    }
    r := Success(value.value >= SixtyDaysInSeconds);
  }

  /** `timedelta.days`: whole days, rounded down. */
  function WholeDays(seconds: int): (days: int)
    ensures days * 86400 <= seconds < (days + 1) * 86400
  {
    seconds / 86400
  }

  /** Sixty whole days are exactly sixty days' worth of seconds. */
  lemma WholeDaysThreshold(seconds: int)
    ensures WholeDays(seconds) >= 60 <==> seconds >= SixtyDaysInSeconds
  {
  }

  /** `is_expire_date_60_or_more_days`: the value of the first part
      containing `expires` (case-sensitive), parsed, lies at least 60 whole
      days after now; false when there is no such part or the parser raises
      ValueError. A missing `=` raises IndexError before the `try`, and a
      naive date raises TypeError, which is not caught. */
  function ExpiresVerdict(lib: Libraries, parts: seq<string>): Outcome<bool> {
    ExpiresOfAttribute(lib, AttributeOfFirst(parts, "expires"))
  }

  /** The expires test on the value found (or the exception raised) by the
      search. */
  function ExpiresOfAttribute(lib: Libraries, found: Outcome<Option<string>>): Outcome<bool> {
    match found
    case Failure(e) => Failure(e)
    case Success(None) => Success(false)
    case Success(Some(text)) =>
      match lib.parseDate(text)
      case None => Success(false)
      case Some(expiresDate) =>
        match SecondsBetween(expiresDate, Now(lib))
        case Failure(e) => Failure(e)
        case Success(delta) => Success(WholeDays(delta) >= 60)
  }

  /** `is_expire_date_60_or_more_days`, with its search loop. */
  method IsExpireDate60OrMoreDays(lib: Libraries, parts: seq<string>) returns (r: Outcome<bool>)
    ensures r == ExpiresVerdict(lib, parts)
  {
    var expires: Option<string> := None;
    var i := 0;
    while i < |parts|
      invariant 0 <= i <= |parts|
      invariant forall k :: 0 <= k < i ==> !Contains(parts[k], "expires")
      invariant expires.None?
    {
      if Contains(parts[i], "expires") {
        assert FirstContaining(parts, "expires") == Some(i);
        var found := AttributeValue(parts[i]);
        if found.Failure? {
          return Failure(found.error);
        }
        expires := Some(found.value);
        assert AttributeOfFirst(parts, "expires") == Success(expires);
        break;
      }
      i := i + 1;
    }
    if expires.None? {
      assert FirstContaining(parts, "expires").None?;
      return Success(false);
    }
    assert AttributeOfFirst(parts, "expires") == Success(expires);
    var expiresDate := lib.parseDate(expires.value);
    if expiresDate.None? {
      return Success(false);
    }
    var delta := SecondsBetween(expiresDate.value, Now(lib));
    if delta.Failure? {
      return Failure(delta.error);
    }
    var daysUntilExpires := WholeDays(delta.value);
    r := Success(daysUntilExpires >= 60);
  }

  /** Without a part containing `Max-Age`, the max-age test is false: a
      lower-case `max-age` attribute is not seen. */
  lemma MaxAgeAbsent(parts: seq<string>)
    requires forall k :: 0 <= k < |parts| ==> !Contains(parts[k], "Max-Age")
    ensures MaxAgeVerdict(parts) == Success(false)
  {
    assert FirstContaining(parts, "Max-Age").None?;
  }

  /** The max-age test is decided by the first part containing `Max-Age`:
      an attribute `<name>=<value>` whose name mentions `Max-Age` (as the
      ` Max-Age` of `id=1; Max-Age=...` does), after parts that do not
      mention it, qualifies iff `int(value)` is at least 60 days in seconds
      and raises ValueError when `int()` cannot read it, whatever follows. */
  lemma MaxAgeFirstAttributeDecides(front: seq<string>, name: string, value: string, rest: seq<string>)
    requires forall k :: 0 <= k < |front| ==> !Contains(front[k], "Max-Age")
    requires Contains(name, "Max-Age") && '=' !in name && '=' !in value
    ensures MaxAgeVerdict(front + [name + "=" + value] + rest) ==
      match ParseInt(value)
      case None => Failure(ValueError)
      case Some(n) => Success(n >= SixtyDaysInSeconds)
  {
    AttributeOfFirstIs(front, name, "Max-Age", value, rest);
    MaxAgeOfValue(value);
  }

  /** An ordinary header `id=1; Max-Age=<n>`: the ` Max-Age` part that
      `split(';')` leaves is found, and `int()` reads `n` back, so the
      header passes the max-age test iff `n` is at least 60 days in
      seconds. */
  lemma OrdinaryMaxAgeHeader(n: int)
    ensures MaxAgeVerdict(Split("id=1;" + (" Max-Age=" + Decimal(n)), ';')) == Success(n >= SixtyDaysInSeconds)
  {
    var value := Decimal(n);
    assert forall k :: 0 <= k < |value| ==> value[k] == '-' || IsDigit(value[k]);
    assert ';' !in value && '=' !in value;
    var attribute := " Max-Age=" + value;
    assert attribute == " Max-Age" + "=" + value;
    CookieWithAttribute(attribute);
    NotContainsWithoutFirstChar("id=1", "Max-Age");
    assert Contains(" Max-Age", "Max-Age") by {
      assert StartsWith(" Max-Age"[1..], "Max-Age");
    }
    assert ["id=1"] + [" Max-Age" + "=" + value] + [] == ["id=1", attribute];
    MaxAgeFirstAttributeDecides(["id=1"], " Max-Age", value, []);
    ParseIntDecimal(n);
  }

  /** The max-age test on a value found reads it as `int()` reads the
      unstripped value. */
  lemma MaxAgeOfValue(value: string)
    ensures MaxAgeOfAttribute(Success(Some(Strip(value)))) == MaxAgeOfNumber(ParseInt(value))
  {
    ParseIntStrip(value);
  }

  /** `int()` strips its argument itself. */
  lemma ParseIntStrip(s: string)
    ensures ParseInt(Strip(s)) == ParseInt(s)
  {
    StripIdempotent(s);
  }

  /** Without a part containing `expires`, the expires test is false; an
      upper-case `Expires` attribute is not seen. */
  lemma ExpiresAbsent(lib: Libraries, parts: seq<string>)
    requires forall k :: 0 <= k < |parts| ==> !Contains(parts[k], "expires")
    ensures ExpiresVerdict(lib, parts) == Success(false)
  {
    assert FirstContaining(parts, "expires").None?;
  }

  /** A header `id=1; Expires=<date>`, with the attribute capitalised as
      servers usually send it, passes the expires test by: the search only
      looks for lower-case `expires`. Any date without `;` that does not
      itself spell `expires` will do, `Thu, 22 Oct 2026 07:28:00 GMT`
      among them. */
  lemma CapitalExpiresNotSeen(lib: Libraries, date: string)
    requires ';' !in date && !Contains(date, "expires")
    ensures ExpiresVerdict(lib, Split("id=1;" + (" Expires=" + date), ';')) == Success(false)
  {
    var attribute := " Expires=" + date;
    CookieWithAttribute(attribute);
    CapitalExpiresAttribute(date);
    ExpiresAbsentAfterId(lib, attribute);
  }

  /** The parts `id=1` and an attribute without `expires` fail the expires
      test. */
  lemma ExpiresAbsentAfterId(lib: Libraries, attribute: string)
    requires !Contains(attribute, "expires")
    ensures ExpiresVerdict(lib, ["id=1", attribute]) == Success(false)
  {
    NotContainsWithoutFirstChar("id=1", "expires");
    ExpiresAbsent(lib, ["id=1", attribute]);
  }

  /** `split(';')` of a cookie `id=1` followed by one attribute. */
  lemma CookieWithAttribute(attribute: string)
    requires ';' !in attribute
    ensures Split("id=1;" + attribute, ';') == ["id=1", attribute]
  {
    assert "id=1" + [';'] + attribute == "id=1;" + attribute;
    SplitSingle("id=1", ';');
    SplitAppend("id=1", ';', attribute);
  }

  /** The attribute ` Expires=<date>` holds no lower-case `expires` when
      the date does not: its `e` before the date is followed by `s`. */
  lemma CapitalExpiresAttribute(date: string)
    requires !Contains(date, "expires")
    ensures !Contains(" Expires=" + date, "expires")
  {
    var tail := "s=" + date;
    NotContainsConcat("s=", date, "expires");
    assert !StartsWith("e" + tail, "expires") by {
      assert ("e" + tail)[1] == 's';
    }
    assert ("e" + tail)[1..] == tail;
    assert !Contains("e" + tail, "expires");
    assert " Expires=" + date == " Expir" + ("e" + tail);
    NotContainsConcat(" Expir", "e" + tail, "expires");
  }

  /** An attribute `<name>=<value>` whose name mentions `expires` (as the
      ` expires` of `id=1; expires=...` does), after parts that do not
      mention it: an unparsable date is not a tracker, an aware one
      qualifies iff it lies at least 5184000 seconds after now, and a naive
      one raises TypeError, whatever follows. */
  lemma ExpiresFirstAttributeDecides(lib: Libraries, front: seq<string>, name: string, value: string, rest: seq<string>)
    requires forall k :: 0 <= k < |front| ==> !Contains(front[k], "expires")
    requires Contains(name, "expires") && '=' !in name && '=' !in value
    ensures lib.parseDate(Strip(value)).None? ==>
      ExpiresVerdict(lib, front + [name + "=" + value] + rest) == Success(false)
    ensures lib.parseDate(Strip(value)).Some? && lib.parseDate(Strip(value)).value.aware ==>
      ExpiresVerdict(lib, front + [name + "=" + value] + rest) ==
        Success(lib.parseDate(Strip(value)).value.seconds - lib.nowSeconds >= SixtyDaysInSeconds)
    ensures lib.parseDate(Strip(value)).Some? && !lib.parseDate(Strip(value)).value.aware ==>
      ExpiresVerdict(lib, front + [name + "=" + value] + rest) == Failure(TypeError)
  {
    AttributeOfFirstIs(front, name, "expires", value, rest);
    if lib.parseDate(Strip(value)).Some? {
      WholeDaysThreshold(lib.parseDate(Strip(value)).value.seconds - lib.nowSeconds);
    }
  }

  // ---------------------------------------------------------------------
  // Tracker-cookie domains

  /** What one response header contributes to `get_tracker_cookie_domains`:
      for a header named `set-cookie` in any case, the first-level domain of
      the request URL when the max-age or the expires test holds (both are
      evaluated, so either may raise); nothing for other headers. */
  function HeaderVerdict(lib: Libraries, url: string, h: Header): (r: Outcome<seq<string>>)
    ensures Lower(h.name) != "set-cookie" ==> r == Success([])
    ensures r.Success? ==> r.value == [] || r.value == [lib.fld(url)]
  {
    if Lower(h.name) != "set-cookie" then Success([])
    else
      var parts := Split(h.value, ';');
      match MaxAgeVerdict(parts)
      case Failure(e) => Failure(e)
      case Success(maxDays) =>
        match ExpiresVerdict(lib, parts)
        case Failure(e) => Failure(e)
        case Success(expireDate) => Success(if maxDays || expireDate then [lib.fld(url)] else [])
  }

  /** A response header sets a tracker cookie in the sense of the analyser. */
  predicate HeaderQualifies(lib: Libraries, h: Header) {
    && Lower(h.name) == "set-cookie"
    && var parts := Split(h.value, ';');
       && MaxAgeVerdict(parts).Success?
       && ExpiresVerdict(lib, parts).Success?
       && (MaxAgeVerdict(parts).value || ExpiresVerdict(lib, parts).value)
  }

  /** A header contributes a domain exactly when it qualifies, and then
      the domain of the request URL. */
  lemma HeaderVerdictQualifies(lib: Libraries, url: string, h: Header)
    requires HeaderVerdict(lib, url, h).Success?
    ensures HeaderVerdict(lib, url, h).value == (if HeaderQualifies(lib, h) then [lib.fld(url)] else [])
  {
  }

  /** A cookie attribute that mentions neither `Max-Age` nor `expires` (such
      as `SameSite=None`) does not change the verdict on a Set-Cookie
      header: samesite is not examined. */
  lemma SameSiteIgnored(lib: Libraries, url: string, name: string, value: string, attribute: string)
    requires ';' !in attribute
    requires !Contains(attribute, "Max-Age") && !Contains(attribute, "expires")
    ensures HeaderVerdict(lib, url, Header(name, value + ";" + attribute)) == HeaderVerdict(lib, url, Header(name, value))
  {
    var parts := Split(value, ';');
    SplitAppend(value, ';', attribute);
    assert Split(value + ";" + attribute, ';') == parts + [attribute];
    AttributeOfFirstAppend(parts, attribute, "Max-Age");
    AttributeOfFirstAppend(parts, attribute, "expires");
    assert MaxAgeVerdict(parts + [attribute]) == MaxAgeVerdict(parts);
    assert ExpiresVerdict(lib, parts + [attribute]) == ExpiresVerdict(lib, parts);
  }

  /** The domains the response headers of one entry contribute. */
  function EntryTrackerDomains(lib: Libraries, e: Entry): Outcome<seq<string>> {
    FlatMap(e.response.headers, h => HeaderVerdict(lib, e.request.url, h))
  }

  /** The tracker-cookie domains `get_tracker_cookie_domains` collects: the
      entries in turn, each header in turn, the first exception escaping. */
  function TrackerCookieDomains(lib: Libraries, log: seq<Entry>): Outcome<set<string>> {
    match FlatMap(log, e => EntryTrackerDomains(lib, e))
    case Failure(e) => Failure(e)
    case Success(ds) => Success(set d | d in ds)
  }

  /** The inner loop of `get_tracker_cookie_domains`, over the response
      headers of one entry. */
  method EntryTrackerCookieDomains(lib: Libraries, entry: Entry) returns (r: Outcome<seq<string>>)
    ensures r == EntryTrackerDomains(lib, entry)
  {
    var headers := entry.response.headers;
    var perHeader := h => HeaderVerdict(lib, entry.request.url, h);
    var domains: seq<string> := [];
    for j := 0 to |headers|
      invariant FlatMap(headers[..j], perHeader) == Success(domains)
    {
      FlatMapStep(headers, perHeader, j);
      var header := headers[j];
      ghost var verdict := HeaderVerdict(lib, entry.request.url, header);
      assert perHeader(header) == verdict;
      if Lower(header.name) == "set-cookie" {
        var cookieParts := Split(header.value, ';');
        var maxDaysBool := IsMaxAge60OrMoreDays(cookieParts);
        if maxDaysBool.Failure? {
          FlatMapFailurePersists(headers, perHeader, j + 1);
          return Failure(maxDaysBool.error);
        }
        var expireDateBool := IsExpireDate60OrMoreDays(lib, cookieParts);
        if expireDateBool.Failure? {
          FlatMapFailurePersists(headers, perHeader, j + 1);
          return Failure(expireDateBool.error);
        }
        if maxDaysBool.value || expireDateBool.value {
          domains := domains + [lib.fld(entry.request.url)];
        } else {
          assert domains + [] == domains;
        }
      } else {
        assert domains + [] == domains;
      }
    }
    assert headers[..|headers|] == headers;
    r := Success(domains);
  }

  /** `get_tracker_cookie_domains`. */
  method GetTrackerCookieDomains(lib: Libraries, log: seq<Entry>) returns (r: Outcome<set<string>>)
    ensures r == TrackerCookieDomains(lib, log)
  {
    var perEntry := e => EntryTrackerDomains(lib, e);
    var trackerCookieDomains: set<string> := {};
    ghost var collected: seq<string> := [];
    for i := 0 to |log|
      invariant FlatMap(log[..i], perEntry) == Success(collected)
      invariant trackerCookieDomains == set d | d in collected
    {
      FlatMapStep(log, perEntry, i);
      var found := EntryTrackerCookieDomains(lib, log[i]);
      if found.Failure? {
        FlatMapFailurePersists(log, perEntry, i + 1);
        return Failure(found.error);
      }
      trackerCookieDomains := trackerCookieDomains + set d | d in found.value;
      collected := collected + found.value;
    }
    assert log[..|log|] == log;
    r := Success(trackerCookieDomains);
  }

  /** When the pass succeeds, its domains are exactly the first-level
      domains of the request URLs of entries with a qualifying Set-Cookie
      header; it succeeds exactly when no Set-Cookie header raises. */
  lemma TrackerCookieDomainsMembers(lib: Libraries, log: seq<Entry>)
    ensures TrackerCookieDomains(lib, log).Success? <==>
      forall i, j :: 0 <= i < |log| && 0 <= j < |log[i].response.headers| ==>
        HeaderVerdict(lib, log[i].request.url, log[i].response.headers[j]).Success?
    ensures TrackerCookieDomains(lib, log).Success? ==>
      forall d :: d in TrackerCookieDomains(lib, log).value <==>
        exists i, j :: 0 <= i < |log| && 0 <= j < |log[i].response.headers| &&
          HeaderQualifies(lib, log[i].response.headers[j]) && d == lib.fld(log[i].request.url)
  {
    var f := e => EntryTrackerDomains(lib, e);
    FlatMapSuccess(log, f);
    forall i | 0 <= i < |log| {
      EntrySucceeds(lib, log[i]);
    }
    if FlatMap(log, f).Success? {
      forall d
        ensures d in FlatMap(log, f).value <==>
          exists i, j :: 0 <= i < |log| && 0 <= j < |log[i].response.headers| &&
            HeaderQualifies(lib, log[i].response.headers[j]) && d == lib.fld(log[i].request.url)
      {
        forall i | 0 <= i < |log| {
          EntryMember(lib, log[i], d);
        }
      }
    }
  }

  /** One entry's domains are computed exactly when every one of its
      response headers gets a verdict. */
  lemma EntrySucceeds(lib: Libraries, e: Entry)
    ensures EntryTrackerDomains(lib, e).Success? <==>
      forall j :: 0 <= j < |e.response.headers| ==> HeaderVerdict(lib, e.request.url, e.response.headers[j]).Success?
  {
    FlatMapSuccess(e.response.headers, h => HeaderVerdict(lib, e.request.url, h));
  }

  /** One entry yields `d` exactly when one of its headers qualifies and
      `d` is the domain of its request URL. */
  lemma EntryMember(lib: Libraries, e: Entry, d: string)
    ensures EntryTrackerDomains(lib, e).Success? ==>
      (d in EntryTrackerDomains(lib, e).value <==>
        exists j :: 0 <= j < |e.response.headers| && HeaderQualifies(lib, e.response.headers[j]) && d == lib.fld(e.request.url))
  {
    var g := h => HeaderVerdict(lib, e.request.url, h);
    var hs := e.response.headers;
    FlatMapSuccess(hs, g);
    if FlatMap(hs, g).Success? {
      if d in FlatMap(hs, g).value {
        var j :| 0 <= j < |hs| && g(hs[j]).Success? && d in g(hs[j]).value;
        HeaderVerdictQualifies(lib, e.request.url, hs[j]);
      }
      if exists j :: 0 <= j < |hs| && HeaderQualifies(lib, hs[j]) && d == lib.fld(e.request.url) {
        var j :| 0 <= j < |hs| && HeaderQualifies(lib, hs[j]) && d == lib.fld(e.request.url);
        HeaderVerdictQualifies(lib, e.request.url, hs[j]);
        assert d in g(hs[j]).value;
      }
    }
  }


  // ---------------------------------------------------------------------
  // Entities and rows

  /** `entity_name.replace('\\"', '"')`: each backslash-quote becomes a
      quote. */
  function Unescape(name: string): string {
    ReplaceAll(name, "\\\"", "\"")
  }

  /** A name without a backslash is left as it is. */
  lemma UnescapePlainName(name: string)
    requires '\\' !in name
    ensures Unescape(name) == name
  {
    NotContainsWithoutFirstChar(name, "\\\"");
    ReplaceAbsent(name, "\\\"", "\"");
  }

  /** The domain map names domain `d` as `x`, once unescaped. */
  predicate NamedAs(domainMap: DomainMap, d: string, x: string) {
    d in domainMap && domainMap[d].entityName.Some? && x == Unescape(domainMap[d].entityName.value)
  }

  /** Every mapped domain of `ds` has an `entityName`. */
  predicate AllNamed(domainMap: DomainMap, ds: set<string>) {
    forall d :: d in ds && d in domainMap ==> domainMap[d].entityName.Some?
  }

  /** The unescaped entity names the map gives the domains of `ds`. */
  function EntityNames(domainMap: DomainMap, ds: set<string>): set<string> {
    set d | d in ds && d in domainMap && domainMap[d].entityName.Some? :: Unescape(domainMap[d].entityName.value)
  }

  /** The name one domain contributes, if any. */
  function NameOf(domainMap: DomainMap, d: string): (names: set<string>)
    ensures |names| <= 1
  {
    if d in domainMap && domainMap[d].entityName.Some? then {Unescape(domainMap[d].entityName.value)} else {}
  }

  /** The names of `ds` are those the map gives a domain of `ds`. */
  lemma EntityNamesMembers(domainMap: DomainMap, ds: set<string>)
    ensures forall x :: x in EntityNames(domainMap, ds) <==> exists d :: d in ds && NamedAs(domainMap, d, x)
  {
  }

  /** Adding a domain adds at most its own name. */
  lemma EntityNamesAdd(domainMap: DomainMap, ds: set<string>, d: string)
    ensures EntityNames(domainMap, ds + {d}) == EntityNames(domainMap, ds) + NameOf(domainMap, d)
  {
  }

  /** There are no more names than domains: distinct domains may share an
      entity, never the other way round. */
  lemma {:induction false} EntityNamesBound(domainMap: DomainMap, ds: set<string>)
    ensures |EntityNames(domainMap, ds)| <= |ds|
    decreases |ds|
  {
    if ds != {} {
      var d :| d in ds;
      var rest := ds - {d};
      EntityNamesBound(domainMap, rest);
      EntityNamesAdd(domainMap, rest, d);
      assert rest + {d} == ds;
    }
  }

  /** `get_third_party_entities`: the unescaped entity names of the mapped
      third parties; an unmapped third party contributes nothing, and a
      mapped one without `entityName` raises KeyError. */
  method GetThirdPartyEntities(lib: Libraries, domainMap: DomainMap, log: seq<Entry>) returns (r: Outcome<set<string>>)
    ensures r.Success? <==> forall d :: d in ThirdParties(lib, log) && d in domainMap ==> domainMap[d].entityName.Some?
    ensures r.Failure? ==> r.error == KeyError
    ensures r.Success? ==> forall x :: x in r.value <==> exists d :: d in ThirdParties(lib, log) && NamedAs(domainMap, d, x)
    ensures r.Success? ==> |r.value| <= |ThirdParties(lib, log)|
  {
    var thirdPartyDomains := GetThirdParties(lib, log);
    r := EntitiesOf(domainMap, thirdPartyDomains);
    EntityNamesMembers(domainMap, thirdPartyDomains);
    EntityNamesBound(domainMap, thirdPartyDomains);
  }

  /** The loop of `get_third_party_entities` over the set of third parties,
      in whatever order the set yields them. */
  method EntitiesOf(domainMap: DomainMap, thirdPartyDomains: set<string>) returns (r: Outcome<set<string>>)
    ensures r.Success? <==> AllNamed(domainMap, thirdPartyDomains)
    ensures r.Failure? ==> r.error == KeyError
    ensures r.Success? ==> r.value == EntityNames(domainMap, thirdPartyDomains)
  {
    var thirdPartyEntities: set<string> := {};
    var remaining := thirdPartyDomains;
    ghost var done: set<string> := {};
    while remaining != {}
      invariant remaining !! done && remaining + done == thirdPartyDomains
      invariant AllNamed(domainMap, done)
      invariant thirdPartyEntities == EntityNames(domainMap, done)
      decreases remaining
    {
      var domain :| domain in remaining;
      remaining := remaining - {domain};
      var added := AddEntityOf(domainMap, domain, thirdPartyEntities);
      if added.Failure? {
        assert !AllNamed(domainMap, thirdPartyDomains) by {
          assert domain in thirdPartyDomains;
        }
        return Failure(KeyError);
      }
      thirdPartyEntities := added.value;
      EntityNamesAdd(domainMap, done, domain);
      done := done + {domain};
    }
    assert done == thirdPartyDomains;
    r := Success(thirdPartyEntities);
  }

  /** The body of that loop for one domain: a mapped domain adds its
      unescaped name, or raises KeyError without `entityName`. */
  method AddEntityOf(domainMap: DomainMap, domain: string, thirdPartyEntities: set<string>) returns (r: Outcome<set<string>>)
    ensures r.Success? <==> AllNamed(domainMap, {domain})
    ensures r.Failure? ==> r.error == KeyError
    ensures r.Success? ==> r.value == thirdPartyEntities + NameOf(domainMap, domain)
  {
    if domain in domainMap {
      if domainMap[domain].entityName.None? {
        return Failure(KeyError);
      }
      var entityName := Unescape(domainMap[domain].entityName.value);
      return Success(thirdPartyEntities + {entityName});
    }
    return Success(thirdPartyEntities);
  }

  /** The row `get_request` builds for one entry; KeyError when the domain
      is mapped but has no `entityName`. */
  function RequestRowOf(lib: Libraries, domainMap: DomainMap, e: Entry): (r: Outcome<RequestRow>)
    ensures r.Failure? <==> lib.fld(e.request.url) in domainMap && domainMap[lib.fld(e.request.url)].entityName.None?
    ensures r.Failure? ==> r.error == KeyError
    ensures r.Success? ==>
      && r.value.urlFirst128Char <= e.request.url
      && |r.value.urlFirst128Char| == (if |e.request.url| < 128 then |e.request.url| else 128)
      && r.value.urlDomain == lib.fld(e.request.url)
      && (r.value.isThirdParty <==> r.value.urlDomain in ThirdParties(lib, [e]))
      && (r.value.setHttpCookies <==> exists h :: h in e.response.headers && Lower(h.name) == "set-cookie" && h.value != "")
      && (r.value.urlDomain !in domainMap ==> r.value.entityName == "unknown")
      && (r.value.urlDomain in domainMap ==> NamedAs(domainMap, r.value.urlDomain, r.value.entityName))
  {
    var url := e.request.url;
    var domain := lib.fld(url);
    var setHttpCookies := exists h :: h in e.response.headers && Lower(h.name) == "set-cookie" && h.value != "";
    if domain in domainMap && domainMap[domain].entityName.None? then Failure(KeyError)
    else
      var entityName := if domain in domainMap then Unescape(domainMap[domain].entityName.value) else "unknown";
      assert [e][0] == e;
      Success(RequestRow(UrlFirst128Char(url), domain, domain != FirstParty, setHttpCookies, entityName))
  }

  /** `get_request`: one row per entry, in log order, until an entry's
      mapped domain lacks `entityName`. */
  method GetRequest(lib: Libraries, domainMap: DomainMap, log: seq<Entry>) returns (r: Outcome<seq<RequestRow>>)
    ensures r.Success? <==> forall i :: 0 <= i < |log| ==> RequestRowOf(lib, domainMap, log[i]).Success?
    ensures r.Failure? ==> r.error == KeyError
    ensures r.Success? ==> |r.value| == |log|
    ensures r.Success? ==> forall i :: 0 <= i < |log| ==> r.value[i] == RequestRowOf(lib, domainMap, log[i]).value
  {
    var requestList: seq<RequestRow> := [];
    for i := 0 to |log|
      invariant |requestList| == i
      invariant forall k :: 0 <= k < i ==> RequestRowOf(lib, domainMap, log[k]).Success?
      invariant forall k :: 0 <= k < i ==> requestList[k] == RequestRowOf(lib, domainMap, log[k]).value
    {
      var entry := log[i];
      var url := entry.request.url;
      var domain := lib.fld(url);
      var isThirdParty := domain != FirstParty;
      var setHttpCookies := HasSetCookieHeader(entry.response.headers);
      var entityName: string;
      if domain in domainMap {
        if domainMap[domain].entityName.None? {
          return Failure(KeyError);
        }
        entityName := Unescape(domainMap[domain].entityName.value);
      } else {
        entityName := "unknown";
      }
      requestList := requestList + [RequestRow(UrlFirst128Char(url), domain, isThirdParty, setHttpCookies, entityName)];
    }
    r := Success(requestList);
  }

  /** The inner loop of `get_request`: some header named `set-cookie`, in
      any case, has a non-empty value. */
  method HasSetCookieHeader(headers: seq<Header>) returns (setHttpCookies: bool)
    ensures setHttpCookies <==> exists h :: h in headers && Lower(h.name) == "set-cookie" && h.value != ""
  {
    setHttpCookies := false;
    for j := 0 to |headers|
      invariant setHttpCookies <==> exists k :: 0 <= k < j && Lower(headers[k].name) == "set-cookie" && headers[k].value != ""
    {
      if Lower(headers[j].name) == "set-cookie" && headers[j].value != "" {
        setHttpCookies := true;
      }
    }
    assert setHttpCookies <==> exists k :: 0 <= k < |headers| && Lower(headers[k].name) == "set-cookie" && headers[k].value != "";
  }

  /** Every row flagged third party names a domain of `get_third_parties`. */
  lemma ThirdPartyRowsAreThirdParties(lib: Libraries, domainMap: DomainMap, log: seq<Entry>, i: nat)
    requires i < |log| && RequestRowOf(lib, domainMap, log[i]).Success?
    ensures RequestRowOf(lib, domainMap, log[i]).value.isThirdParty <==>
      RequestRowOf(lib, domainMap, log[i]).value.urlDomain in ThirdParties(lib, log)
  {
    ThirdPartiesMembers(lib, log);
  }
}
