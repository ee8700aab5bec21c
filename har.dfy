/** The recorded network traffic both analysers read (the entries of a HAR
    log), the domain map they attribute domains with, the parsed date-times
    they compare, and the per-request row they both emit. */
module Har {
  import opened Base
  import opened Text

  datatype Header = Header(name: string, value: string)

  /** A member of `request.cookies` or `response.cookies` in a HAR entry. */
  datatype HarCookie = HarCookie(name: string, value: string)

  datatype Request = Request(url: string, headers: seq<Header>, cookies: seq<HarCookie>)

  datatype Response = Response(headers: seq<Header>, cookies: seq<HarCookie>)

  /** One element of `log.entries`. */
  datatype Entry = Entry(request: Request, response: Response)

  /** The value `domain_map.json` holds for one domain; only its
      `entityName` member is read, and it may be missing. */
  datatype DomainRecord = DomainRecord(entityName: Option<string>)

  type DomainMap = map<string, DomainRecord>

  /** A parsed `datetime`: whole seconds since the epoch, and whether it
      carries a time zone (aware) or not (naive). */
  datatype Instant = Instant(seconds: int, aware: bool)

  /** The 60-day threshold both analysers use, in seconds. */
  const SixtyDaysInSeconds: int := 60 * 3600 * 24

  /** `later - earlier` on two datetimes, in seconds; Python raises
      TypeError when one of them is naive and the other aware. */
  function SecondsBetween(later: Instant, earlier: Instant): (r: Outcome<int>)
    ensures r.Success? <==> later.aware == earlier.aware
    ensures r.Success? ==> earlier.seconds + r.value == later.seconds
    ensures r.Failure? ==> r.error == TypeError
  {
    if later.aware == earlier.aware then Success(later.seconds - earlier.seconds)
    else Failure(TypeError)
  }

  /** One element of the `requests` list of a report. */
  datatype RequestRow = RequestRow(
    urlFirst128Char: string,
    urlDomain: string,
    isThirdParty: bool,
    setHttpCookies: bool,
    entityName: string)

  /** The first 128 characters of a URL, as `url[:128]`. */
  function UrlFirst128Char(url: string): (r: string)
    ensures r <= url
    ensures |r| == if |url| < 128 then |url| else 128
  {
    Take(url, 128)
  }
}
