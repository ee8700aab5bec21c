# tracking-crawler, modelled in Dafny

A Dafny model of the logic of a small web-privacy measurement project. A
crawler visits sites with and without blocking trackers, records page-load
times and consent-button failures, and two analysers read the recorded
traffic of a site (a HAR log) and report cookies, third parties and tracker
cookies. Everything that talks to a browser, the network, the clock or the
file system is abstracted; the decisions in between are modelled as the
code makes them, and their properties are proved.

The project has these modules, one per file:

- `Base` (base.dfy): `Option`, `Result`, the Python exceptions the code lets
  escape, and `FlatMap`, a loop that concatenates per-element results and
  stops at the first exception.
- `Text` (text.dfy): Python's `str.strip`, `str.lower`, `in` on strings,
  `str.replace`, `str.split`/`join`, `s[:n]`, `int()` and
  `read_lines_of_file`.
- `Numerals` (numerals.dfy): decimal renderings of integers, read back by
  `int()`.
- `Sorting` (sorting.dfy): Python's string order and `sorted(set(...))`.
- `Har` (har.dfy): HAR entries, the domain map, parsed date-times as whole
  seconds, and the per-request row both analysers emit.
- `BramAnalysis` (bram_analysis.dfy): the analyser in ass1/bram/s1015194.py.
  jq queries are modelled by their results, with the multiplicity jq gives
  them. `urlparse(...).netloc`, `publicsuffix2.get_sld`,
  `http.cookies.BaseCookie.load` and `email.utils.parsedate_to_datetime` are
  parameters.
- `RobinAnalysis` (robin_analysis.dfy): the analyser in
  ass1/robin/s1031986.py, with its loops. `tld.get_fld`,
  `dateutil.parser.parse` and `datetime.now` are parameters.
- `Statistics` (statistics.dfy): the `StatisticsCrawler` class, whose
  `stats` dictionary is a field updated in place, and `accept_block`.
- `BlockList` (blocklist.dfy): `load_block_list` over the parsed contents of
  `services.json`.
- `Crawler` (crawler.dfy): the consent-button search, the stepwise scroll,
  the abort/continue decision for tracker requests, one crawl with its
  catch-all, and the loop over all URLs. A page is given by what it answers
  to the consent queries; a crawl is given by what the browser reports.
- `UrlSanitizer` (url_sanitizer.dfy): `sanitize_url` of crawl.py and the
  video directories built from it.

Python exceptions that escape a function are modelled as a `Failure` of the
matching `Exception` case (`KeyError`, `IndexError`, `ValueError`,
`TypeError`, `AttributeError`, `StopIteration`). A `try`/`except` that
catches them is modelled by the code that handles the failure.

Where the code and its own comments or description disagree, the model
follows the code:

- The comment at ass1/bram/s1015194.py:69 says max-age takes precedence over
  expires. The code only returns early on a long max-age: a short max-age
  falls through to the expires test. `BramAnalysis.ShortMaxAgeDoesNotBlockExpires`
  states this.
- The "with cookies" counts of ass1/bram/s1015194.py:43-52 count headers, not
  entries. jq's `select(.[].name == "cookie")` emits the header array once
  per matching header. `BramAnalysis.HeaderTotalVersusEntries` relates the
  two counts.
- The "with cookies" counts of ass1/robin/s1031986.py:25-37 count entries
  whose cookie list is empty.
- `load_block_list` keeps a domain that two services list twice (`BlockList.DuplicatesKept`).
- `read_lines_of_file` is written twice, at crawl.py:30-35 and
  crawler_src/crawl.py:83-88, with the same body; it is modelled once, as
  `Text.ReadLinesOfFile`.

## Model

| member | source | states |
|---|---|---|
| Text.TrimStart | crawl.py:28 | the result is a suffix of the input, everything cut is whitespace, and it does not start with whitespace |
| Text.TrimEnd | crawl.py:28 | the result is a prefix of the input, everything cut is whitespace, and it does not end with whitespace |
| Text.Strip | crawl.py:28 | `str.strip()` leaves no whitespace at either end |
| Text.StripIsSlice | crawler_src/crawl.py:87 | `strip()` is the slice left after removing a whitespace prefix and a whitespace suffix |
| Text.StripIdempotent | crawl.py:28 | stripping twice is stripping once |
| Text.LowerChar | ass1/robin/s1031986.py:97 | an upper-case ASCII letter becomes its lower-case letter; other characters are kept |
| Text.Lower | ass1/robin/s1031986.py:97 | `lower()` keeps the length and lowers each character |
| Text.ContainsIffOccurs | ass1/robin/s1031986.py:57 | `sub in s` holds exactly when `sub` occurs at some position of `s` |
| Text.NotContainsWithoutFirstChar | crawl.py:28 | a string lacking the first character of a pattern does not contain it |
| Text.NotContainsConcat | ass1/robin/s1031986.py:70 | a front lacking the first character of a pattern, put before a string without the pattern, does not make it contain the pattern |
| Text.ReplaceAbsent | crawl.py:28 | `replace` of a pattern that does not occur returns the string unchanged |
| Text.DeleteKeepsCharacters | crawl.py:28 | deleting a pattern with `replace(p, "")` introduces no new characters |
| Text.ReplaceAppend | crawl.py:28 | `replace` passes over a front that cannot start the pattern |
| Text.Split | ass1/robin/s1031986.py:98 | `split(sep)` gives at least one field, none containing the separator |
| Text.JoinSplit | ass1/robin/s1031986.py:98 | joining the fields of `split(sep)` with `sep` gives back the string |
| Text.SplitJoin | ass1/robin/s1031986.py:98 | splitting a join of separator-free fields gives back the fields |
| Text.SplitAppend | ass1/robin/s1031986.py:98 | appending a separator and a separator-free field appends one field |
| Text.JoinAppend | ass1/robin/s1031986.py:98 | joining one more field appends the separator and the field |
| Text.SplitSingle | ass1/robin/s1031986.py:58 | `split('=')` has one field exactly when there is no `=`, so `[1]` raises IndexError |
| Text.SplitPair | ass1/robin/s1031986.py:58 | `name=value` without other `=` splits into `[name, value]` |
| Text.Take | ass1/robin/s1031986.py:131 | `url[:128]` is a prefix of length min(len, 128) |
| Text.WithoutUnderscores | ass1/robin/s1031986.py:62 | dropping the underscores `int()` allows between digits leaves only digits |
| Text.ReadLinesOfFile | crawl.py:30-35 | one stripped string per line, in order (the same function as crawler_src/crawl.py:83-88) |
| Numerals.Digits | ass1/robin/s1031986.py:62 | the decimal rendering of a natural number is a non-empty run of digits |
| Numerals.ParseIntDecimal | ass1/robin/s1031986.py:62 | `int()` reads every integer's decimal rendering back as that integer |
| Numerals.StripUnchanged | ass1/robin/s1031986.py:58 | stripping a string with no whitespace at either end changes nothing |
| Sorting.LessIrreflexive | ass1/bram/s1015194.py:58 | Python's string order is irreflexive |
| Sorting.LessTransitive | ass1/bram/s1015194.py:58 | Python's string order is transitive |
| Sorting.LessTotal | ass1/bram/s1015194.py:58 | two different strings are ordered one way or the other |
| Sorting.StrictlySortedIsDistinct | ass1/bram/s1015194.py:58 | a strictly sorted list holds no duplicates |
| Sorting.Insert | ass1/bram/s1015194.py:58 | inserting into a strictly sorted list keeps it strictly sorted, adds exactly the element, and grows it by at most one |
| Sorting.SortedDistinct | ass1/bram/s1015194.py:58 | `sorted(list(set(xs)))` is strictly sorted, has exactly the elements of `xs`, and is no longer than `xs` |
| Sorting.SortedUnique | ass1/bram/s1015194.py:58 | two strictly sorted lists with the same elements are equal, so the sorted output does not depend on the set's iteration order |
| Har.SecondsBetween | ass1/bram/s1015194.py:77 | subtracting two date-times gives the seconds between them, and raises TypeError when one is naive and the other aware |
| Har.UrlFirst128Char | ass1/bram/s1015194.py:132 | `url[:128]` is a prefix of the URL of length min(len, 128) |
| BramAnalysis.UrlToDomain | ass1/bram/s1015194.py:25-27 | the registrable domain (the `get_sld` parameter) of the URL's network location (the `netloc` parameter) |
| BramAnalysis.SameNetlocSameDomain | ass1/bram/s1015194.py:25-27 | URLs that share a network location get the same domain, whatever their scheme, path or query |
| BramAnalysis.EntityNameFallback | ass1/bram/s1015194.py:30-35 | `get_entityname` gives the map's `entityName` for a named domain, and `Unknown (<domain>)` otherwise; the fallback labels of two different unmapped domains differ |
| BramAnalysis.UnknownEntityExample | ass1/bram/s1015194.py:30-35 | an unmapped domain is reported as `Unknown (example-tracker.test)` |
| BramAnalysis.CountNamed | ass1/bram/s1015194.py:46 | the number of headers named exactly `name` is positive exactly when one exists |
| BramAnalysis.SelectByName | ass1/bram/s1015194.py:46 | jq's `select(.[].name == name)` emits the header array once per matching header |
| BramAnalysis.SelectionsCount | ass1/bram/s1015194.py:43-52 | the selection over the log emits as many arrays as there are matching headers in all entries |
| BramAnalysis.NamedHeaderTotalSnoc | ass1/bram/s1015194.py:43-52 | the header total of a log with one more entry adds that entry's count |
| BramAnalysis.SelectionsMembers | ass1/bram/s1015194.py:88-89 | each selected array is the header array of an entry that has a header of that name, and every such entry's array is selected |
| BramAnalysis.ComputeNumRequests | ass1/bram/s1015194.py:38-40 | the request count is the number of entries |
| BramAnalysis.ComputeNumWithCookiesRequest | ass1/bram/s1015194.py:43-46 | the count is the total number of request headers named exactly `cookie` |
| BramAnalysis.ComputeNumWithCookiesResponse | ass1/bram/s1015194.py:49-52 | the count is the total number of response headers named exactly `set-cookie` |
| BramAnalysis.HeaderTotalVersusEntries | ass1/bram/s1015194.py:43-52 | the header total is at least the number of entries with such a header, and equals it exactly when no entry has two |
| BramAnalysis.RequestDomains | ass1/bram/s1015194.py:57-59 | one domain per request URL, and exactly the domains of the request URLs |
| BramAnalysis.Without | ass1/bram/s1015194.py:58 | `filter(lambda d: d != x, xs)` keeps exactly the elements other than `x` |
| BramAnalysis.ComputeThirdPartyDomains | ass1/bram/s1015194.py:55-60 | the third-party domains are strictly sorted, never contain the first party, and contain exactly the domains of the other request URLs |
| BramAnalysis.CheckCookieRequirements | ass1/bram/s1015194.py:66-67 | a cookie whose lower-cased samesite is not `none` never qualifies |
| BramAnalysis.TrackerRule | ass1/bram/s1015194.py:63-81 | with samesite `none`, a cookie qualifies iff its max-age is at least 60 days, or its max-age is empty or readable and its expiry is at least 60 days after the response date; any exception needs samesite `none` and a non-empty max-age or expiry |
| BramAnalysis.ShortMaxAgeDoesNotBlockExpires | ass1/bram/s1015194.py:69-78 | a short but readable max-age does not stop a long expiry from qualifying |
| BramAnalysis.ValuesNamed | ass1/bram/s1015194.py:98 | the jq query for the values of the headers named `name` gives exactly those values, one per header |
| BramAnalysis.CookieVerdict | ass1/bram/s1015194.py:100-109 | a value `load` refuses raises its CookieError and one with no morsel adds nothing; otherwise only the first morsel is examined: the value adds the registrable domain of its `domain` attribute exactly when it qualifies, nothing when it does not, and raises exactly when the requirements check raises |
| BramAnalysis.QualifyingCookieFound | ass1/bram/s1015194.py:100-109 | a qualifying first morsel of a Set-Cookie value in a dated response puts its registrable domain among the tracker-cookie domains of a pass that succeeds |
| BramAnalysis.ResponseCookieDomains | ass1/bram/s1015194.py:92-109 | the loop over one response's Set-Cookie values computes that response's domains, stopping at the first exception |
| BramAnalysis.ComputeTrackerCookieDomains | ass1/bram/s1015194.py:84-111 | the loop over the selected responses computes the tracker-cookie domains, stopping at the first exception |
| BramAnalysis.TrackerCookieDomainsMembers | ass1/bram/s1015194.py:84-111 | the pass succeeds exactly when every response with a Set-Cookie header has a date and valid cookies, and then yields exactly the domains of qualifying cookies |
| BramAnalysis.TrackerCookieDomainsSucceed | ass1/bram/s1015194.py:88-95 | the pass succeeds exactly when every response with a `set-cookie` header gets its domains |
| BramAnalysis.ResponseSelections | ass1/bram/s1015194.py:88-89 | the selected arrays are exactly the response header arrays with a `set-cookie` header |
| BramAnalysis.TrackerDomainMember | ass1/bram/s1015194.py:92-111 | a domain is found exactly when some entry's response sets a qualifying cookie for it |
| BramAnalysis.ResponseMembers | ass1/bram/s1015194.py:98-109 | one response's domains are exactly those of its qualifying cookies |
| BramAnalysis.ComputeThirdPartyEntities | ass1/bram/s1015194.py:114-118 | the entities are strictly sorted, are exactly the entity names of the third-party domains, and are no more than those domains |
| BramAnalysis.RequestRowOf | ass1/bram/s1015194.py:126-139 | the row holds `url[:128]`, the URL's domain, third party iff the domain is not the first party, Set-Cookie iff a response header is named exactly `set-cookie`, and the entity name |
| BramAnalysis.ComputeRequests | ass1/bram/s1015194.py:121-141 | one row per entry, in log order |
| BramAnalysis.ComputeResults | ass1/bram/s1015194.py:144-155 | the report fails exactly when the tracker-cookie pass raises, and otherwise holds each computed part |
| RobinAnalysis.UrlsOfMembers | ass1/robin/s1031986.py:16-20 | the URL set holds exactly the request URLs |
| RobinAnalysis.UrlsOfBound | ass1/robin/s1031986.py:16-20 | there are no more distinct URLs than entries |
| RobinAnalysis.GetUrlsFromEntries | ass1/robin/s1031986.py:16-20 | the loop of `add`s builds the set of request URLs |
| RobinAnalysis.GetNumberOfReqs | ass1/robin/s1031986.py:22-23 | the request count is the number of entries, at least the number of distinct URLs |
| RobinAnalysis.EmptyCookieEntries | ass1/robin/s1031986.py:25-37 | the count of entries with an empty cookie list is zero iff every list is non-empty, and all entries iff every list is empty |
| RobinAnalysis.CountEmptyCookieLists | ass1/robin/s1031986.py:25-37 | the counting loop counts the entries whose cookie list is empty |
| RobinAnalysis.GetNumberOfReqsWithCookies | ass1/robin/s1031986.py:25-30 | counts the entries whose request cookie list is empty, at most the number of requests |
| RobinAnalysis.GetNumberOfRespWithCookies | ass1/robin/s1031986.py:32-37 | counts the entries whose response cookie list is empty, at most the number of requests |
| RobinAnalysis.ThirdParties | ass1/robin/s1031986.py:39-47 | the third parties never include `apotheekenhuid.nl` |
| RobinAnalysis.ThirdPartiesMembers | ass1/robin/s1031986.py:39-47 | a domain is a third party exactly when it is not `apotheekenhuid.nl` and is the domain of some request URL |
| RobinAnalysis.ThirdPartiesBound | ass1/robin/s1031986.py:39-47 | there are no more third parties than entries |
| RobinAnalysis.GetThirdParties | ass1/robin/s1031986.py:39-47 | the loop builds the set of third parties |
| RobinAnalysis.FirstContaining | ass1/robin/s1031986.py:56-59 | the search stops at the first part containing the key, and no earlier part contains it |
| RobinAnalysis.FirstContainingAppend | ass1/robin/s1031986.py:56-59 | appending a part that does not contain the key does not change the search |
| RobinAnalysis.AttributeValue | ass1/robin/s1031986.py:58 | `part.split('=')[1].strip()` raises IndexError exactly when the part has no `=`, and otherwise gives `=`-free text drawn from the part |
| RobinAnalysis.JoinContainsPieces | ass1/robin/s1031986.py:58 | each field of a split holds only characters of the part |
| RobinAnalysis.AttributeValueOf | ass1/robin/s1031986.py:58 | the value of `name=value` is `value` stripped |
| RobinAnalysis.AttributeOfFirstIs | ass1/robin/s1031986.py:56-59 | an attribute `<name>=<value>` whose name contains the key (such as the ` Max-Age` that `split(';')` leaves), after parts without the key, is the one read, and its value is `value` stripped, whatever follows |
| RobinAnalysis.AttributeOfFirstAppend | ass1/robin/s1031986.py:56-59 | a later part without the key does not change what is found |
| RobinAnalysis.IsMaxAge60OrMoreDays | ass1/robin/s1031986.py:54-65 | the loop with `break` computes the max-age verdict |
| RobinAnalysis.MaxAgeAbsent | ass1/robin/s1031986.py:54-61 | without a part containing `Max-Age`, the max-age test is false |
| RobinAnalysis.MaxAgeFirstAttributeDecides | ass1/robin/s1031986.py:54-65 | the first part containing `Max-Age`, spelled `<name>=<value>`, alone decides: true iff `int(value)` is at least 5184000 seconds, ValueError when `int()` cannot read it, whatever follows |
| RobinAnalysis.MaxAgeOfValue | ass1/robin/s1031986.py:62-65 | the test on a found value reads it as `int()` does |
| RobinAnalysis.OrdinaryMaxAgeHeader | ass1/robin/s1031986.py:54-65 | the header `id=1; Max-Age=<n>` passes the max-age test exactly when `n` is at least 5184000 |
| RobinAnalysis.ParseIntStrip | ass1/robin/s1031986.py:58-62 | `int()` ignores the stripping already done |
| RobinAnalysis.WholeDays | ass1/robin/s1031986.py:78 | `.days` of a time difference is the whole number of days, rounded down |
| RobinAnalysis.WholeDaysThreshold | ass1/robin/s1031986.py:78-79 | at least 60 whole days iff at least 5184000 seconds |
| RobinAnalysis.IsExpireDate60OrMoreDays | ass1/robin/s1031986.py:67-85 | the loop with `break` and the `try` compute the expires verdict |
| RobinAnalysis.ExpiresAbsent | ass1/robin/s1031986.py:67-74 | without a part containing lower-case `expires`, the expires test is false |
| RobinAnalysis.CapitalExpiresNotSeen | ass1/robin/s1031986.py:67-74 | the header `id=1; Expires=<date>`, with a capital `E`, fails the expires test (verdict false, no exception), for any date without `;` or `expires` in it |
| RobinAnalysis.ExpiresAbsentAfterId | ass1/robin/s1031986.py:67-74 | the parts `id=1` and an attribute without `expires` in it fail the expires test |
| RobinAnalysis.CapitalExpiresAttribute | ass1/robin/s1031986.py:70 | the part ` Expires=<date>` does not contain `expires` when the date does not |
| RobinAnalysis.CookieWithAttribute | ass1/robin/s1031986.py:98 | `split(';')` of `id=1;<attribute>` gives the two parts, the attribute keeping its leading space |
| RobinAnalysis.ExpiresFirstAttributeDecides | ass1/robin/s1031986.py:67-85 | the first part containing `expires`, spelled `<name>=<value>`, decides: false when the date does not parse; against the aware current time, true iff at least 60 days ahead; a naive date raises TypeError |
| RobinAnalysis.HeaderVerdict | ass1/robin/s1031986.py:96-105 | a header not named `set-cookie` in any case adds nothing; otherwise the header adds nothing or the request URL's domain |
| RobinAnalysis.HeaderVerdictQualifies | ass1/robin/s1031986.py:96-105 | a header adds the request URL's domain exactly when it is a Set-Cookie header passing the max-age or the expires test |
| RobinAnalysis.SameSiteIgnored | ass1/robin/s1031986.py:87-106 | a SameSite (or any other) attribute without `Max-Age` or `expires` does not change the verdict |
| RobinAnalysis.EntryTrackerCookieDomains | ass1/robin/s1031986.py:95-105 | the inner loop over one entry's headers computes its domains, stopping at the first exception |
| RobinAnalysis.GetTrackerCookieDomains | ass1/robin/s1031986.py:87-106 | the nested loops compute the tracker-cookie domains |
| RobinAnalysis.TrackerCookieDomainsMembers | ass1/robin/s1031986.py:87-106 | the pass succeeds exactly when every header gets a verdict, and then yields exactly the domains of request URLs whose response has a qualifying Set-Cookie header |
| RobinAnalysis.EntrySucceeds | ass1/robin/s1031986.py:95-105 | one entry's domains are computed exactly when each of its headers gets a verdict |
| RobinAnalysis.EntryMember | ass1/robin/s1031986.py:95-105 | one entry yields a domain exactly when one of its headers qualifies and the domain is that of its request URL |
| RobinAnalysis.UnescapePlainName | ass1/robin/s1031986.py:117 | a name without backslashes is kept by `replace('\\"', '"')` |
| RobinAnalysis.NameOf | ass1/robin/s1031986.py:115-118 | a domain contributes at most one entity name |
| RobinAnalysis.EntityNamesMembers | ass1/robin/s1031986.py:114-118 | the entity names are exactly the unescaped names of the mapped domains |
| RobinAnalysis.EntityNamesAdd | ass1/robin/s1031986.py:114-118 | one more domain adds exactly its own name, if it is mapped |
| RobinAnalysis.EntityNamesBound | ass1/robin/s1031986.py:114-118 | there are no more entity names than domains |
| RobinAnalysis.GetThirdPartyEntities | ass1/robin/s1031986.py:108-120 | succeeds iff every mapped third party has an `entityName` (KeyError otherwise); the result holds exactly the unescaped names of the mapped third parties, no more than there are third parties |
| RobinAnalysis.EntitiesOf | ass1/robin/s1031986.py:114-118 | the loop over the set of third parties, in any order, computes the entity names or raises KeyError |
| RobinAnalysis.AddEntityOf | ass1/robin/s1031986.py:115-118 | one step adds the domain's unescaped name when it is mapped, raises KeyError when the name is missing, and adds nothing when unmapped |
| RobinAnalysis.RequestRowOf | ass1/robin/s1031986.py:127-166 | the row holds `url[:128]`, the domain, third party iff not `apotheekenhuid.nl`, Set-Cookie iff a header named `set-cookie` in any case has a non-empty value, and the unescaped entity name or `unknown`; KeyError exactly when a mapped domain has no `entityName` |
| RobinAnalysis.GetRequest | ass1/robin/s1031986.py:123-168 | one row per entry in order, or the KeyError of the first entry whose mapped domain has no `entityName` |
| RobinAnalysis.HasSetCookieHeader | ass1/robin/s1031986.py:146-150 | the flag loop finds a header named `set-cookie` in any case with a non-empty value |
| RobinAnalysis.ThirdPartyRowsAreThirdParties | ass1/robin/s1031986.py:137-143 | a row is marked third party exactly when its domain is among `get_third_parties` of the log |
| Statistics.AcceptBlock | crawler_src/crawl.py:91-92 | the variant is `block` when blocking and `allow` otherwise |
| Statistics.InitialStats | crawler_src/crawl.py:14-20 | a fresh store has two empty sets and two lists of `n` empty lists |
| Statistics.PyIndex | crawler_src/crawl.py:28 | Python list indexing accepts indices from `-n` to `n - 1`, counting negative ones from the end |
| Statistics.AddToSet | crawler_src/crawl.py:23-24 | `add` succeeds only on the two set entries (AttributeError on a list entry, KeyError on any other name), adds the value to the named set and changes nothing else |
| Statistics.AddToSetIdempotent | crawler_src/crawl.py:23-24 | adding the same value twice leaves the store as after one add |
| Statistics.AddToSetCommutes | crawler_src/crawl.py:23-24 | two set additions give the same store in either order |
| Statistics.StatKey | crawler_src/crawl.py:28 | `name + '_' + accept_block(block)` names different entries for different names or variants |
| Statistics.AppendSample | crawler_src/crawl.py:27-28 | `update_stat` appends the value to the list of its URL index in its variant only, keeps all lengths and every other list and set; KeyError for another stat name, IndexError for an index out of range |
| Statistics.StatisticsCrawler.constructor | crawler_src/crawl.py:14-20 | the store starts as the fresh store for the number of URLs |
| Statistics.StatisticsCrawler.UpdateStatSingleSet | crawler_src/crawl.py:23-24 | the store becomes the result of the set addition, unchanged when it raises, and the exception is returned |
| Statistics.StatisticsCrawler.UpdateStat | crawler_src/crawl.py:27-28 | the store becomes the result of the append, unchanged when it raises, and the exception is returned |
| Statistics.StatisticsCrawler.GetStats | crawler_src/crawl.py:31-32 | the store as it stands, read without changing it |
| BlockList.Lookup | crawler_src/crawl.py:161 | a key is found exactly when the object has a member of that name, and its value is a member's |
| BlockList.Index | crawler_src/crawl.py:161 | indexing an object by a missing key raises KeyError, and indexing a non-object raises TypeError |
| BlockList.Iterate | crawler_src/crawl.py:161 | iterating a list gives its items; an object or string gives strings; anything else raises |
| BlockList.Items | crawler_src/crawl.py:162 | `.items()` exists only on objects, AttributeError otherwise |
| BlockList.LoadBlockList | crawler_src/crawl.py:156-168 | the nested loops compute the Email block list, stopping at the first exception |
| BlockList.ExtendFromCategory | crawler_src/crawl.py:162-166 | the loops over one category's members extend the list with the list values of its dict values |
| BlockList.ListsInAppend | crawler_src/crawl.py:164-166 | the list values of two runs of members are those of each, concatenated |
| BlockList.DuplicatesKept | crawler_src/crawl.py:164-166 | a domain listed by two different services appears twice on the block list |
| BlockList.ListsInMembers | crawler_src/crawl.py:164-166 | the domains taken from an object are exactly the items of its list-valued members |
| BlockList.DictsInMembers | crawler_src/crawl.py:162-166 | the domains taken from a category are exactly the items of list values inside its dict values |
| BlockList.OnlyEmailRead | crawler_src/crawl.py:161 | categories other than `Email` do not change the block list |
| BlockList.BlockListMembers | crawler_src/crawl.py:156-168 | the block list loads exactly when every Email entry is an object, and then holds exactly the items of list values inside their dict values |
| Crawler.AcceptWords | crawler_src/crawl.py:98-101 | one accept word per line of the word file |
| Crawler.FirstWithButton | crawler_src/crawl.py:104-111 | the search stops at the first word in file order that has a button, and no earlier word has one |
| Crawler.FirstMatchWins | crawler_src/crawl.py:104-111 | when some word has a button, a button is found, for that word or an earlier one, and every word before the one clicked has none |
| Crawler.NotFoundIffNoButton | crawler_src/crawl.py:124-127 | no button is found exactly when no word has one |
| Crawler.ConsentAt | crawler_src/crawl.py:104-111 | the first word with a button is the one clicked; the outcome is a raise when its click raises |
| Crawler.StripLine | crawler_src/crawl.py:101 | stripping a word file line drops its line break |
| Crawler.AgreeBeforeAccept | crawler_src/crawl.py:98-111 | with the words `agree` then `accept` and buttons for both, `agree` is clicked |
| Crawler.ReadAcceptWords | crawler_src/crawl.py:98-101 | the reading loop gives the stripped lines |
| Crawler.ClickFirstAcceptButton | crawler_src/crawl.py:103-111 | the loop with its flag and `break` clicks the first word with a button, at most one |
| Crawler.AcceptCookie | crawler_src/crawl.py:95-129 | the consent outcome is the first-match search over the word file; when nothing is found the URL's domain is added to `failed_to_find_accept`, otherwise the store is unchanged |
| Crawler.StepCount | crawler_src/crawl.py:135-139 | the number of steps is the ceiling of the height over 200, zero exactly when the height is not positive |
| Crawler.ScrollToBottomInMultipleSteps | crawler_src/crawl.py:132-142 | ceil(height/200) scrolls of 200, then one of 4000; the final position reaches the height and overshoots it by less than one step |
| Crawler.BlockTrackerRequests | crawler_src/crawl.py:145-153 | a request is aborted exactly when its domain is in the block list |
| Crawler.Crawl | crawler_src/crawl.py:171-238 | one crawl changes the store as the crawl effect says (the load time; then, once the wait and pre-consent screenshot succeed, the consent failure or time-out), installs the route exactly when blocking and the block list loads, and raises nothing exactly when it gets through every step |
| Crawler.RouteOnlyWhenBlocking | crawler_src/crawl.py:188-190 | without blocking every request continues; a request is aborted exactly when blocking, the block list loads and the domain is in it |
| Crawler.RunCrawler | crawler_src/crawl.py:241-247 | the catch-all keeps the crawl's changes to the store and swallows its exception |
| Crawler.ScheduleShape | crawler_src/crawl.py:263-271 | without blocking the crawls are the allow crawls in URL order; with blocking each allow crawl is followed by the block crawl of the same URL |
| Crawler.CrawlAll | crawler_src/crawl.py:250-275 | `main` runs exactly the scheduled crawls, and its store is that after all of them in order |
| Crawler.LoadTimesStep | crawler_src/crawl.py:263-271 | the crawls of one more URL record its load times and leave the others' |
| Crawler.LoadTimesAfterAll | crawler_src/crawl.py:258-271 | after all crawls, each URL's allow list holds one sample exactly when its allow crawl got to the load, and its block list one exactly when blocking was asked for and its block crawl got there |
| Crawler.CrawlEffectOnSamples | crawler_src/crawl.py:194-200 | one crawl appends its load time, when it gets that far, to its own list only |
| Crawler.CrawlEffectOnSets | crawler_src/crawl.py:199-213 | one crawl adds its domain to `failed_to_find_accept` exactly when it reaches the consent step and finds no button, and to `time_out` exactly when it reaches it and the click raises |
| Crawler.PreConsentFailureKeepsSample | crawler_src/crawl.py:199-206 | a crawl whose wait or pre-consent screenshot raises keeps its load time and records no consent outcome |
| UrlSanitizer.KeepAllowed | crawl.py:28 | `re.sub(r"[^\w\s-]", '', s)` keeps exactly the allowed characters and changes a string of allowed characters not at all |
| UrlSanitizer.RemoveSchemeAndWww | crawl.py:28 | the three deletions introduce no new characters |
| UrlSanitizer.Sanitize | crawl.py:26-28 | the name holds only word characters, whitespace and `-` drawn from the URL, no `/`, and no whitespace at either end |
| UrlSanitizer.SlashReplaceIsNoOp | crawl.py:28 | the final `.replace("/", "_")` never changes anything |
| UrlSanitizer.NothingToRemove | crawl.py:28 | a string of allowed characters holds none of the deleted prefixes |
| UrlSanitizer.SanitizeIdempotent | crawl.py:26-28 | sanitizing a sanitized name changes nothing |
| UrlSanitizer.HttpIgnored | crawl.py:28 | an `http://` prefix is deleted whole |
| UrlSanitizer.HttpsIgnored | crawl.py:28 | an `https://` prefix is deleted whole |
| UrlSanitizer.WwwIgnored | crawl.py:28 | a `www.` prefix is deleted whole |
| UrlSanitizer.SchemeAndWwwIgnored | crawl.py:28 | a URL with `http://`, `https://`, `www.` or a scheme followed by `www.` sanitizes like its remainder |
| UrlSanitizer.DirsOfNames | crawl.py:42-72 | the deny and accept directories of a name share `videos/<name>/`, never coincide, and give back the name |
| UrlSanitizer.VideoDirs | crawl.py:42-72 | both directories of a URL lie under `videos/<sanitized>/` and differ only in the last segment; two URLs share a directory exactly when their sanitized names agree |

## Left out

- The browser session: launch, `goto`, waits, screenshots, HAR and video recording, the video rename, and the cookie read (crawler_src/crawl.py:172-238 apart from the decisions modelled; crawl.py:38-91 apart from the video directories). A crawl is given by what the browser reports: whether the page loads, whether the wait and screenshot before the consent step succeed, and whether the steps after it succeed.
- `page.query_selector` raising: only the click is modelled as raising; a query either finds a button or not.
- `tld.get_fld`, `publicsuffix2.get_sld` and `urlparse(...).netloc` are parameters and never raise; their failures on hosts without a public suffix are not modelled.
- `http.cookies.BaseCookie.load`: the morsels a Set-Cookie value loads, or the CookieError it raises, are a parameter; which cookie names it refuses and how it parses attributes are not modelled. Robin's `parse_set_cookie_header` (`SimpleCookie`) is unused by that analyser's logic and left out.
- Date parsing (`email.utils.parsedate_to_datetime`, `dateutil.parser.parse`) is a parameter returning whole seconds or nothing; an OverflowError on an extreme date and sub-second precision are not modelled.
- `datetime.now` is a parameter: one instant, in whole seconds, for the whole pass; the clock's advance between header tests is not modelled.
- Page-load times are `real` values taken from the browser; floating-point rounding of `time.time()` differences is not modelled.
- JSON file reading and writing: `load_json_file`, `write_results`, `generate_json_results`, `export_to_json`, `json.load` of `services.json` and `domain_map.json`. crawl.py's `main` calls `export_to_json(debug)` (crawler_src/crawl.py:275), but `debug` is local to `parse_arguments` (line 62), so `main` raises NameError after the crawl loop and `stats.json` is never written; `Crawler.CrawlAll` ends at the `get_stats` call before it.
- Statistics.StatisticsCrawler.GetStats: Python returns the dictionary itself, so the caller holds an alias of the store; the model returns its value, which the caller only reads.
- `parse_arguments`, logging, `print` and the progress bar of both crawlers.
- The analysers' `main` functions, which only pick file names.
- crawl.py `main`, which overwrites its site list with a fixed debugging URL and calls the two session functions.
- The unused `count` in `get_tracker_cookie_domains` (ass1/robin/s1031986.py:93, 102).
- BramAnalysis.ComputeTrackerCookieDomains: the result is a set; the order of `list(set(domains))` is left unspecified by Python and is not modelled.
- BlockList.Items: an object given with a repeated key is listed member by member by `Items` and `Iterate`, where `json.load` keeps one member per key (the last, as `BlockList.Lookup` does); the block-list properties are proved for every object and agree with `json.load` on objects whose keys are distinct, which is all that it returns.
- Text.Lower: ASCII only; Python also lowers non-ASCII letters.
- UrlSanitizer.IsWordChar: ASCII only; Python's `\w` also matches non-ASCII letters and digits.
- Text.ParseInt: base-10 ASCII digits only; Python's `int()` also accepts other Unicode decimal digits.
