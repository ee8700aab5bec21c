/** `sanitize_url` of crawl.py, which turns a URL into a directory name,
    and the two video directories built from it. */
module UrlSanitizer {
  import opened Text

  /** The regular-expression class `\w`, on ASCII: letters, digits and `_`. */
  predicate IsWordChar(c: char) {
    ('a' <= c <= 'z') || ('A' <= c <= 'Z') || ('0' <= c <= '9') || c == '_'
  }

  /** The characters `[\w\s-]` keeps. */
  predicate Allowed(c: char) {
    IsWordChar(c) || IsSpace(c) || c == '-'
  }

  /** `re.sub(r"[^\w\s-]", '', s)`: every character outside the class is
      deleted, the others kept in order. */
  function KeepAllowed(s: string): (r: string)
    ensures |r| <= |s|
    ensures forall c :: c in r <==> c in s && Allowed(c)
    ensures (forall c :: c in s ==> Allowed(c)) ==> r == s
    decreases |s|
  {
    if |s| == 0 then ""
    else (if Allowed(s[0]) then [s[0]] else []) + KeepAllowed(s[1..])
  }

  /** The three deletions done before the filter, in the order of the
      source: `http://`, then `https://`, then `www.`. */
  function RemoveSchemeAndWww(url: string): (r: string)
    ensures forall c :: c in r ==> c in url
  {
    var noHttp := ReplaceAll(url, "http://", "");
    var noHttps := ReplaceAll(noHttp, "https://", "");
    DeleteKeepsCharacters(url, "http://");
    DeleteKeepsCharacters(noHttp, "https://");
    DeleteKeepsCharacters(noHttps, "www.");
    ReplaceAll(noHttps, "www.", "")
  }

  /** `sanitize_url`: a name made only of word characters, whitespace and
      `-`, with no whitespace at either end, every character drawn from the
      URL; in particular it holds no `/`. */
  function Sanitize(url: string): (name: string)
    ensures forall c :: c in name ==> Allowed(c) && c in url
    ensures '/' !in name
    ensures name == [] || (!IsSpace(name[0]) && !IsSpace(name[|name| - 1]))
  {
    var stripped := Strip(KeepAllowed(RemoveSchemeAndWww(url)));
    NotContainsWithoutFirstChar(stripped, "/");
    ReplaceAbsent(stripped, "/", "_");
    ReplaceAll(stripped, "/", "_")
  }

  /** The closing `.replace("/", "_")` never changes anything: the filter
      has already deleted every `/`. */
  lemma SlashReplaceIsNoOp(url: string)
    ensures var stripped := Strip(KeepAllowed(RemoveSchemeAndWww(url)));
      Sanitize(url) == stripped && '/' !in stripped
  {
    var kept := KeepAllowed(RemoveSchemeAndWww(url));
    assert !Allowed('/');
    assert '/' !in kept;
    var stripped := Strip(kept);
    assert '/' !in stripped;
    NotContainsWithoutFirstChar(stripped, "/");
    ReplaceAbsent(stripped, "/", "_");
  }

  /** A string lacking any one character of `sub` does not contain `sub`. */
  lemma NotContainsWithoutSomeChar(s: string, sub: string, i: nat)
    requires i < |sub| && sub[i] !in s
    ensures !Contains(s, sub)
  {
    ContainsIffOccurs(s, sub);
  }

  /** A string of allowed characters holds none of the deleted prefixes. */
  lemma NothingToRemove(name: string)
    requires forall c :: c in name ==> Allowed(c)
    ensures RemoveSchemeAndWww(name) == name
  {
    assert !Allowed(':') && !Allowed('.');
    NotContainsWithoutSomeChar(name, "http://", 4);
    ReplaceAbsent(name, "http://", "");
    NotContainsWithoutSomeChar(name, "https://", 5);
    ReplaceAbsent(name, "https://", "");
    NotContainsWithoutSomeChar(name, "www.", 3);
    ReplaceAbsent(name, "www.", "");
  }

  /** Sanitizing a sanitized name changes nothing. */
  lemma SanitizeIdempotent(url: string)
    ensures Sanitize(Sanitize(url)) == Sanitize(url)
  {
    var kept := KeepAllowed(RemoveSchemeAndWww(url));
    var name := Sanitize(url);
    SlashReplaceIsNoOp(url);
    assert name == Strip(kept);
    NothingToRemove(name);
    assert KeepAllowed(name) == name;
    StripIdempotent(kept);
    assert Strip(KeepAllowed(RemoveSchemeAndWww(name))) == name;
    SlashReplaceIsNoOp(name);
  }

  /** Deleting a pattern from a string that starts with it deletes that
      occurrence whole. */
  lemma DeleteLeading(pattern: string, rest: string)
    requires |pattern| > 0
    ensures ReplaceAll(pattern + rest, pattern, "") == ReplaceAll(rest, pattern, "")
  {
    var s := pattern + rest;
    assert StartsWith(s, pattern) && s[|pattern|..] == rest;
  }

  /** The rest of a URL after `www.` loses it whole. */
  lemma WwwDeleted(rest: string)
    ensures ReplaceAll("www." + rest, "http://", "") == "www." + ReplaceAll(rest, "http://", "")
    ensures ReplaceAll("www." + rest, "https://", "") == "www." + ReplaceAll(rest, "https://", "")
    ensures ReplaceAll("www." + rest, "www.", "") == ReplaceAll(rest, "www.", "")
  {
    ReplaceAppend("www.", rest, "http://", "");
    ReplaceAppend("www.", rest, "https://", "");
    DeleteLeading("www.", rest);
  }

  /** The text after `http` of an `https://` prefix holds no `h`, so it
      passes the `http://` deletion unchanged. */
  lemma HttpsPassesHttpDeletion(rest: string)
    ensures ReplaceAll("https://" + rest, "http://", "") == "https://" + ReplaceAll(rest, "http://", "")
  {
    var s := "https://" + rest;
    assert s[4] == 's';
    assert !StartsWith(s, "http://");
    assert s[1..] == "ttps://" + rest;
    ReplaceAppend("ttps://", rest, "http://", "");
    assert "h" + "ttps://" == "https://";
  }

  /** The deletions after `http://`, as a function of what `http://`
      deletion left. */
  function AfterHttp(noHttp: string): string {
    ReplaceAll(ReplaceAll(noHttp, "https://", ""), "www.", "")
  }

  lemma RemoveSplit(url: string)
    ensures RemoveSchemeAndWww(url) == AfterHttp(ReplaceAll(url, "http://", ""))
  {
  }

  lemma HttpIgnored(rest: string)
    ensures RemoveSchemeAndWww("http://" + rest) == RemoveSchemeAndWww(rest)
  {
    DeleteLeading("http://", rest);
    RemoveSplit(rest);
    RemoveSplit("http://" + rest);
  }

  lemma HttpsIgnored(rest: string)
    ensures RemoveSchemeAndWww("https://" + rest) == RemoveSchemeAndWww(rest)
  {
    var noHttp := ReplaceAll(rest, "http://", "");
    HttpsPassesHttpDeletion(rest);
    DeleteLeading("https://", noHttp);
    RemoveSplit(rest);
    RemoveSplit("https://" + rest);
  }

  lemma WwwIgnored(rest: string)
    ensures RemoveSchemeAndWww("www." + rest) == RemoveSchemeAndWww(rest)
  {
    var noHttp := ReplaceAll(rest, "http://", "");
    var noHttps := ReplaceAll(noHttp, "https://", "");
    WwwDeleted(rest);
    WwwDeleted(noHttp);
    WwwDeleted(noHttps);
    RemoveSplit(rest);
    RemoveSplit("www." + rest);
  }

  /** Both scheme prefixes, alone or followed by `www.`, are deleted whole:
      the sanitized name of such a URL is that of its remainder. */
  lemma SchemeAndWwwIgnored(rest: string)
    ensures Sanitize("http://" + rest) == Sanitize(rest)
    ensures Sanitize("https://" + rest) == Sanitize(rest)
    ensures Sanitize("www." + rest) == Sanitize(rest)
    ensures Sanitize("http://www." + rest) == Sanitize(rest)
    ensures Sanitize("https://www." + rest) == Sanitize(rest)
  {
    HttpIgnored(rest);
    HttpsIgnored(rest);
    WwwIgnored(rest);
    assert "http://www." + rest == "http://" + ("www." + rest);
    HttpIgnored("www." + rest);
    assert "https://www." + rest == "https://" + ("www." + rest);
    HttpsIgnored("www." + rest);
  }

  /** The directory `videos/<name>/<run>/` the video of a run is recorded in. */
  function VideoDir(name: string, run: string): string {
    "videos/" + name + "/" + run + "/"
  }

  /** The video directory of `deny_cookies`. */
  function DenyVideoDir(url: string): string {
    VideoDir(Sanitize(url), "deny")
  }

  /** The video directory of `accept_cookies`. */
  function AcceptVideoDir(url: string): string {
    VideoDir(Sanitize(url), "accept")
  }

  /** The directory layout on names: the deny and accept directories of a
      name share the prefix `videos/<name>/`; a deny directory is never an
      accept directory; each gives back its name, so two names share a
      directory only when they are equal. */
  lemma DirsOfNames(name: string, other: string)
    ensures VideoDir(name, "deny")[..|name| + 8] == VideoDir(name, "accept")[..|name| + 8] == "videos/" + name + "/"
    ensures VideoDir(name, "deny") != VideoDir(other, "accept")
    ensures var d := VideoDir(name, "deny"); d[7..|d| - 6] == name
    ensures var a := VideoDir(name, "accept"); a[7..|a| - 8] == name
    ensures VideoDir(name, "deny") == VideoDir(other, "deny") <==> name == other
    ensures VideoDir(name, "accept") == VideoDir(other, "accept") <==> name == other
  {
    var d := VideoDir(name, "deny");
    var a := VideoDir(other, "accept");
    assert d[|d| - 6] == '/';
    assert a[|a| - 6] == 'c';
    var d2 := VideoDir(other, "deny");
    var a1 := VideoDir(name, "accept");
    assert d[7..|d| - 6] == name && d2[7..|d2| - 6] == other;
    assert a1[7..|a1| - 8] == name && a[7..|a| - 8] == other;
    assert d[..|name| + 8] == "videos/" + name + "/";
    assert a1[..|name| + 8] == "videos/" + name + "/";
  }

  /** Both runs of a URL record under `videos/<name>/` and differ only in
      the last segment; a deny directory is never an accept directory; and
      each directory gives back the sanitized name, so two URLs share a
      directory exactly when their names agree. */
  lemma VideoDirs(url: string, other: string)
    ensures var n := Sanitize(url);
      DenyVideoDir(url)[..|n| + 8] == AcceptVideoDir(url)[..|n| + 8] == "videos/" + n + "/"
    ensures DenyVideoDir(url) != AcceptVideoDir(other)
    ensures DenyVideoDir(url)[7..|DenyVideoDir(url)| - 6] == Sanitize(url)
    ensures AcceptVideoDir(url)[7..|AcceptVideoDir(url)| - 8] == Sanitize(url)
    ensures DenyVideoDir(url) == DenyVideoDir(other) <==> Sanitize(url) == Sanitize(other)
    ensures AcceptVideoDir(url) == AcceptVideoDir(other) <==> Sanitize(url) == Sanitize(other)
  {
    DirsOfNames(Sanitize(url), Sanitize(other));
  }
}
