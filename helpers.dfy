// The put-code extractor of the web application (nmdc_orcid_creditor/helpers.py).
//
// Creating an affiliation through the ORCID API answers with a `location` header
// holding the new record's URL; its final path segment is the record's "put-code".
// The extractor implements `re.match(r"^https?://.*orcid\.org.*/(\d+)$", header)`
// and returns group 1, or None when the header does not match.
module Helpers {
  import opened Wrappers
  import opened Digits

  const ORCID_HOST := "orcid.org"

  /** A run that `.*` can match: `.` matches every character but a newline. */
  predicate NoNewline(s: string) {
    forall i :: 0 <= i < |s| ==> s[i] != '\n'
  }

  predicate StartsWith(s: string, prefix: string) {
    |prefix| <= |s| && s[..|prefix|] == prefix
  }

  predicate EndsWith(s: string, suffix: string) {
    |suffix| <= |s| && s[|s| - |suffix|..] == suffix
  }

  /** `t` stands in `s` at position `i`. */
  predicate OccursAt(s: string, t: string, i: int) {
    0 <= i && i + |t| <= |s| && s[i..i + |t|] == t
  }

  /** Whether `t` occurs somewhere in `s` (searching left to right). */
  function Occurs(s: string, t: string): (r: bool)
    ensures r <==> exists i :: OccursAt(s, t, i)
    decreases |s|
  {
    if |t| > |s| then false
    else if s[..|t|] == t then (assert OccursAt(s, t, 0); true)
    else
      var r := Occurs(s[1..], t);
      OccursShift(s, t);
      r
  }

  lemma OccursShift(s: string, t: string)
    requires |t| <= |s| && s[..|t|] != t
    ensures (exists i :: OccursAt(s[1..], t, i)) <==> (exists i :: OccursAt(s, t, i))
  {
    if exists i :: OccursAt(s[1..], t, i) {
      var i :| OccursAt(s[1..], t, i);
      assert s[1..][i..i + |t|] == s[i + 1..i + 1 + |t|];
      assert OccursAt(s, t, i + 1);
    }
    if exists i :: OccursAt(s, t, i) {
      var i :| OccursAt(s, t, i);
      assert i != 0;
      assert s[1..][i - 1..i - 1 + |t|] == s[i..i + |t|];
      assert OccursAt(s[1..], t, i - 1);
    }
  }

  /** The position of the last `c` in `s`, or -1. */
  function LastIndexOfChar(s: string, c: char): (i: int)
    ensures -1 <= i < |s|
    ensures 0 <= i ==> s[i] == c
    ensures forall j :: i < j < |s| ==> s[j] != c
  {
    if |s| == 0 then -1
    else if s[|s| - 1] == c then |s| - 1
    else LastIndexOfChar(s[..|s| - 1], c)
  }

  /** The part of the header after `https://` or `http://`; `s?` is tried greedily and
      `http` followed by `s` cannot be followed by `://`, so the scheme is determined. */
  function AfterScheme(s: string): (rest: Option<string>)
    ensures rest.Some? ==> (StartsWith(s, "https://") && rest.value == s[8..]) ||
                           (StartsWith(s, "http://") && !StartsWith(s, "https://") && rest.value == s[7..])
    ensures rest.None? <==> !StartsWith(s, "https://") && !StartsWith(s, "http://")
  {
    if StartsWith(s, "https://") then Some(s[8..])
    else if StartsWith(s, "http://") then Some(s[7..])
    else None
  }

  /** Without the MULTILINE flag, `$` matches at the end and just before a final newline. */
  function DropFinalNewline(s: string): string {
    if |s| > 0 && s[|s| - 1] == '\n' then s[..|s| - 1] else s
  }

  /** The group after the scheme: the digits after the final `/`, provided `orcid.org`
      occurs in the newline-free text before that slash. */
  function PutCodeAfterScheme(rest: string): (putCode: Option<string>)
    ensures putCode.Some? ==> |putCode.value| > 0 && AllDigits(putCode.value)
  {
    var body := DropFinalNewline(rest);
    var slash := LastIndexOfChar(body, '/');
    if slash < 0 then None
    else
      var host, digits := body[..slash], body[slash + 1..];
      if NoNewline(host) && Occurs(host, ORCID_HOST) && |digits| > 0 && AllDigits(digits) then Some(digits)
      else None
  }

  /** extract_put_code_from_location_header: the digit run after the final `/` of an
      http(s) URL in which `orcid.org` occurs before that slash, or None. */
  function ExtractPutCodeFromLocationHeader(locationHeader: string): (thePutCode: Option<string>)
    ensures thePutCode.Some? ==> |thePutCode.value| > 0 && AllDigits(thePutCode.value)
    ensures thePutCode.Some? ==> StartsWith(locationHeader, "https://") || StartsWith(locationHeader, "http://")
  {
    match AfterScheme(locationHeader)
    case None => None
    case Some(rest) => PutCodeAfterScheme(rest)
  }

  /** A put-code is the final segment of the header, right after a `/` (and before the one
      final newline that `$` lets through, when there is one). So a header ending in `/`,
      and the empty header, yield None. */
  lemma PutCodeIsFinalSegment(locationHeader: string)
    ensures var r := ExtractPutCodeFromLocationHeader(locationHeader);
            && (r.Some? ==> EndsWith(locationHeader, "/" + r.value) || EndsWith(locationHeader, "/" + r.value + "\n"))
            && (r.Some? && NoNewline(locationHeader) ==> EndsWith(locationHeader, "/" + r.value))
            && (|locationHeader| > 0 && locationHeader[|locationHeader| - 1] == '/' ==> r.None?)
            && (locationHeader == "" ==> r.None?)
  {
    var r := ExtractPutCodeFromLocationHeader(locationHeader);
    if r.Some? {
      var putCode := r.value;
      var scheme, rest := SplitScheme(locationHeader);
      assert PutCodeAfterScheme(rest) == Some(putCode);
      var withNewline := FinalSegmentOfRest(rest);
      if withNewline {
        EndsWithPrefixed(scheme, rest, "/" + putCode + "\n");
        assert locationHeader[|locationHeader| - 1] == rest[|rest| - 1];
      } else {
        EndsWithPrefixed(scheme, rest, "/" + putCode);
        assert locationHeader[|locationHeader| - 1] == rest[|rest| - 1];
      }
    }
  }

  lemma FinalSegmentOfRest(rest: string) returns (withNewline: bool)
    requires PutCodeAfterScheme(rest).Some?
    ensures var putCode := PutCodeAfterScheme(rest).value;
            && |rest| > 0
            && (withNewline ==> EndsWith(rest, "/" + putCode + "\n") && rest[|rest| - 1] == '\n')
            && (!withNewline ==> EndsWith(rest, "/" + putCode) && IsDigit(rest[|rest| - 1]))
  {
    var putCode := PutCodeAfterScheme(rest).value;
    var body := DropFinalNewline(rest);
    var slash := LastIndexOfChar(body, '/');
    assert body == body[..slash] + "/" + putCode;
    assert body[|body| - |"/" + putCode|..] == "/" + putCode;
    withNewline := |rest| > 0 && rest[|rest| - 1] == '\n';
    if withNewline {
      assert rest == body + "\n";
      EndsWithAppend(body, "/" + putCode, "\n");
    } else {
      assert rest == body;
      assert rest[|rest| - 1] == putCode[|putCode| - 1];
    }
  }

  lemma EndsWithAppend(s: string, suffix: string, more: string)
    requires EndsWith(s, suffix)
    ensures EndsWith(s + more, suffix + more)
  {
    assert (s + more)[|s + more| - |suffix + more|..] == s[|s| - |suffix|..] + more;
  }

  lemma EndsWithPrefixed(prefix: string, s: string, suffix: string)
    requires EndsWith(s, suffix)
    ensures EndsWith(prefix + s, suffix)
  {
    assert (prefix + s)[|prefix + s| - |suffix|..] == s[|s| - |suffix|..];
  }

  // ---------------------------------------------------------------------------
  // The language of the regular expression, as a reference definition.

  /** The text after the scheme: `.*`, `orcid.org`, `.*`, `/`, the group, and what `$` allows after it. */
  function PathOf(before: string, after: string, putCode: string, end: string): string {
    before + ORCID_HOST + after + "/" + putCode + end
  }

  function Compose(scheme: string, before: string, after: string, putCode: string, end: string): string {
    scheme + PathOf(before, after, putCode, end)
  }

  // `s` matches `^https?://.*orcid\.org.*/(\d+)$` with `putCode` as group 1.
  ghost predicate MatchesLocationPattern(s: string, putCode: string) {
    exists scheme, before, after, end ::
      && s == Compose(scheme, before, after, putCode, end)
      && (scheme == "https://" || scheme == "http://")
      && NoNewline(before) && NoNewline(after)
      && |putCode| > 0 && AllDigits(putCode)
      && (end == "" || end == "\n")
  }

  /** The extractor returns `putCode` exactly when the header matches the pattern with
      `putCode` as its group; so it returns None exactly when the header does not match. */
  lemma ExtractorMatchesPattern(locationHeader: string, putCode: string)
    ensures ExtractPutCodeFromLocationHeader(locationHeader) == Some(putCode)
            <==> MatchesLocationPattern(locationHeader, putCode)
  {
    if ExtractPutCodeFromLocationHeader(locationHeader) == Some(putCode) {
      ExtractedHeaderMatches(locationHeader);
    }
    if MatchesLocationPattern(locationHeader, putCode) {
      var scheme, before, after, end :|
        && locationHeader == Compose(scheme, before, after, putCode, end)
        && (scheme == "https://" || scheme == "http://")
        && NoNewline(before) && NoNewline(after)
        && |putCode| > 0 && AllDigits(putCode)
        && (end == "" || end == "\n");
      MatchingHeaderIsExtracted(scheme, before, after, putCode, end);
    }
  }

  lemma ExtractedHeaderMatches(s: string)
    requires ExtractPutCodeFromLocationHeader(s).Some?
    ensures MatchesLocationPattern(s, ExtractPutCodeFromLocationHeader(s).value)
  {
    var putCode := ExtractPutCodeFromLocationHeader(s).value;
    var scheme, rest := SplitScheme(s);
    assert PutCodeAfterScheme(rest) == Some(putCode);
    var before, after, end := SplitPath(rest);
    assert s == Compose(scheme, before, after, putCode, end);
  }

  lemma SplitScheme(s: string) returns (scheme: string, rest: string)
    requires AfterScheme(s).Some?
    ensures scheme == "https://" || scheme == "http://"
    ensures AfterScheme(s) == Some(rest) && s == scheme + rest
  {
    rest := AfterScheme(s).value;
    scheme := if StartsWith(s, "https://") then "https://" else "http://";
    assert s == s[..|scheme|] + s[|scheme|..];
  }

  lemma SplitPath(rest: string) returns (before: string, after: string, end: string)
    requires PutCodeAfterScheme(rest).Some?
    ensures var putCode := PutCodeAfterScheme(rest).value;
            && rest == PathOf(before, after, putCode, end)
            && NoNewline(before) && NoNewline(after)
            && (end == "" || end == "\n")
  {
    var putCode := PutCodeAfterScheme(rest).value;
    var body := DropFinalNewline(rest);
    end := if |rest| > 0 && rest[|rest| - 1] == '\n' then "\n" else "";
    assert rest == body + end;
    var slash := LastIndexOfChar(body, '/');
    var host := body[..slash];
    assert body == host + "/" + putCode;
    var i :| OccursAt(host, ORCID_HOST, i);
    before, after := host[..i], host[i + |ORCID_HOST|..];
    assert host == before + ORCID_HOST + after;
    forall k | 0 <= k < |before| ensures before[k] != '\n' { assert before[k] == host[k]; }
    forall k | 0 <= k < |after| ensures after[k] != '\n' { assert after[k] == host[i + |ORCID_HOST| + k]; }
  }

  lemma MatchingHeaderIsExtracted(scheme: string, before: string, after: string, putCode: string, end: string)
    requires scheme == "https://" || scheme == "http://"
    requires NoNewline(before) && NoNewline(after)
    requires |putCode| > 0 && AllDigits(putCode)
    requires end == "" || end == "\n"
    ensures ExtractPutCodeFromLocationHeader(Compose(scheme, before, after, putCode, end)) == Some(putCode)
  {
    var host := before + ORCID_HOST + after;
    var body := host + "/" + putCode;
    var rest := body + end;
    assert Compose(scheme, before, after, putCode, end) == scheme + rest;
    SchemeIsStripped(scheme, rest);
    HostQualifies(before, after);
    FinalSegmentIsFound(host, putCode, end);
  }

  lemma SchemeIsStripped(scheme: string, rest: string)
    requires scheme == "https://" || scheme == "http://"
    ensures AfterScheme(scheme + rest) == Some(rest)
  {
    var s := scheme + rest;
    assert s[..|scheme|] == scheme;
    if scheme == "http://" {
      assert s[4] == ':';
      assert !StartsWith(s, "https://");
    }
    assert s[|scheme|..] == rest;
  }

  lemma HostQualifies(before: string, after: string)
    requires NoNewline(before) && NoNewline(after)
    ensures NoNewline(before + ORCID_HOST + after) && Occurs(before + ORCID_HOST + after, ORCID_HOST)
  {
    var host := before + ORCID_HOST + after;
    assert host[|before|..|before| + |ORCID_HOST|] == ORCID_HOST;
    assert OccursAt(host, ORCID_HOST, |before|);
    forall k | 0 <= k < |host| ensures host[k] != '\n' {
      if k < |before| { assert host[k] == before[k]; }
      else if k < |before| + |ORCID_HOST| { assert host[k] == ORCID_HOST[k - |before|]; }
      else { assert host[k] == after[k - |before| - |ORCID_HOST|]; }
    }
  }

  lemma FinalSegmentIsFound(host: string, putCode: string, end: string)
    requires NoNewline(host) && Occurs(host, ORCID_HOST)
    requires |putCode| > 0 && AllDigits(putCode)
    requires end == "" || end == "\n"
    ensures PutCodeAfterScheme(host + "/" + putCode + end) == Some(putCode)
  {
    var body := host + "/" + putCode;
    var rest := body + end;
    if end == "" {
      assert rest == body;
      assert body[|body| - 1] == putCode[|putCode| - 1];
    } else {
      assert rest[..|rest| - 1] == body;
    }
    assert DropFinalNewline(rest) == body;
    assert body[|host|] == '/';
    assert forall j :: |host| < j < |body| ==> body[j] == putCode[j - |host| - 1];
    assert LastIndexOfChar(body, '/') == |host|;
    assert body[..|host|] == host && body[|host| + 1..] == putCode;
  }

  /** Round trip: an https or http URL with `orcid.org` in it, ending in `/` and a
      non-empty digit run, yields exactly that digit run. */
  lemma {:induction false} PutCodeRoundTrip(u: string, v: string, d: string)
    requires NoNewline(u) && NoNewline(v)
    requires |d| > 0 && AllDigits(d)
    ensures ExtractPutCodeFromLocationHeader("https://" + u + "orcid.org" + v + "/" + d) == Some(d)
    ensures ExtractPutCodeFromLocationHeader("http://" + u + "orcid.org" + v + "/" + d) == Some(d)
  {
    MatchingHeaderIsExtracted("https://", u, v, d, "");
    MatchingHeaderIsExtracted("http://", u, v, d, "");
    ComposeRegroups("https://", u, v, d);
    ComposeRegroups("http://", u, v, d);
  }

  lemma ComposeRegroups(scheme: string, u: string, v: string, d: string)
    ensures Compose(scheme, u, v, d, "") == scheme + u + ORCID_HOST + v + "/" + d
  {
    assert PathOf(u, v, d, "") == u + ORCID_HOST + v + "/" + d;
  }

  /** A header in which `orcid.org` does not occur at all yields None. */
  lemma {:induction false} ForeignHostYieldsNone(locationHeader: string)
    requires !Occurs(locationHeader, ORCID_HOST)
    ensures ExtractPutCodeFromLocationHeader(locationHeader).None?
  {
    if ExtractPutCodeFromLocationHeader(locationHeader).Some? {
      var putCode := ExtractPutCodeFromLocationHeader(locationHeader).value;
      var scheme, rest := SplitScheme(locationHeader);
      assert PutCodeAfterScheme(rest) == Some(putCode);
      var before, after, end := SplitPath(rest);
      var at := |scheme| + |before|;
      HostOccursInHeader(locationHeader, scheme, before, after, putCode, end);
      assert false;
    }
  }

  lemma HostOccursInHeader(s: string, scheme: string, before: string, after: string, putCode: string, end: string)
    requires s == scheme + PathOf(before, after, putCode, end)
    ensures OccursAt(s, ORCID_HOST, |scheme| + |before|)
  {
    var at := |scheme| + |before|;
    assert s == (scheme + before) + ORCID_HOST + (after + "/" + putCode + end);
    assert s[at..at + |ORCID_HOST|] == ORCID_HOST;
  }

  /** The examples documented with the Python function: the production, sandbox and
      plain-http URLs yield `12345`; a URL ending in `/` and the empty header yield None. */
  lemma DocumentedExamples()
    ensures ExtractPutCodeFromLocationHeader("https://api.orcid.org/v3.0/0000-0000-0000-000X/service/12345") == Some("12345")
    ensures ExtractPutCodeFromLocationHeader("https://api.sandbox.orcid.org/v3.0/0000-0000-0000-000X/service/12345") == Some("12345")
    ensures ExtractPutCodeFromLocationHeader("http://api.sandbox.orcid.org/v3.0/0000-0000-0000-000X/service/12345") == Some("12345")
    ensures ExtractPutCodeFromLocationHeader("https://api.orcid.org/v3.0/0000-0000-0000-000X/service/").None?
    ensures ExtractPutCodeFromLocationHeader("").None?
  {
    ProductionExample();
    SandboxExample();
    PlainHttpExample();
    PutCodeIsFinalSegment("https://api.orcid.org/v3.0/0000-0000-0000-000X/service/");
    PutCodeIsFinalSegment("");
  }

  /** The path of the documented examples, in pieces short enough to join. */
  const DOC_PATH := "/v3.0" + "/0000-0000" + "-0000-000X" + "/service"

  lemma DocPathIsNewlineFree()
    ensures NoNewline(DOC_PATH)
  {
  }

  lemma ProductionExample()
    ensures ExtractPutCodeFromLocationHeader("https://api.orcid.org/v3.0/0000-0000-0000-000X/service/12345") == Some("12345")
  {
    DocPathIsNewlineFree();
    PutCodeRoundTrip("api.", DOC_PATH, "12345");
    ProductionExampleSpelled();
  }

  lemma ProductionExampleSpelled()
    ensures "https://" + "api." + "orcid.org" + DOC_PATH + "/" + "12345" == "https://api.orcid.org/v3.0/0000-0000-0000-000X/service/12345"
  {
    Regroup("https://" + "api." + "orcid.org", "/v3.0", "/0000-0000", "-0000-000X", "/service");
    assert "https://" + "api." == "https://api.";
    assert "https://api." + "orcid.org" == "https://api.orcid.org";
    assert "https://api.orcid.org" + "/v3.0" == "https://api.orcid.org/v3.0";
    assert "https://api.orcid.org/v3.0" + "/0000-0000" == "https://api.orcid.org/v3.0/0000-0000";
    assert "https://api.orcid.org/v3.0/0000-0000" + "-0000-000X" == "https://api.orcid.org/v3.0/0000-0000-0000-000X";
    assert "https://api.orcid.org/v3.0/0000-0000-0000-000X" + "/service" == "https://api.orcid.org/v3.0/0000-0000-0000-000X/service";
    assert "https://api.orcid.org/v3.0/0000-0000-0000-000X/service" + "/" == "https://api.orcid.org/v3.0/0000-0000-0000-000X/service/";
    assert "https://api.orcid.org/v3.0/0000-0000-0000-000X/service/" + "12345" == "https://api.orcid.org/v3.0/0000-0000-0000-000X/service/12345";
  }

  lemma SandboxExample()
    ensures ExtractPutCodeFromLocationHeader("https://api.sandbox.orcid.org/v3.0/0000-0000-0000-000X/service/12345") == Some("12345")
  {
    DocPathIsNewlineFree();
    PutCodeRoundTrip("api.sandbox.", DOC_PATH, "12345");
    SandboxExampleSpelled();
  }

  lemma SandboxExampleSpelled()
    ensures "https://" + "api.sandbox." + "orcid.org" + DOC_PATH + "/" + "12345" == "https://api.sandbox.orcid.org/v3.0/0000-0000-0000-000X/service/12345"
  {
    Regroup("https://" + "api.sandbox." + "orcid.org", "/v3.0", "/0000-0000", "-0000-000X", "/service");
    assert "https://" + "api.sandbox." == "https://api.sandbox.";
    assert "https://api.sandbox." + "orcid.org" == "https://api.sandbox.orcid.org";
    assert "https://api.sandbox.orcid.org" + "/v3.0" == "https://api.sandbox.orcid.org/v3.0";
    assert "https://api.sandbox.orcid.org/v3.0" + "/0000-0000" == "https://api.sandbox.orcid.org/v3.0/0000-0000";
    assert "https://api.sandbox.orcid.org/v3.0/0000-0000" + "-0000-000X" == "https://api.sandbox.orcid.org/v3.0/0000-0000-0000-000X";
    assert "https://api.sandbox.orcid.org/v3.0/0000-0000-0000-000X" + "/service" == "https://api.sandbox.orcid.org/v3.0/0000-0000-0000-000X/service";
    assert "https://api.sandbox.orcid.org/v3.0/0000-0000-0000-000X/service" + "/" == "https://api.sandbox.orcid.org/v3.0/0000-0000-0000-000X/service/";
    assert "https://api.sandbox.orcid.org/v3.0/0000-0000-0000-000X/service/" + "12345" == "https://api.sandbox.orcid.org/v3.0/0000-0000-0000-000X/service/12345";
  }

  lemma PlainHttpExample()
    ensures ExtractPutCodeFromLocationHeader("http://api.sandbox.orcid.org/v3.0/0000-0000-0000-000X/service/12345") == Some("12345")
  {
    DocPathIsNewlineFree();
    PutCodeRoundTrip("api.sandbox.", DOC_PATH, "12345");
    PlainHttpExampleSpelled();
  }

  lemma PlainHttpExampleSpelled()
    ensures "http://" + "api.sandbox." + "orcid.org" + DOC_PATH + "/" + "12345" == "http://api.sandbox.orcid.org/v3.0/0000-0000-0000-000X/service/12345"
  {
    Regroup("http://" + "api.sandbox." + "orcid.org", "/v3.0", "/0000-0000", "-0000-000X", "/service");
    assert "http://" + "api.sandbox." == "http://api.sandbox.";
    assert "http://api.sandbox." + "orcid.org" == "http://api.sandbox.orcid.org";
    assert "http://api.sandbox.orcid.org" + "/v3.0" == "http://api.sandbox.orcid.org/v3.0";
    assert "http://api.sandbox.orcid.org/v3.0" + "/0000-0000" == "http://api.sandbox.orcid.org/v3.0/0000-0000";
    assert "http://api.sandbox.orcid.org/v3.0/0000-0000" + "-0000-000X" == "http://api.sandbox.orcid.org/v3.0/0000-0000-0000-000X";
    assert "http://api.sandbox.orcid.org/v3.0/0000-0000-0000-000X" + "/service" == "http://api.sandbox.orcid.org/v3.0/0000-0000-0000-000X/service";
    assert "http://api.sandbox.orcid.org/v3.0/0000-0000-0000-000X/service" + "/" == "http://api.sandbox.orcid.org/v3.0/0000-0000-0000-000X/service/";
    assert "http://api.sandbox.orcid.org/v3.0/0000-0000-0000-000X/service/" + "12345" == "http://api.sandbox.orcid.org/v3.0/0000-0000-0000-000X/service/12345";
  }

  lemma Regroup(head: string, p1: string, p2: string, p3: string, p4: string)
    ensures head + (p1 + p2 + p3 + p4) == head + p1 + p2 + p3 + p4
  {
  }
}
