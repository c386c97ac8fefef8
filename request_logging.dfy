/** The request logging filter's decisions: which requests are logged, the client address put in the
    log context, and which log lines a request produces at which level. */
module RequestLogging {
  import opened Wrappers
  import opened Strings
  import SeqLogging

  const SLOW_REQUEST_MS: int := 1000
  const MAX_LOGGED_BODY: nat := 2000

  /** Documentation, actuator and static-resource requests pass through without logging. */
  predicate ShouldSkipLogging(uri: string) {
    || StartsWith(uri, "/swagger")
    || StartsWith(uri, "/v3/api-docs")
    || StartsWith(uri, "/actuator")
    || EndsWith(uri, ".css")
    || EndsWith(uri, ".js")
    || EndsWith(uri, ".ico")
  }

  /** The skipped areas as tables: three path prefixes and three file suffixes. */
  const SKIPPED_PREFIXES: seq<string> := ["/swagger", "/v3/api-docs", "/actuator"]
  const SKIPPED_SUFFIXES: seq<string> := [".css", ".js", ".ico"]

  /** A request is skipped exactly when its URI starts with one of the skipped prefixes or ends with one of
      the skipped suffixes. */
  lemma SkipIffListed(uri: string)
    ensures ShouldSkipLogging(uri) <==>
              || (exists p :: p in SKIPPED_PREFIXES && StartsWith(uri, p))
              || (exists x :: x in SKIPPED_SUFFIXES && EndsWith(uri, x))
  {
    if ShouldSkipLogging(uri) {
      if StartsWith(uri, "/swagger") {
        assert SKIPPED_PREFIXES[0] == "/swagger";
      } else if StartsWith(uri, "/v3/api-docs") {
        assert SKIPPED_PREFIXES[1] == "/v3/api-docs";
      } else if StartsWith(uri, "/actuator") {
        assert SKIPPED_PREFIXES[2] == "/actuator";
      } else if EndsWith(uri, ".css") {
        assert SKIPPED_SUFFIXES[0] == ".css";
      } else if EndsWith(uri, ".js") {
        assert SKIPPED_SUFFIXES[1] == ".js";
      } else {
        assert SKIPPED_SUFFIXES[2] == ".ico";
      }
    }
  }

  /** Below /api/ only static-resource suffixes are skipped, so every API call is logged. */
  lemma ApiRequestsAreLogged(uri: string)
    requires StartsWith(uri, "/api/")
    ensures ShouldSkipLogging(uri) <==> EndsWith(uri, ".css") || EndsWith(uri, ".js") || EndsWith(uri, ".ico")
  {
    assert uri[1] == 'a' && uri[2] == 'p';
    NotPrefix(uri, "/swagger", 1);
    NotPrefix(uri, "/v3/api-docs", 1);
    NotPrefix(uri, "/actuator", 2);
  }

  /** The task API's own paths are logged. */
  lemma ApiPathsAreLogged()
    ensures !ShouldSkipLogging("/api/v1/tasks")
    ensures !ShouldSkipLogging("/api/v1/tasks/7/status")
  {
    NotPrefix("/api/v1/tasks", "/swagger", 1);
    NotPrefix("/api/v1/tasks", "/v3/api-docs", 1);
    NotPrefix("/api/v1/tasks", "/actuator", 2);
    NotPrefix("/api/v1/tasks/7/status", "/swagger", 1);
    NotPrefix("/api/v1/tasks/7/status", "/v3/api-docs", 1);
    NotPrefix("/api/v1/tasks/7/status", "/actuator", 2);
    assert "/api/v1/tasks"[9..] == "asks";
    assert "/api/v1/tasks"[10..] == "sks";
    assert "/api/v1/tasks"[11..] == "ks";
    assert "/api/v1/tasks/7/status"[18..] == "atus";
    assert "/api/v1/tasks/7/status"[19..] == "tus";
    assert "/api/v1/tasks/7/status"[20..] == "us";
  }

  /** Documentation, health checks and scripts are not logged. */
  lemma DocsAndAssetsAreSkipped()
    ensures ShouldSkipLogging("/swagger-ui/index.html")
    ensures ShouldSkipLogging("/v3/api-docs/swagger-config")
    ensures ShouldSkipLogging("/actuator/health")
    ensures ShouldSkipLogging("/favicon.ico")
    ensures ShouldSkipLogging("/assets/app.js")
  {
    assert "/favicon.ico"[8..] == ".ico";
    assert "/assets/app.js"[11..] == ".js";
    assert "/swagger" <= "/swagger-ui/index.html";
    assert "/v3/api-docs" <= "/v3/api-docs/swagger-config";
    assert "/actuator" <= "/actuator/health";
  }

  lemma NotPrefix(s: string, prefix: string, i: nat)
    requires i < |s| && i < |prefix| && s[i] != prefix[i]
    ensures !StartsWith(s, prefix)
  {
  }

  /** getClientIp as the source has it. None stands for the ArrayIndexOutOfBoundsException raised when
      X-Forwarded-For holds only commas, whose split is empty. */
  function ClientIpAsWritten(forwardedFor: Option<string>, realIp: Option<string>, remoteAddr: string): Option<string> {
    if forwardedFor.Some? && forwardedFor.value != [] then
      var parts := JavaSplit(forwardedFor.value, ',');
      if parts == [] then None else Some(Trim(parts[0]))
    else if realIp.Some? && realIp.value != [] then Some(realIp.value)
    else Some(remoteAddr)
  }

  predicate OnlyCommas(s: string) {
    forall i :: 0 <= i < |s| ==> s[i] == ','
  }

  /** The choice getClientIp makes: the trimmed text before the first comma of a non-empty
      X-Forwarded-For, else a non-empty X-Real-IP, else the remote address; and it fails exactly on a
      non-empty X-Forwarded-For made of commas only. */
  lemma ClientIpAsWrittenChoice(forwardedFor: Option<string>, realIp: Option<string>, remoteAddr: string)
    ensures ClientIpAsWritten(forwardedFor, realIp, remoteAddr).None?
            <==> forwardedFor.Some? && forwardedFor.value != [] && OnlyCommas(forwardedFor.value)
    ensures forwardedFor.Some? && forwardedFor.value != [] && !OnlyCommas(forwardedFor.value) ==>
            ClientIpAsWritten(forwardedFor, realIp, remoteAddr) == Some(Trim(Before(forwardedFor.value, ',')))
    ensures (forwardedFor.None? || forwardedFor.value == []) && realIp.Some? && realIp.value != [] ==>
            ClientIpAsWritten(forwardedFor, realIp, remoteAddr) == realIp
    ensures (forwardedFor.None? || forwardedFor.value == []) && (realIp.None? || realIp.value == []) ==>
            ClientIpAsWritten(forwardedFor, realIp, remoteAddr) == Some(remoteAddr)
  {
    if forwardedFor.Some? && forwardedFor.value != [] {
      JavaSplitFirst(forwardedFor.value, ',');
    }
  }

  /** A header of a single comma makes the filter throw for any request. */
  lemma CommaHeaderFails(realIp: Option<string>, remoteAddr: string)
    ensures ClientIpAsWritten(Some(","), realIp, remoteAddr) == None
  {
    ClientIpAsWrittenChoice(Some(","), realIp, remoteAddr);
  }

  /** getClientIp corrected: an X-Forwarded-For with no first element is passed over like an absent one. */
  function ClientIp(forwardedFor: Option<string>, realIp: Option<string>, remoteAddr: string): string {
    if forwardedFor.Some? && forwardedFor.value != [] && JavaSplit(forwardedFor.value, ',') != [] then
      Trim(JavaSplit(forwardedFor.value, ',')[0])
    else if realIp.Some? && realIp.value != [] then realIp.value
    else remoteAddr
  }

  /** The corrected choice agrees with the source wherever the source returns, and otherwise falls back
      to X-Real-IP and then the remote address. */
  lemma ClientIpCorrected(forwardedFor: Option<string>, realIp: Option<string>, remoteAddr: string)
    ensures ClientIpAsWritten(forwardedFor, realIp, remoteAddr).Some? ==>
            ClientIpAsWritten(forwardedFor, realIp, remoteAddr) == Some(ClientIp(forwardedFor, realIp, remoteAddr))
    ensures ClientIpAsWritten(forwardedFor, realIp, remoteAddr).None? ==>
            ClientIp(forwardedFor, realIp, remoteAddr) == if realIp.Some? && realIp.value != [] then realIp.value else remoteAddr
  {
  }

  /** The client address is the first hop of X-Forwarded-For, with the blanks around it removed,
      whatever the later hops and the other headers say. */
  lemma FirstHopWins(hop: string, rest: string, realIp: Option<string>, remoteAddr: string)
    requires hop != [] && ',' !in hop
    ensures ClientIpAsWritten(Some(hop + "," + rest), realIp, remoteAddr) == Some(Trim(hop))
    ensures ClientIp(Some(hop + "," + rest), realIp, remoteAddr) == Trim(hop)
  {
    var h := hop + "," + rest;
    assert h[..|hop|] == hop && h[|hop|] == ',';
    assert h[0] == hop[0];
    BeforeIsPrefixUpToSep(h, ',', |hop|);
    JavaSplitFirst(h, ',');
  }

  lemma {:induction false} BeforeIsPrefixUpToSep(s: string, sep: char, k: nat)
    requires k < |s| && s[k] == sep
    requires forall i :: 0 <= i < k ==> s[i] != sep
    ensures Before(s, sep) == s[..k]
  {
    if k > 0 {
      BeforeIsPrefixUpToSep(s[1..], sep, k - 1);
      assert [s[0]] + s[1..][..k - 1] == s[..k];
    }
  }

  /** The request line: the URI, with the query string after a '?' when there is one. */
  function FullPath(uri: string, query: Option<string>): (p: string)
    ensures StartsWith(p, uri)
  {
    if query.Some? then uri + "?" + query.value else uri
  }

  /** A URI without '?' is recovered from the request line, and so is the query string. */
  lemma FullPathSplits(uri: string, query: Option<string>)
    requires '?' !in uri
    ensures Before(FullPath(uri, query), '?') == uri
    ensures query.Some? ==> FullPath(uri, query)[|uri| + 1..] == query.value
  {
    var p := FullPath(uri, query);
    if query.Some? {
      assert p[|uri|] == '?';
      assert p[..|uri|] == uri;
      BeforeIsPrefixUpToSep(p, '?', |uri|);
    } else {
      assert Before(p, '?') <= p;
    }
  }

  /** The lines a request writes, by their role. */
  datatype LogKind = RequestStarted | RequestHeaders | RequestCompleted | ResponseBody | SlowRequest

  datatype LogLine = LogLine(level: string, kind: LogKind)

  /** The level of the completion line. */
  function CompletionLevel(status: int): (level: string)
    ensures level == "ERROR" <==> status >= 500
    ensures level == "WARN" <==> 400 <= status < 500
    ensures level == "INFO" <==> status < 400
  {
    if status >= 500 then "ERROR" else if status >= 400 then "WARN" else "INFO"
  }

  /** The response body is logged for error responses only, and only when it is non-empty and short. */
  function BodyLines(bodyLength: nat): seq<LogLine> {
    if 0 < bodyLength < MAX_LOGGED_BODY then [LogLine("DEBUG", ResponseBody)] else []
  }

  /** logRequestComplete: the completion line, the body of an error response, then the slow-request
      warning. */
  function CompletionLines(status: int, bodyLength: nat, duration: int): (lines: seq<LogLine>)
    ensures |lines| >= 1 && lines[0] == LogLine(CompletionLevel(status), RequestCompleted)
  {
    [LogLine(CompletionLevel(status), RequestCompleted)]
    + (if status >= 500 then BodyLines(bodyLength) else if status >= 400 then BodyLines(bodyLength) else [])
    + (if duration > SLOW_REQUEST_MS then [LogLine("WARN", SlowRequest)] else [])
  }

  /** All the lines doFilterInternal writes for a request: none for a skipped URI; otherwise the start
      line, the header details, and the completion lines. */
  function FilterLines(uri: string, status: int, bodyLength: nat, duration: int): seq<LogLine> {
    if ShouldSkipLogging(uri) then []
    else [LogLine("INFO", RequestStarted), LogLine("DEBUG", RequestHeaders)] + CompletionLines(status, bodyLength, duration)
  }

  /** A request is logged exactly when its URI is not skipped, and then it opens with the start line and
      carries exactly one completion line, at the level its status calls for. */
  lemma FilterLinesShape(uri: string, status: int, bodyLength: nat, duration: int)
    ensures var lines := FilterLines(uri, status, bodyLength, duration);
            (lines == [] <==> ShouldSkipLogging(uri))
            && (lines != [] ==> lines[0] == LogLine("INFO", RequestStarted)
                                && LogLine(CompletionLevel(status), RequestCompleted) in lines
                                && forall i, j :: 0 <= i < j < |lines| && lines[i].kind == RequestCompleted ==> lines[j].kind != RequestCompleted)
  {
  }

  /** The response body is logged exactly for a status of at least 400 with a body of 1 to 1999 bytes. */
  lemma ResponseBodyLoggedIff(status: int, bodyLength: nat, duration: int)
    ensures LogLine("DEBUG", ResponseBody) in CompletionLines(status, bodyLength, duration)
            <==> status >= 400 && 0 < bodyLength < MAX_LOGGED_BODY
  {
    var lines := CompletionLines(status, bodyLength, duration);
    if LogLine("DEBUG", ResponseBody) in lines {
      var i :| 0 <= i < |lines| && lines[i] == LogLine("DEBUG", ResponseBody);
      assert i != 0;
    }
  }

  /** The slow-request warning appears exactly when the request took more than a second. */
  lemma SlowWarningIff(status: int, bodyLength: nat, duration: int)
    ensures LogLine("WARN", SlowRequest) in CompletionLines(status, bodyLength, duration) <==> duration > SLOW_REQUEST_MS
  {
    var lines := CompletionLines(status, bodyLength, duration);
    if LogLine("WARN", SlowRequest) in lines {
      var i :| 0 <= i < |lines| && lines[i] == LogLine("WARN", SlowRequest);
      assert i != 0;
    }
  }

  /** Sent to Seq, the completion line's level is Error for server errors, Warning for client errors and
      Information otherwise. */
  lemma CompletionSeqLevel(status: int)
    ensures SeqLogging.MapLevel(CompletionLevel(status))
            == if status >= 500 then "Error" else if status >= 400 then "Warning" else "Information"
  {
  }
}
