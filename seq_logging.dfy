/** The Seq log appender: events rendered as CLEF (compact log event format) JSON records, queued in a
    bounded queue and sent in newline-separated batches. */
module SeqLogging {
  import opened Wrappers
  import opened Strings
  import opened JsonText

  const QUEUE_SIZE := 1000
  const BATCH_SIZE := 50
  const FLUSH_INTERVAL_MS := 1000
  const APPLICATION := "test-backend"

  // ---------------------------------------------------------------- levels

  /** Logback's level names, least severe first. */
  const LOGBACK_LEVELS := ["TRACE", "DEBUG", "INFO", "WARN", "ERROR"]
  /** Seq's level names, least severe first. */
  const SEQ_LEVELS := ["Verbose", "Debug", "Information", "Warning", "Error"]

  /** mapLevel: Logback's level name to Seq's; an unknown name becomes Information. */
  function MapLevel(level: string): (r: string)
    ensures r in SEQ_LEVELS
    ensures level !in LOGBACK_LEVELS ==> r == "Information"
  {
    if level == "TRACE" then "Verbose"
    else if level == "DEBUG" then "Debug"
    else if level == "INFO" then "Information"
    else if level == "WARN" then "Warning"
    else if level == "ERROR" then "Error"
    else "Information"
  }

  /** Each Logback level lands on the Seq level of the same severity, so the mapping keeps the order. */
  lemma MapLevelKeepsSeverity(i: nat)
    requires i < |LOGBACK_LEVELS|
    ensures MapLevel(LOGBACK_LEVELS[i]) == SEQ_LEVELS[i]
  {
  }

  lemma MapLevelIsPlain(level: string)
    ensures Plain(MapLevel(level))
  {
  }

  // ---------------------------------------------------------------- exceptions

  /** What Logback's throwable proxy exposes: class name, message (possibly null), the rendered stack
      frames and the cause. */
  datatype Throwable = Throwable(className: string, message: Option<string>, frames: seq<string>, cause: Option<Throwable>)

  /** "Class: message", where a null message prints as null. */
  function Header(tp: Throwable): string {
    tp.className + ": " + tp.message.GetOr("null")
  }

  /** One "\n\tat " line per frame, in order. */
  function FrameLines(frames: seq<string>): string {
    if frames == [] then [] else FrameLines(frames[..|frames| - 1]) + "\n\tat " + frames[|frames| - 1]
  }

  /** formatException: the header and the frames, then "\nCaused by: " and the cause, recursively. */
  function Formatted(tp: Throwable): (r: string)
    decreases tp
    ensures StartsWith(r, tp.className + ": ")
  {
    var own := Header(tp) + FrameLines(tp.frames);
    assert own[..|tp.className + ": "|] == tp.className + ": ";
    match tp.cause
    case None => own
    case Some(c) => own + "\nCaused by: " + Formatted(c)
  }

  /** Parts joined by a separator, with no separator before the first or after the last. */
  function JoinWith(parts: seq<string>, sep: string): string {
    if parts == [] then []
    else if |parts| == 1 then parts[0]
    else parts[0] + sep + JoinWith(parts[1..], sep)
  }

  /** The block each exception of the cause chain contributes, outermost first. */
  function Blocks(tp: Throwable): (r: seq<string>)
    decreases tp
    ensures |r| >= 1
  {
    [Header(tp) + FrameLines(tp.frames)] + match tp.cause
                                          case None => []
                                          case Some(c) => Blocks(c)
  }

  /** The formatted text is the cause chain's blocks joined by "\nCaused by: ": one block per
      exception of the (finite) chain. */
  lemma {:induction false} FormattedIsJoinOfChain(tp: Throwable)
    decreases tp
    ensures Formatted(tp) == JoinWith(Blocks(tp), "\nCaused by: ")
  {
    var b := Blocks(tp);
    match tp.cause
    case None =>
      assert b == [Header(tp) + FrameLines(tp.frames)];
    case Some(c) =>
      FormattedIsJoinOfChain(c);
      assert b[1..] == Blocks(c);
  }

  /** formatException's loop over the frames, then the recursion on the cause. */
  method FormatException(tp: Throwable) returns (s: string)
    decreases tp
    ensures s == Formatted(tp)
  {
    s := tp.className + ": " + tp.message.GetOr("null");
    var i := 0;
    while i < |tp.frames|
      invariant 0 <= i <= |tp.frames|
      invariant s == Header(tp) + FrameLines(tp.frames[..i])
    {
      assert tp.frames[..i + 1][..i] == tp.frames[..i];
      s := s + "\n\tat " + tp.frames[i];
      i := i + 1;
    }
    assert tp.frames[..i] == tp.frames;
    if tp.cause.Some? {
      var inner := FormatException(tp.cause.value);
      s := s + "\nCaused by: " + inner;
    }
  }

  // ---------------------------------------------------------------- CLEF records

  /** An instant as ISO_INSTANT prints it (digits, '-', ':', 'T', '.', 'Z'): text that needs no escaping. */
  type IsoInstant = s: string | Plain(s) witness "1970-01-01T00:00:00Z"

  /** A record member: the property name and its value, a string or null. */
  type Field = (string, Option<string>)

  /** What toClef reads from a Logback event; the MDC entries are in the map's iteration order. */
  datatype LogEvent = LogEvent(
    instant: IsoInstant,
    formattedMessage: Option<string>,
    level: string,
    throwable: Option<Throwable>,
    loggerName: Option<string>,
    threadName: Option<string>,
    mdc: Option<seq<Field>>)

  /** The formatted exception, when the event carries one. */
  function ExceptionText(e: LogEvent): (r: Option<string>)
    ensures r.Some? <==> e.throwable.Some?
  {
    match e.throwable
    case Some(tp) => Some(Formatted(tp))
    case None => None
  }

  /** The members toClef writes between the timestamp and the MDC entries; @x only with an exception. */
  function FixedMembers(message: Option<string>, level: string, exception: Option<string>,
                        logger: Option<string>, thread: Option<string>): seq<Field>
  {
    [("@m", message), ("@l", Some(level))]
    + (if exception.Some? then [("@x", exception)] else [])
    + [("SourceContext", logger), ("ThreadName", thread), ("Application", Some(APPLICATION))]
  }

  /** The members of the event's record, in the order toClef writes them. */
  function ClefFields(e: LogEvent): (fs: seq<Field>)
    ensures |fs| >= 6 && fs[0] == ("@t", Some(e.instant))
  {
    [("@t", Some(e.instant))]
    + FixedMembers(e.formattedMessage, MapLevel(e.level), ExceptionText(e), e.loggerName, e.threadName)
    + e.mdc.GetOr([])
  }

  /** `"name":value`, the name written as it is and the value through jsonString. */
  function Member(f: Field): string {
    "\"" + f.0 + "\":" + JsonString(f.1)
  }

  /** The members after the first, each behind a comma. */
  function Tail(fs: seq<Field>): string {
    if fs == [] then [] else "," + Member(fs[0]) + Tail(fs[1..])
  }

  function RenderObject(fs: seq<Field>): string
    requires |fs| >= 1
  {
    "{" + Member(fs[0]) + Tail(fs[1..]) + "}"
  }

  /** The CLEF line of an event. */
  function Clef(e: LogEvent): string {
    RenderObject(ClefFields(e))
  }

  lemma {:induction false} TailConcat(a: seq<Field>, b: seq<Field>)
    ensures Tail(a + b) == Tail(a) + Tail(b)
  {
    if a == [] {
      assert a + b == b;
    } else {
      assert (a + b)[0] == a[0] && (a + b)[1..] == a[1..] + b;
      TailConcat(a[1..], b);
    }
  }

  lemma TailOne(f: Field)
    ensures Tail([f]) == "," + Member(f)
  {
    assert [f][1..] == [];
  }

  // The reading side: a JSON object whose members are strings or null.

  function ReadMember(s: string): (r: Option<(Field, string)>)
    ensures r.Some? ==> |r.value.1| < |s|
  {
    if s == [] || s[0] != '"' then None
    else
      match ReadString(s[1..])
      case None => None
      case Some((name, afterName)) =>
        if afterName == [] || afterName[0] != ':' then None
        else
          match ReadValue(afterName[1..])
          case None => None
          case Some((value, rest)) => Some(((name, value), rest))
  }

  function ReadTail(s: string): Option<seq<Field>>
    decreases |s|
  {
    if s == "}" then Some([])
    else if s == [] || s[0] != ',' then None
    else
      match ReadMember(s[1..])
      case None => None
      case Some((f, rest)) =>
        match ReadTail(rest)
        case None => None
        case Some(fs) => Some([f] + fs)
  }

  /** Reads a one-line JSON object of string-or-null members, in order. */
  function ParseObject(s: string): Option<seq<Field>> {
    if s == [] || s[0] != '{' then None
    else
      match ReadMember(s[1..])
      case None => None
      case Some((f, rest)) =>
        match ReadTail(rest)
        case None => None
        case Some(fs) => Some([f] + fs)
  }

  predicate PlainNames(fs: seq<Field>) {
    forall i :: 0 <= i < |fs| ==> Plain(fs[i].0)
  }

  lemma ReadMemberBack(f: Field, rest: string)
    requires Plain(f.0)
    ensures ReadMember(Member(f) + rest) == Some((f, rest))
  {
    var j := JsonString(f.1);
    var after := ":" + j + rest;
    var body := f.0 + "\"" + after;
    MemberShape(f.0, j, rest);
    HeadTail("\"", body);
    HeadTail(":", j + rest);
    PlainEscapesToItself(f.0);
    ReadEscape(f.0, after);
    ReadJsonString(f.1, rest);
  }

  lemma MemberShape(name: string, j: string, rest: string)
    ensures "\"" + name + "\":" + j + rest == "\"" + (name + "\"" + (":" + j + rest))
    ensures ":" + j + rest == ":" + (j + rest)
  {
    assert "\":" == "\"" + ":";
  }

  lemma Nest<T>(a: seq<T>, b: seq<T>, c: seq<T>, d: seq<T>)
    ensures a + b + c + d == a + (b + (c + d))
  {
  }

  lemma HeadRest<T>(s: seq<T>)
    requires s != []
    ensures [s[0]] + s[1..] == s
  {
  }

  lemma HeadTail(h: string, t: string)
    requires |h| == 1
    ensures (h + t)[0] == h[0] && (h + t)[1..] == t
  {
  }

  lemma {:induction false} ReadTailBack(fs: seq<Field>)
    requires PlainNames(fs)
    ensures ReadTail(Tail(fs) + "}") == Some(fs)
  {
    if fs == [] {
      assert Tail(fs) + "}" == "}";
    } else {
      var m := Member(fs[0]);
      var rest := Tail(fs[1..]) + "}";
      Nest(",", m, Tail(fs[1..]), "}");
      HeadTail(",", m + rest);
      ReadMemberBack(fs[0], rest);
      ReadTailBack(fs[1..]);
      HeadRest(fs);
    }
  }

  /** An object whose member names need no escaping reads back as its members. */
  lemma ParseRenderedObject(fs: seq<Field>)
    requires |fs| >= 1 && PlainNames(fs)
    ensures ParseObject(RenderObject(fs)) == Some(fs)
  {
    var m := Member(fs[0]);
    var rest := Tail(fs[1..]) + "}";
    Nest("{", m, Tail(fs[1..]), "}");
    HeadTail("{", m + rest);
    ReadMemberBack(fs[0], rest);
    ReadTailBack(fs[1..]);
    HeadRest(fs);
  }

  /** MDC keys are written without escaping, so a well-formed record needs keys that need none. */
  predicate PlainMdcKeys(e: LogEvent) {
    e.mdc.Some? ==> PlainNames(e.mdc.value)
  }

  /** A CLEF line is one JSON object whose members read back as the event's fields, in order. */
  lemma ClefRoundTrip(e: LogEvent)
    requires PlainMdcKeys(e)
    ensures ParseObject(Clef(e)) == Some(ClefFields(e))
  {
    ClefNamesArePlain(e);
    ParseRenderedObject(ClefFields(e));
  }

  lemma PlainNamesConcat(a: seq<Field>, b: seq<Field>)
    requires PlainNames(a) && PlainNames(b)
    ensures PlainNames(a + b)
  {
    forall i | 0 <= i < |a + b| ensures Plain((a + b)[i].0) {
      if i >= |a| {
        assert (a + b)[i] == b[i - |a|];
      }
    }
  }

  lemma FixedNamesArePlain(message: Option<string>, level: string, exception: Option<string>,
                           logger: Option<string>, thread: Option<string>)
    ensures PlainNames(FixedMembers(message, level, exception, logger, thread))
  {
    assert Plain("@m") && Plain("@l") && Plain("@x");
    assert Plain("SourceContext") && Plain("ThreadName") && Plain("Application");
    PlainNamesConcat([("@m", message), ("@l", Some(level))], if exception.Some? then [("@x", exception)] else []);
    PlainNamesConcat([("@m", message), ("@l", Some(level))] + (if exception.Some? then [("@x", exception)] else []),
                     [("SourceContext", logger), ("ThreadName", thread), ("Application", Some(APPLICATION))]);
  }

  /** Every name in a record of an event with plain MDC keys needs no escaping. */
  lemma ClefNamesArePlain(e: LogEvent)
    requires PlainMdcKeys(e)
    ensures PlainNames(ClefFields(e))
  {
    var fixed := FixedMembers(e.formattedMessage, MapLevel(e.level), ExceptionText(e), e.loggerName, e.threadName);
    FixedNamesArePlain(e.formattedMessage, MapLevel(e.level), ExceptionText(e), e.loggerName, e.threadName);
    assert Plain("@t");
    PlainNamesConcat([("@t", Some(e.instant))], fixed);
    PlainNamesConcat([("@t", Some(e.instant))] + fixed, e.mdc.GetOr([]));
  }

  lemma PrefixOfNested(a: string, b: string, c: string, d: string)
    ensures a + b <= a + (b + c) + d
  {
    assert a + (b + c) + d == (a + b) + (c + d);
  }

  /** Every record starts with the timestamp member and is one closed object. */
  lemma ClefShape(e: LogEvent)
    ensures StartsWith(Clef(e), "{\"@t\":")
    ensures Clef(e)[|Clef(e)| - 1] == '}'
  {
    var fs := ClefFields(e);
    var name, value, rest := "\"" + "@t" + "\":", JsonString(Some(e.instant)), Tail(fs[1..]);
    assert Member(fs[0]) == name + value;
    Associate("{" + Member(fs[0]), rest, "}");
    PrefixOfNested("{", name, value, rest + "}");
    TimestampOpening();
  }

  /** The opening brace followed by the quoted timestamp name. */
  lemma TimestampOpening()
    ensures "{" + ("\"" + "@t" + "\":") == "{\"@t\":"
  {
  }

  /** The names of a member list. */
  function Names(fs: seq<Field>): set<string> {
    set i | 0 <= i < |fs| :: fs[i].0
  }

  /** @m, @l, SourceContext, ThreadName and Application are always there, Application always
      "test-backend"; @x is there exactly when the event carries a throwable (unless an MDC key is
      itself "@x"), with the formatted exception as its value. */
  lemma ClefMembers(e: LogEvent)
    ensures {"@t", "@m", "@l", "SourceContext", "ThreadName", "Application"} <= Names(ClefFields(e))
    ensures ("Application", Some(APPLICATION)) in ClefFields(e)
    ensures e.throwable.Some? ==> ("@x", Some(Formatted(e.throwable.value))) in ClefFields(e)
    ensures "@x" !in Names(e.mdc.GetOr([])) ==> ("@x" in Names(ClefFields(e)) <==> e.throwable.Some?)
  {
    var fs := ClefFields(e);
    var k := if e.throwable.Some? then 4 else 3;
    assert fs[0].0 == "@t" && fs[1].0 == "@m" && fs[2].0 == "@l";
    assert fs[k].0 == "SourceContext" && fs[k + 1].0 == "ThreadName" && fs[k + 2] == ("Application", Some(APPLICATION));
    if e.throwable.Some? {
      assert fs[3] == ("@x", Some(Formatted(e.throwable.value)));
    }
  }

  /** No character of the text is below U+0020: in particular no raw newline. */
  predicate NoControlChars(s: string) {
    forall i :: 0 <= i < |s| ==> s[i] >= ' '
  }

  lemma NoControlCharsConcat(a: string, b: string)
    requires NoControlChars(a) && NoControlChars(b)
    ensures NoControlChars(a + b)
  {
    forall i | 0 <= i < |a + b| ensures (a + b)[i] >= ' ' {
      if i >= |a| {
        assert (a + b)[i] == b[i - |a|];
      }
    }
  }

  lemma MemberHasNoControlChars(f: Field)
    requires Plain(f.0)
    ensures NoControlChars(Member(f))
  {
    if f.1.Some? {
      EscapeHasNoControlChars(f.1.value);
      NoControlCharsConcat("\"", Escape(f.1.value));
      NoControlCharsConcat("\"" + Escape(f.1.value), "\"");
    }
    NoControlCharsConcat("\"" + f.0, "\":");
    NoControlCharsConcat("\"" + f.0 + "\":", JsonString(f.1));
  }

  lemma {:induction false} TailHasNoControlChars(fs: seq<Field>)
    requires PlainNames(fs)
    ensures NoControlChars(Tail(fs))
  {
    if fs != [] {
      TailHasNoControlChars(fs[1..]);
      MemberHasNoControlChars(fs[0]);
      NoControlCharsConcat(",", Member(fs[0]));
      NoControlCharsConcat("," + Member(fs[0]), Tail(fs[1..]));
    }
  }

  /** A record holds no raw control character, so it fits on one line of a batch. */
  lemma ClefIsOneLine(e: LogEvent)
    requires PlainMdcKeys(e)
    ensures NoControlChars(Clef(e)) && '\n' !in Clef(e)
  {
    var fs := ClefFields(e);
    ClefNamesArePlain(e);
    MemberHasNoControlChars(fs[0]);
    TailHasNoControlChars(fs[1..]);
    NoControlCharsConcat("{", Member(fs[0]));
    NoControlCharsConcat("{" + Member(fs[0]), Tail(fs[1..]));
    NoControlCharsConcat("{" + Member(fs[0]) + Tail(fs[1..]), "}");
  }

  /** The text toClef writes before the MDC entries, piece by piece: each member is a comma, the quoted
      name and a colon, then the value (written raw where it never needs escaping). */
  function FixedText(instant: string, message: Option<string>, level: string, exception: Option<string>,
                     logger: Option<string>, thread: Option<string>): string
  {
    "{\"" + "@t" + "\":\"" + instant + "\""
    + (",\"" + "@m" + "\":" + JsonString(message))
    + (",\"" + "@l" + "\":\"" + level + "\"")
    + (if exception.Some? then ",\"" + "@x" + "\":" + JsonString(exception) else "")
    + (",\"" + "SourceContext" + "\":" + JsonString(logger))
    + (",\"" + "ThreadName" + "\":" + JsonString(thread))
    + (",\"" + "Application" + "\":\"" + APPLICATION + "\"")
  }

  lemma MemberText(name: string, v: Option<string>)
    ensures "," + Member((name, v)) == ",\"" + name + "\":" + JsonString(v)
  {
  }

  lemma PlainMemberText(name: string, v: string)
    requires Plain(v)
    ensures "," + Member((name, Some(v))) == ",\"" + name + "\":\"" + v + "\""
  {
    PlainEscapesToItself(v);
  }

  lemma ApplicationIsPlain()
    ensures Plain(APPLICATION)
  {
  }

  lemma MemberPiece(name: string, v: Option<string>) returns (p: string)
    ensures p == ",\"" + name + "\":" + JsonString(v) && p == "," + Member((name, v))
  {
    p := ",\"" + name + "\":" + JsonString(v);
  }

  lemma PlainPiece(name: string, v: string) returns (p: string)
    requires Plain(v)
    ensures p == ",\"" + name + "\":\"" + v + "\"" && p == "," + Member((name, Some(v)))
  {
    PlainEscapesToItself(v);
    p := ",\"" + name + "\":\"" + v + "\"";
  }

  lemma TimestampText(name: string, t: string)
    requires Plain(t)
    ensures "{\"" + name + "\":\"" + t + "\"" == "{" + Member((name, Some(t))) + Tail([])
  {
    PlainEscapesToItself(t);
  }

  /** Appending one member's text to a record prefix extends its member list. */
  lemma Extend(head: string, done: seq<Field>, f: Field, piece: string)
    requires piece == "," + Member(f)
    ensures head + Tail(done) + piece == head + Tail(done + [f])
  {
    var t := Tail(done);
    TailConcat(done, [f]);
    TailOne(f);
    assert Tail(done + [f]) == t + piece;
    Associate(head, t, piece);
  }

  lemma AppendTwo<T>(s: seq<T>, a: T, b: T)
    ensures s + [a] + [b] == s + [a, b]
  {
  }

  lemma AppendThree<T>(s: seq<T>, a: T, b: T, c: T)
    ensures s + [a, b] + [c] == s + [a, b, c]
  {
  }

  lemma Extend2(head: string, done: seq<Field>, f1: Field, f2: Field, p1: string, p2: string)
    requires p1 == "," + Member(f1) && p2 == "," + Member(f2)
    ensures head + Tail(done) + p1 + p2 == head + Tail(done + [f1, f2])
  {
    var one := done + [f1];
    Extend(head, done, f1, p1);
    assert head + Tail(done) + p1 + p2 == head + Tail(one) + p2;
    Extend(head, one, f2, p2);
    AppendTwo(done, f1, f2);
  }

  lemma Extend3(head: string, done: seq<Field>, f1: Field, f2: Field, f3: Field, p1: string, p2: string, p3: string)
    requires p1 == "," + Member(f1) && p2 == "," + Member(f2) && p3 == "," + Member(f3)
    ensures head + Tail(done) + p1 + p2 + p3 == head + Tail(done + [f1, f2, f3])
  {
    var two := done + [f1, f2];
    Extend2(head, done, f1, f2, p1, p2);
    assert head + Tail(done) + p1 + p2 + p3 == head + Tail(two) + p3;
    Extend(head, two, f3, p3);
    AppendThree(done, f1, f2, f3);
  }

  /** The pieces toClef writes are the timestamp member followed by the fixed members. */
  lemma FixedTextIsMembers(instant: string, message: Option<string>, level: string, exception: Option<string>,
                           logger: Option<string>, thread: Option<string>)
    requires Plain(instant) && Plain(level)
    ensures FixedText(instant, message, level, exception, logger, thread)
            == "{" + Member(("@t", Some(instant))) + Tail(FixedMembers(message, level, exception, logger, thread))
  {
    var head := "{" + Member(("@t", Some(instant)));
    var done := [("@m", message), ("@l", Some(level))];
    var x: seq<Field> := if exception.Some? then [("@x", exception)] else [];
    var opening := OpeningMembers(instant, message, level);
    var withX := ExceptionMember(head, done, exception, opening);
    var all := ClosingMembers(head, done + x, logger, thread, withX);
    assert all == FixedText(instant, message, level, exception, logger, thread);
  }

  lemma OpeningMembers(instant: string, message: Option<string>, level: string) returns (text: string)
    requires Plain(instant) && Plain(level)
    ensures text == "{\"" + "@t" + "\":\"" + instant + "\""
                    + (",\"" + "@m" + "\":" + JsonString(message))
                    + (",\"" + "@l" + "\":\"" + level + "\"")
    ensures text == "{" + Member(("@t", Some(instant))) + Tail([("@m", message), ("@l", Some(level))])
  {
    var head := "{" + Member(("@t", Some(instant)));
    var pm := ",\"" + "@m" + "\":" + JsonString(message);
    var pl := ",\"" + "@l" + "\":\"" + level + "\"";
    text := "{\"" + "@t" + "\":\"" + instant + "\"";
    TimestampText("@t", instant);
    MemberText("@m", message);
    PlainMemberText("@l", level);
    Extend2(head, [], ("@m", message), ("@l", Some(level)), pm, pl);
    assert [] + [("@m", message), ("@l", Some(level))] == [("@m", message), ("@l", Some(level))];
    text := text + pm + pl;
  }

  lemma ExceptionMember(head: string, done: seq<Field>, exception: Option<string>, text: string) returns (r: string)
    requires text == head + Tail(done)
    ensures r == text + (if exception.Some? then ",\"" + "@x" + "\":" + JsonString(exception) else "")
    ensures r == head + Tail(done + if exception.Some? then [("@x", exception)] else [])
  {
    var px := if exception.Some? then ",\"" + "@x" + "\":" + JsonString(exception) else "";
    if exception.Some? {
      MemberText("@x", exception);
      Extend(head, done, ("@x", exception), px);
    } else {
      assert done + [] == done;
      assert text + px == text;
    }
    r := text + px;
  }

  lemma ClosingMembers(head: string, done: seq<Field>, logger: Option<string>, thread: Option<string>, text: string)
    returns (r: string)
    requires text == head + Tail(done)
    ensures r == text + (",\"" + "SourceContext" + "\":" + JsonString(logger))
                      + (",\"" + "ThreadName" + "\":" + JsonString(thread))
                      + (",\"" + "Application" + "\":\"" + APPLICATION + "\"")
    ensures r == head + Tail(done + [("SourceContext", logger), ("ThreadName", thread), ("Application", Some(APPLICATION))])
  {
    var pc := MemberPiece("SourceContext", logger);
    var pt := MemberPiece("ThreadName", thread);
    ApplicationIsPlain();
    var pa := PlainPiece("Application", APPLICATION);
    Extend3(head, done, ("SourceContext", logger), ("ThreadName", thread), ("Application", Some(APPLICATION)), pc, pt, pa);
    r := text + pc + pt + pa;
  }

  lemma ConsSplit(head: Field, fixed: seq<Field>, entries: seq<Field>)
    ensures ([head] + fixed + entries)[0] == head
    ensures ([head] + fixed + entries)[1..] == fixed + entries
  {
  }

  lemma Regroup(a: string, b: string, c: string, d: string)
    ensures a + (b + c) + d == a + b + c + d
  {
  }

  lemma RenderSplit(head: Field, fixed: seq<Field>, entries: seq<Field>, fixedText: string)
    requires fixedText == "{" + Member(head) + Tail(fixed)
    ensures fixedText + Tail(entries) + "}" == RenderObject([head] + fixed + entries)
  {
    ConsSplit(head, fixed, entries);
    TailConcat(fixed, entries);
    Regroup("{" + Member(head), Tail(fixed), Tail(entries), "}");
  }

  /** The fixed text, the MDC members and the closing brace make up the event's CLEF line. */
  lemma ClefFromPieces(e: LogEvent, exception: Option<string>, base: string, text: string)
    requires exception == ExceptionText(e)
    requires base == FixedText(e.instant, e.formattedMessage, MapLevel(e.level), exception, e.loggerName, e.threadName)
    requires text == base + Tail(e.mdc.GetOr([])) + "}"
    ensures text == Clef(e)
  {
    var level := MapLevel(e.level);
    MapLevelIsPlain(e.level);
    var fixed := FixedMembers(e.formattedMessage, level, exception, e.loggerName, e.threadName);
    FixedTextIsMembers(e.instant, e.formattedMessage, level, exception, e.loggerName, e.threadName);
    RenderSplit(("@t", Some(e.instant)), fixed, e.mdc.GetOr([]), base);
  }

  lemma WholeSlice<T>(s: seq<T>)
    ensures s[..|s|] == s
  {
  }

  /** One turn of toClef's MDC loop adds the entry's member to the record. */
  lemma MdcStep(base: string, entries: seq<Field>, i: nat, s: string, value: string)
    requires i < |entries| && s == base + Tail(entries[..i]) && value == JsonString(entries[i].1)
    ensures s + (",\"" + entries[i].0 + "\":" + value) == base + Tail(entries[..i + 1])
  {
    MemberText(entries[i].0, entries[i].1);
    Extend(base, entries[..i], entries[i], ",\"" + entries[i].0 + "\":" + value);
    assert entries[..i + 1] == entries[..i] + [entries[i]];
  }

  /** toClef: the fixed members written in turn, the MDC entries in a loop, then the closing brace. */
  method ToClef(e: LogEvent) returns (s: string)
    ensures s == Clef(e)
  {
    s := "{\"" + "@t" + "\":\"" + e.instant + "\"";
    var m := JsonStringOf(e.formattedMessage);
    s := s + (",\"" + "@m" + "\":" + m);
    var level := MapLevel(e.level);
    s := s + (",\"" + "@l" + "\":\"" + level + "\"");
    ghost var exception: Option<string> := None;
    var x := "";
    if e.throwable.Some? {
      var text := FormatException(e.throwable.value);
      exception := Some(text);
      var json := JsonStringOf(Some(text));
      x := ",\"" + "@x" + "\":" + json;
    }
    s := s + x;
    var logger := JsonStringOf(e.loggerName);
    s := s + (",\"" + "SourceContext" + "\":" + logger);
    var thread := JsonStringOf(e.threadName);
    s := s + (",\"" + "ThreadName" + "\":" + thread);
    s := s + (",\"" + "Application" + "\":\"" + APPLICATION + "\"");
    ghost var base := s;
    assert base == FixedText(e.instant, e.formattedMessage, level, exception, e.loggerName, e.threadName);

    var entries := e.mdc.GetOr([]);
    var i := 0;
    while i < |entries|
      invariant 0 <= i <= |entries|
      invariant s == base + Tail(entries[..i])
    {
      var value := JsonStringOf(entries[i].1);
      MdcStep(base, entries, i, s, value);
      s := s + (",\"" + entries[i].0 + "\":" + value);
      i := i + 1;
    }
    WholeSlice(entries);
    s := s + "}";
    ClefFromPieces(e, exception, base, s);
  }

  // ---------------------------------------------------------------- batches

  /** The batch rule of sendLoop and flushQueue: a newline before every event but the first. */
  function AppendEvent(batch: string, event: string): string {
    if |batch| > 0 then batch + "\n" + event else batch + event
  }

  /** The batch built from `events` in order, starting from an empty buffer. */
  function Batch(events: seq<string>): string {
    if events == [] then [] else AppendEvent(Batch(events[..|events| - 1]), events[|events| - 1])
  }

  predicate NonEmptyEvents(events: seq<string>) {
    forall i :: 0 <= i < |events| ==> events[i] != []
  }

  lemma LastSplit<T>(s: seq<T>, x: T)
    ensures (s + [x])[..|s|] == s && (s + [x])[|s|] == x
  {
  }

  lemma BatchSnoc(events: seq<string>, e: string)
    ensures Batch(events + [e]) == AppendEvent(Batch(events), e)
  {
    LastSplit(events, e);
  }

  lemma {:induction false} BatchIsEmptyOnlyWhenNoEvents(events: seq<string>)
    requires NonEmptyEvents(events)
    ensures |Batch(events)| > 0 <==> events != []
  {
    if events != [] {
      var n := |events| - 1;
      assert NonEmptyEvents(events[..n]);
      BatchIsEmptyOnlyWhenNoEvents(events[..n]);
    }
  }

  lemma {:induction false} JoinSnoc(parts: seq<string>, sep: string, e: string)
    requires parts != []
    ensures JoinWith(parts + [e], sep) == JoinWith(parts, sep) + sep + e
  {
    if |parts| == 1 {
      assert (parts + [e])[0] == parts[0] && (parts + [e])[1..] == [e];
    } else {
      assert (parts + [e])[0] == parts[0] && (parts + [e])[1..] == parts[1..] + [e];
      JoinSnoc(parts[1..], sep, e);
    }
  }

  /** A batch of non-empty events is the events joined by single newlines: none before the first, none
      after the last. */
  lemma {:induction false} BatchIsJoin(events: seq<string>)
    requires NonEmptyEvents(events)
    ensures Batch(events) == JoinWith(events, "\n")
  {
    if events != [] {
      var n := |events| - 1;
      var init := events[..n];
      assert NonEmptyEvents(init);
      BatchIsJoin(init);
      BatchIsEmptyOnlyWhenNoEvents(init);
      assert events == init + [events[n]];
      if init != [] {
        JoinSnoc(init, "\n", events[n]);
      }
    }
  }

  /** A batch of events without raw newlines splits back into the events. */
  lemma {:induction false} SplitJoin(events: seq<string>)
    requires events != []
    requires forall i :: 0 <= i < |events| ==> '\n' !in events[i]
    ensures SplitOn(JoinWith(events, "\n"), '\n') == events
  {
    if |events| == 1 {
      SplitOnPiece(events[0], [], '\n');
      assert events[0] + [] == events[0];
    } else {
      var rest := JoinWith(events[1..], "\n");
      SplitJoin(events[1..]);
      assert JoinWith(events, "\n") == events[0] + ("\n" + rest);
      SplitOnPiece(events[0], "\n" + rest, '\n');
      assert ("\n" + rest)[0] == '\n' && ("\n" + rest)[1..] == rest;
      assert SplitOn("\n" + rest, '\n') == [[]] + events[1..];
      assert events[0] + [] == events[0];
      assert [events[0]] + events[1..] == events;
    }
  }

  /** The events of a batch of CLEF records, read back by splitting it into lines. */
  lemma BatchOfRecordsSplits(logs: seq<LogEvent>)
    requires logs != []
    requires forall i :: 0 <= i < |logs| ==> PlainMdcKeys(logs[i])
    ensures var records := seq(|logs|, i requires 0 <= i < |logs| => Clef(logs[i]));
            SplitOn(Batch(records), '\n') == records
  {
    var records := seq(|logs|, i requires 0 <= i < |logs| => Clef(logs[i]));
    forall i | 0 <= i < |records| ensures records[i] != [] && '\n' !in records[i] {
      ClefIsOneLine(logs[i]);
      ClefShape(logs[i]);
    }
    BatchIsJoin(records);
    SplitJoin(records);
  }

  /** sendLoop's flush rule: a full batch, a batch older than the flush interval, or any batch once the
      appender is stopping. */
  predicate ShouldFlush(count: nat, elapsed: int, running: bool) {
    count >= BATCH_SIZE || (count > 0 && elapsed >= FLUSH_INTERVAL_MS) || (!running && count > 0)
  }

  /** An empty batch is never sent; a full one always is; so is any batch once the appender stops;
      and a partial batch waits while the appender runs and the interval has not passed. */
  lemma FlushRule(count: nat, elapsed: int, running: bool)
    ensures ShouldFlush(count, elapsed, running) ==> count > 0
    ensures count >= BATCH_SIZE ==> ShouldFlush(count, elapsed, running)
    ensures !running && count > 0 ==> ShouldFlush(count, elapsed, running)
    ensures count < BATCH_SIZE && elapsed < FLUSH_INTERVAL_MS && running ==> !ShouldFlush(count, elapsed, running)
  {
  }

  /** flushQueue's join loop: the events polled one at a time into a newline-separated buffer. */
  method JoinEvents(events: seq<string>) returns (b: string)
    ensures b == Batch(events)
  {
    b := [];
    var rest := events;
    ghost var polled: seq<string> := [];
    while rest != []
      invariant polled + rest == events
      invariant b == Batch(polled)
      decreases |rest|
    {
      var event := rest[0];
      if |b| > 0 {
        b := b + "\n";
      }
      b := b + event;
      BatchSnoc(polled, event);
      MoveHead(polled, rest);
      polled := polled + [event];
      rest := rest[1..];
    }
    assert polled + [] == polled;
  }

  lemma MoveHead(done: seq<string>, rest: seq<string>)
    requires rest != []
    ensures done + rest == (done + [rest[0]]) + rest[1..]
  {
    assert rest == [rest[0]] + rest[1..];
  }

  /** The events of the sent batches, in sending order. */
  ghost function Flatten(batches: seq<seq<string>>): seq<string> {
    if batches == [] then [] else Flatten(batches[..|batches| - 1]) + batches[|batches| - 1]
  }

  lemma FlattenSnoc(batches: seq<seq<string>>, b: seq<string>)
    ensures Flatten(batches + [b]) == Flatten(batches) + b
  {
    LastSplit(batches, b);
  }

  lemma TakeHead(f: seq<string>, p: seq<string>, q: seq<string>)
    requires q != []
    ensures f + p + q == f + (p + [q[0]]) + q[1..]
  {
    assert q == [q[0]] + q[1..];
  }

  lemma Regroup3(f: seq<string>, p: seq<string>, q: seq<string>)
    ensures f + p + q == (f + p) + [] + q
  {
    assert (f + p) + [] == f + p;
  }

  lemma BatchOne(x: string)
    ensures Batch([x]) == x
  {
    LastSplit([], x);
    assert [] + [x] == [x];
    assert [] + x == x;
  }

  /** The conservation bookkeeping of a corrected stop: the pending batch, then the queue. */
  lemma StopConserves(f: seq<string>, p: seq<string>, q: seq<string>, batches: seq<seq<string>>)
    requires Flatten(batches) == f
    ensures var withBatch := batches + (if p == [] then [] else [p]);
            Flatten(withBatch + (if q == [] then [] else [q])) == f + p + q
  {
    var withBatch := batches + (if p == [] then [] else [p]);
    if p == [] {
      assert withBatch == batches;
      assert f + p == f;
    } else {
      FlattenSnoc(batches, p);
    }
    if q == [] {
      assert withBatch + [] == withBatch;
      assert f + p + q == f + p;
    } else {
      FlattenSnoc(withBatch, q);
    }
  }

  /** The sent payloads are the batches of their events, none of them empty. */
  ghost predicate SentBatches(sent: seq<string>, batches: seq<seq<string>>) {
    && |sent| == |batches|
    && (forall i :: 0 <= i < |batches| ==> batches[i] != [] && NonEmptyEvents(batches[i]))
    && (forall i :: 0 <= i < |sent| ==> sent[i] == Batch(batches[i]))
  }

  lemma SentBatchesSnoc(sent: seq<string>, batches: seq<seq<string>>, b: seq<string>)
    requires SentBatches(sent, batches) && b != [] && NonEmptyEvents(b)
    ensures SentBatches(sent + [Batch(b)], batches + [b])
  {
  }

  lemma NonEmptyEventsSnoc(events: seq<string>, e: string)
    requires NonEmptyEvents(events) && e != []
    ensures NonEmptyEvents(events + [e])
  {
  }

  /** The appender's state. `queue` is the bounded blocking queue; `batch`, `count` and `lastFlush` are the
      sender thread's locals; `sent` lists the payloads handed to sendToSeq. The ghost fields record which
      events make up the sender's batch (`pending`) and each sent payload (`batches`), and every record
      the queue accepted (`accepted`). The sender thread is modelled as the steps it takes, so its
      running and the appender's `running` flag coincide. */
  class SeqAppender {
    var started: bool
    var running: bool
    var queue: seq<string>
    var batch: string
    var count: nat
    var lastFlush: int
    var sent: seq<string>
    ghost var pending: seq<string>
    ghost var batches: seq<seq<string>>
    ghost var accepted: seq<string>

    /** Everything but the batch bound, which holds again once a turn of the sender loop ends. */
    ghost predicate Core()
      reads this
    {
      && |queue| <= QUEUE_SIZE
      && NonEmptyEvents(queue)
      && NonEmptyEvents(pending)
      && batch == Batch(pending)
      && count == |pending|
      && SentBatches(sent, batches)
      // While the sender runs, every accepted record is sent, batched or queued, once and in order.
      && (running ==> accepted == Flatten(batches) + pending + queue)
    }

    ghost predicate Valid()
      reads this
    {
      Core() && count < BATCH_SIZE
    }

    constructor()
      ensures Valid() && !started && !running && queue == [] && batch == [] && count == 0 && sent == []
    {
      started := false;
      running := false;
      queue := [];
      batch := [];
      count := 0;
      lastFlush := 0;
      sent := [];
      pending := [];
      batches := [];
      accepted := [];
    }

    /** start(): a fresh empty queue, the running flag, and a new sender thread with an empty batch whose
        flush clock starts at `now`. */
    method Start(now: int)
      requires Valid() && !started
      modifies this
      ensures Valid() && started && running
      ensures queue == [] && batch == [] && count == 0 && lastFlush == now && sent == old(sent)
      ensures accepted == Flatten(batches) && batches == old(batches)
    {
      queue := [];
      running := true;
      batch := [];
      count := 0;
      lastFlush := now;
      pending := [];
      accepted := Flatten(batches);
      assert accepted + [] + [] == accepted;
      started := true;
    }

    /** append(): ignored before start; otherwise the event's CLEF record is offered to the queue and
        dropped when the queue is full. */
    method Append(e: LogEvent)
      requires Valid()
      modifies this
      ensures Valid()
      ensures queue == if old(started) && |old(queue)| < QUEUE_SIZE then old(queue) + [Clef(e)] else old(queue)
      ensures accepted == if old(started) && |old(queue)| < QUEUE_SIZE then old(accepted) + [Clef(e)] else old(accepted)
      ensures started == old(started) && running == old(running) && batch == old(batch) && count == old(count)
      ensures lastFlush == old(lastFlush) && sent == old(sent) && pending == old(pending) && batches == old(batches)
    {
      if !started {
        return;
      }
      var clef := ToClef(e);
      ClefShape(e);
      if |queue| < QUEUE_SIZE {
        NonEmptyEventsSnoc(queue, clef);
        queue := queue + [clef];
        accepted := accepted + [clef];
      }
    }

    /** The poll of a sendLoop turn: the queue's head, if any, joins the batch. */
    method Poll()
      requires Valid() && running
      modifies this
      ensures Core() && running && count <= BATCH_SIZE
      ensures queue == if old(queue) == [] then [] else old(queue)[1..]
      ensures pending == old(pending) + (if old(queue) == [] then [] else [old(queue)[0]])
      ensures started == old(started) && lastFlush == old(lastFlush) && sent == old(sent)
      ensures batches == old(batches) && accepted == old(accepted)
    {
      if queue != [] {
        var event := queue[0];
        TakeHead(Flatten(batches), pending, queue);
        NonEmptyEventsSnoc(pending, event);
        queue := queue[1..];
        if |batch| > 0 {
          batch := batch + "\n";
        }
        batch := batch + event;
        count := count + 1;
        BatchSnoc(pending, event);
        pending := pending + [event];
      } else {
        assert pending + [] == pending;
      }
    }

    /** The flush of a sendLoop turn at clock time `now`: the batch is sent and restarted when ShouldFlush
        says so. */
    method FlushIfDue(now: int)
      requires Core() && running && count <= BATCH_SIZE
      modifies this
      ensures Valid() && running && queue == old(queue) && started == old(started) && accepted == old(accepted)
      ensures if ShouldFlush(old(count), now - old(lastFlush), true)
              then sent == old(sent) + [old(batch)] && batch == [] && count == 0 && lastFlush == now
                   && pending == [] && batches == old(batches) + [old(pending)]
              else sent == old(sent) && batch == old(batch) && count == old(count) && lastFlush == old(lastFlush)
                   && pending == old(pending) && batches == old(batches)
    {
      var shouldFlush := count >= BATCH_SIZE || (count > 0 && now - lastFlush >= FLUSH_INTERVAL_MS) || (!running && count > 0);
      if shouldFlush {
        SentBatchesSnoc(sent, batches, pending);
        FlattenSnoc(batches, pending);
        Regroup3(Flatten(batches), pending, queue);
        sent := sent + [batch];
        batches := batches + [pending];
        batch := [];
        count := 0;
        pending := [];
        lastFlush := now;
      }
    }

    /** One turn of sendLoop while the appender runs, at clock time `now`: poll one record into the
        batch if the queue has one, then send the batch when ShouldFlush says so. */
    method SendStep(now: int)
      requires Valid() && running
      modifies this
      ensures Valid() && running && started == old(started)
      ensures queue == if old(queue) == [] then [] else old(queue)[1..]
      ensures var events := old(pending) + (if old(queue) == [] then [] else [old(queue)[0]]);
              if ShouldFlush(|events|, now - old(lastFlush), true)
              then sent == old(sent) + [Batch(events)] && batch == [] && count == 0 && lastFlush == now
              else sent == old(sent) && batch == Batch(events) && count == |events| && lastFlush == old(lastFlush)
    {
      Poll();
      FlushIfDue(now);
    }

    /** flushQueue(): drains the queue into one batch, sent only when it is not empty. It is called only
        by stop, after the running flag is cleared. */
    method FlushQueue()
      requires Valid() && !running
      modifies this
      ensures Valid() && queue == [] && !running && started == old(started)
      ensures batch == old(batch) && count == old(count) && pending == old(pending)
      ensures sent == old(sent) + (if old(queue) == [] then [] else [Batch(old(queue))])
      ensures batches == old(batches) + (if old(queue) == [] then [] else [old(queue)])
    {
      var b := JoinEvents(queue);
      BatchIsEmptyOnlyWhenNoEvents(queue);
      if |b| > 0 {
        SentBatchesSnoc(sent, batches, queue);
        sent := sent + [b];
        batches := batches + [queue];
      } else {
        assert sent + [] == sent && batches + [] == batches;
      }
      queue := [];
    }

    /** The sender's batch sent on the way out of its loop, which the corrected stop needs. */
    method SendPending()
      requires Valid() && !running
      modifies this
      ensures Valid() && !running && batch == [] && count == 0 && pending == []
      ensures queue == old(queue) && started == old(started)
      ensures sent == old(sent) + (if old(batch) == [] then [] else [old(batch)])
      ensures batches == old(batches) + (if old(pending) == [] then [] else [old(pending)])
    {
      BatchIsEmptyOnlyWhenNoEvents(pending);
      if count > 0 {
        SentBatchesSnoc(sent, batches, pending);
        sent := sent + [batch];
        batches := batches + [pending];
        batch := [];
        count := 0;
        pending := [];
      } else {
        assert sent + [] == sent && batches + [] == batches;
      }
    }

    /** The corrected sender's exit: its batch is sent, then flushQueue sends what is left queued. */
    method Drain()
      requires Valid() && !running
      modifies this
      ensures Valid() && !running && queue == [] && batch == [] && count == 0 && started == old(started)
      ensures sent == old(sent) + (if old(batch) == [] then [] else [old(batch)])
                                + (if old(queue) == [] then [] else [Batch(old(queue))])
      ensures batches == old(batches) + (if old(pending) == [] then [] else [old(pending)])
                                      + (if old(queue) == [] then [] else [old(queue)])
      ensures Flatten(batches) == Flatten(old(batches)) + old(pending) + old(queue)
    {
      StopConserves(Flatten(batches), pending, queue, batches);
      SendPending();
      FlushQueue();
    }

    /** stop() as the source has it: the running flag is cleared and the sender thread, blocked in its
        poll, is interrupted and leaves its loop without sending its batch; then the queue is flushed. */
    method StopAsWritten()
      requires Valid()
      modifies this
      ensures Valid() && !started && !running && queue == [] && batch == [] && count == 0
      ensures sent == old(sent) + (if old(queue) == [] then [] else [Batch(old(queue))])
    {
      running := false;
      batch := [];
      count := 0;
      pending := [];
      FlushQueue();
      started := false;
    }

    /** stop() with the sender's batch sent before the queue is flushed: every record the queue
        accepted is then sent, once and in order. */
    method Stop()
      requires Valid()
      modifies this
      ensures Valid() && !started && !running && queue == [] && batch == [] && count == 0
      ensures sent == old(sent) + (if old(batch) == [] then [] else [old(batch)])
                                + (if old(queue) == [] then [] else [Batch(old(queue))])
      ensures old(running) ==> Flatten(batches) == old(accepted)
    {
      running := false;
      Drain();
      started := false;
    }
  }

  /** Every sent payload is its events joined by single newlines. */
  lemma SentPayloadsAreJoins(a: SeqAppender)
    requires a.Valid()
    ensures forall i :: 0 <= i < |a.sent| ==> a.sent[i] == JoinWith(a.batches[i], "\n")
  {
    forall i | 0 <= i < |a.sent| ensures a.sent[i] == JoinWith(a.batches[i], "\n") {
      BatchIsJoin(a.batches[i]);
    }
  }

  /** An event appended and polled into the sender's batch shortly before stop() is never sent by the
      appender as written. */
  method LostOnStop(e: LogEvent) returns (sent: seq<string>)
    ensures sent == []
  {
    var a := new SeqAppender();
    a.Start(0);
    a.Append(e);
    a.SendStep(10);
    a.StopAsWritten();
    sent := a.sent;
  }

  /** With the corrected stop() the same event is sent, as a one-record batch. */
  method DeliveredOnStop(e: LogEvent) returns (sent: seq<string>)
    ensures sent == [Clef(e)]
  {
    var a := new SeqAppender();
    a.Start(0);
    a.Append(e);
    a.SendStep(10);
    assert [] + [Clef(e)] == [Clef(e)];
    BatchOne(Clef(e));
    a.Stop();
    sent := a.sent;
  }
}
