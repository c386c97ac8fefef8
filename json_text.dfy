/** JSON string literals: the escaping of SeqAppender.jsonString, and a decoder for string literals
    as section 7 of RFC 8259 defines them, against which the escaping is proved. */
module JsonText {
  import opened Wrappers

  /** The lower-case hex digit of `n`, as %x prints it. */
  function HexDigit(n: nat): (c: char)
    requires n < 16
    ensures c as int >= 0x30
  {
    if n < 10 then (n + '0' as int) as char else (n - 10 + 'a' as int) as char
  }

  /** The value of a hex digit of either case. */
  function HexValue(c: char): (r: Option<nat>)
    ensures r.Some? ==> r.value < 16
  {
    if '0' <= c <= '9' then Some(c as int - '0' as int)
    else if 'a' <= c <= 'f' then Some(c as int - 'a' as int + 10)
    else if 'A' <= c <= 'F' then Some(c as int - 'A' as int + 10)
    else None
  }

  lemma HexRoundTrip(n: nat)
    requires n < 16
    ensures HexValue(HexDigit(n)) == Some(n)
  {
  }

  /** The escape of one character: the five named escapes, \u00xx for the other control characters,
      the character itself otherwise. */
  function EscapeChar(c: char): (s: string)
    ensures |s| >= 1
    ensures forall i :: 0 <= i < |s| ==> s[i] >= ' '
  {
    match c
    case '"' => "\\\""
    case '\\' => "\\\\"
    case '\n' => "\\n"
    case '\r' => "\\r"
    case '\t' => "\\t"
    case _ =>
      if c < ' ' then "\\u00" + [HexDigit(c as int / 16), HexDigit(c as int % 16)]
      else [c]
  }

  function Escape(s: string): (r: string)
    ensures |r| >= |s|
  {
    if s == [] then [] else EscapeChar(s[0]) + Escape(s[1..])
  }

  lemma {:induction false} EscapeAppend(a: string, b: string)
    ensures Escape(a + b) == Escape(a) + Escape(b)
  {
    if a == [] {
      assert a + b == b;
    } else {
      assert (a + b)[0] == a[0] && (a + b)[1..] == a[1..] + b;
      EscapeAppend(a[1..], b);
      calc {
        Escape(a + b);
        EscapeChar(a[0]) + Escape(a[1..] + b);
        EscapeChar(a[0]) + (Escape(a[1..]) + Escape(b));
        (EscapeChar(a[0]) + Escape(a[1..])) + Escape(b);
      }
    }
  }

  /** jsonString: `null` for a null string, otherwise the quoted escape. */
  function JsonString(value: Option<string>): (r: string)
    ensures |r| >= 2
  {
    match value
    case None => "null"
    case Some(v) => "\"" + Escape(v) + "\""
  }

  /** The escaped text contains no raw control character (nor any character below the space). */
  lemma {:induction false} EscapeHasNoControlChars(s: string)
    ensures forall i :: 0 <= i < |Escape(s)| ==> Escape(s)[i] >= ' '
  {
    if s != [] {
      EscapeHasNoControlChars(s[1..]);
      AtLeastSpaceConcat(EscapeChar(s[0]), Escape(s[1..]));
    }
  }

  lemma AtLeastSpaceConcat(a: string, b: string)
    requires forall i :: 0 <= i < |a| ==> a[i] >= ' '
    requires forall i :: 0 <= i < |b| ==> b[i] >= ' '
    ensures forall i :: 0 <= i < |a + b| ==> (a + b)[i] >= ' '
  {
    forall i | 0 <= i < |a + b| ensures (a + b)[i] >= ' ' {
      if i >= |a| {
        assert (a + b)[i] == b[i - |a|];
      }
    }
  }

  /** Text that needs no escaping: no control character, no quote, no backslash. */
  predicate Plain(s: string) {
    forall i :: 0 <= i < |s| ==> s[i] >= ' ' && s[i] != '"' && s[i] != '\\'
  }

  /** Plain text is its own escape, so writing it raw between quotes is the same as jsonString. */
  lemma {:induction false} PlainEscapesToItself(s: string)
    requires Plain(s)
    ensures Escape(s) == s
  {
    if s != [] {
      PlainEscapesToItself(s[1..]);
      assert [s[0]] + s[1..] == s;
    }
  }

  // ---------------------------------------------------------------- the RFC 8259 reading

  /** The value of four hex digits. */
  function Hex4(s: string): (r: Option<nat>)
    requires |s| == 4
    ensures r.Some? ==> r.value < 0x1_0000
  {
    match (HexValue(s[0]), HexValue(s[1]), HexValue(s[2]), HexValue(s[3]))
    case (Some(a), Some(b), Some(c), Some(d)) =>
      assert a * 16 + b < 0x100;
      assert (a * 16 + b) * 16 + c < 0x1000;
      Some(((a * 16 + b) * 16 + c) * 16 + d)
    case _ => None
  }

  /** Puts one decoded character in front of what the rest of the literal decodes to. */
  function Prepend(c: char, r: Option<(string, string)>): Option<(string, string)> {
    match r
    case Some((v, rest)) => Some(([c] + v, rest))
    case None => None
  }

  /** The character a two-character escape \x names. */
  function NamedEscape(x: char): Option<char> {
    match x
    case '"' => Some('"')
    case '\\' => Some('\\')
    case '/' => Some('/')
    case 'b' => Some(8 as char)
    case 'f' => Some(12 as char)
    case 'n' => Some('\n')
    case 'r' => Some('\r')
    case 't' => Some('\t')
    case _ => None
  }

  /** Reads the body of a string literal (section 7 of RFC 8259) up to and including its closing quote,
      returning the decoded value and the text after the quote. Unescaped characters must be at least
      U+0020 and not '\'; escapes are \" \\ \/ \b \f \n \r \t and \uXXXX naming a scalar value
      (surrogate pairs are not read). */
  function ReadString(s: string): (r: Option<(string, string)>)
    ensures r.Some? ==> |r.value.1| < |s|
    decreases |s|
  {
    if s == [] then None
    else if s[0] == '"' then Some(([], s[1..]))
    else if s[0] == '\\' then
      if |s| < 2 then None
      else if NamedEscape(s[1]).Some? then Prepend(NamedEscape(s[1]).value, ReadString(s[2..]))
      else if s[1] == 'u' && |s| >= 6 then
        match Hex4(s[2..6])
        case Some(v) =>
          if v < 0xD800 || 0xE000 <= v then Prepend(v as char, ReadString(s[6..])) else None
        case None => None
      else None
    else if s[0] < ' ' then None
    else Prepend(s[0], ReadString(s[1..]))
  }

  /** Reads a JSON value that is either the literal null or a string literal, returning the rest. */
  function ReadValue(s: string): (r: Option<(Option<string>, string)>)
    ensures r.Some? ==> |r.value.1| < |s|
  {
    if |s| >= 4 && s[..4] == "null" then Some((None, s[4..]))
    else if s != [] && s[0] == '"' then
      match ReadString(s[1..])
      case Some((v, rest)) => Some((Some(v), rest))
      case None => None
    else None
  }

  /** Decodes a whole JSON text that is a string literal or null. */
  function DecodeString(lit: string): Option<Option<string>> {
    match ReadValue(lit)
    case Some((v, rest)) => if rest == [] then Some(v) else None
    case None => None
  }

  lemma ReadEscapedChar(c: char, rest: string)
    ensures ReadString(EscapeChar(c) + rest) == Prepend(c, ReadString(rest))
  {
    if c == '"' {
      ReadNamed('"', c, rest);
    } else if c == '\\' {
      ReadNamed('\\', c, rest);
    } else if c == '\n' {
      ReadNamed('n', c, rest);
    } else if c == '\r' {
      ReadNamed('r', c, rest);
    } else if c == '\t' {
      ReadNamed('t', c, rest);
    } else if c < ' ' {
      ReadControl(c, rest);
    } else {
      ReadPlainChar(c, rest);
    }
  }

  lemma ReadNamed(x: char, c: char, rest: string)
    requires NamedEscape(x) == Some(c) && EscapeChar(c) == ['\\', x]
    ensures ReadString(EscapeChar(c) + rest) == Prepend(c, ReadString(rest))
  {
    var s := ['\\', x] + rest;
    assert s[0] == '\\' && s[1] == x && s[2..] == rest;
  }

  lemma ReadControl(c: char, rest: string)
    requires c < ' ' && c != '\n' && c != '\r' && c != '\t'
    ensures ReadString(EscapeChar(c) + rest) == Prepend(c, ReadString(rest))
  {
    var hi := c as int / 16;
    var lo := c as int % 16;
    var digits := ['0', '0', HexDigit(hi), HexDigit(lo)];
    assert EscapeChar(c) == "\\u00" + [HexDigit(hi), HexDigit(lo)];
    HexRoundTrip(hi);
    HexRoundTrip(lo);
    assert Hex4(digits) == Some(c as int);
    ReadUnicode(digits, c as int, rest);
    assert EscapeChar(c) == ['\\', 'u'] + digits;
  }

  lemma ReadUnicode(digits: string, v: nat, rest: string)
    requires |digits| == 4 && Hex4(digits) == Some(v) && (v < 0xD800 || (0xE000 <= v < 0x11_0000))
    ensures ReadString(['\\', 'u'] + digits + rest) == Prepend(v as char, ReadString(rest))
  {
    var s := ['\\', 'u'] + digits + rest;
    assert s[0] == '\\' && s[1] == 'u' && s[2..6] == digits && s[6..] == rest;
    assert NamedEscape('u') == None;
  }

  lemma ReadPlainChar(c: char, rest: string)
    requires c >= ' ' && c != '"' && c != '\\'
    ensures ReadString(EscapeChar(c) + rest) == Prepend(c, ReadString(rest))
  {
    assert EscapeChar(c) == [c];
    var s := [c] + rest;
    assert s[0] == c && s[1..] == rest;
  }

  /** Reading the escape of `v` followed by a closing quote gives back `v` and what follows. */
  lemma {:induction false} ReadEscape(v: string, rest: string)
    ensures ReadString(Escape(v) + "\"" + rest) == Some((v, rest))
  {
    if v == [] {
      assert Escape(v) + "\"" + rest == "\"" + rest;
      assert ("\"" + rest)[1..] == rest;
    } else {
      ReadEscape(v[1..], rest);
      assert Escape(v) + "\"" + rest == EscapeChar(v[0]) + (Escape(v[1..]) + "\"" + rest);
      ReadEscapedChar(v[0], Escape(v[1..]) + "\"" + rest);
      assert [v[0]] + v[1..] == v;
    }
  }

  /** jsonString's output is read back as its argument, whatever text follows it. */
  lemma ReadJsonString(value: Option<string>, rest: string)
    ensures ReadValue(JsonString(value) + rest) == Some((value, rest))
  {
    if value.Some? {
      var e := Escape(value.value);
      var s := QuotedSplit("\"", e, rest);
      ReadEscape(value.value, rest);
    } else {
      var s := "null" + rest;
      assert s[..4] == "null" && s[4..] == rest;
    }
  }

  /** A quoted text followed by `rest`: its first character is the quote, and the body follows it. */
  lemma QuotedSplit(q: string, e: string, rest: string) returns (s: string)
    requires |q| == 1
    ensures s == q + e + q + rest && s[0] == q[0] && s[1..] == e + q + rest
    ensures |s| >= 4 ==> s[..4][0] == q[0]
  {
    s := q + e + q + rest;
  }

  /** jsonString produces a JSON value that reads back as its argument, null included. */
  lemma JsonStringRoundTrip(value: Option<string>)
    ensures DecodeString(JsonString(value)) == Some(value)
  {
    ReadJsonString(value, []);
    assert JsonString(value) + [] == JsonString(value);
  }

  /** Distinct strings are encoded differently. */
  lemma JsonStringInjective(a: Option<string>, b: Option<string>)
    requires JsonString(a) == JsonString(b)
    ensures a == b
  {
    JsonStringRoundTrip(a);
    JsonStringRoundTrip(b);
  }

  /** Control characters are written as \u00 and two lower-case hex digits. */
  lemma ControlEscapeExamples()
    ensures EscapeChar(1 as char) == "\\u0001"
    ensures EscapeChar(31 as char) == "\\u001f"
  {
    assert HexDigit(0) == '0' && HexDigit(1) == '1' && HexDigit(15) == 'f';
  }

  lemma EscapeOne(c: char)
    ensures Escape([c]) == EscapeChar(c)
  {
    assert [c][1..] == [];
  }

  lemma AppendStep(v: string, i: nat, s: string)
    requires i < |v| && s == "\"" + Escape(v[..i])
    ensures s + Escape([v[i]]) == "\"" + Escape(v[..i + 1])
  {
    TakeOneMore(v, i);
    EscapeAppend(v[..i], [v[i]]);
    Associate("\"", Escape(v[..i]), Escape([v[i]]));
  }

  lemma TakeOneMore<T>(v: seq<T>, i: nat)
    requires i < |v|
    ensures v[..i + 1] == v[..i] + [v[i]]
  {
  }

  lemma Associate(a: string, b: string, c: string)
    ensures a + b + c == a + (b + c)
  {
  }

  /** jsonString's loop: the escape of each character appended in turn between the quotes. */
  method JsonStringOf(value: Option<string>) returns (s: string)
    ensures s == JsonString(value)
  {
    if value.None? {
      return "null";
    }
    var v := value.value;
    s := "\"";
    var i := 0;
    while i < |v|
      invariant 0 <= i <= |v|
      invariant s == "\"" + Escape(v[..i])
    {
      var c := v[i];
      var piece: string;
      if c == '"' {
        piece := "\\\"";
      } else if c == '\\' {
        piece := "\\\\";
      } else if c == '\n' {
        piece := "\\n";
      } else if c == '\r' {
        piece := "\\r";
      } else if c == '\t' {
        piece := "\\t";
      } else if c < ' ' {
        piece := "\\u00" + [HexDigit(c as int / 16), HexDigit(c as int % 16)];
      } else {
        piece := [c];
      }
      assert piece == EscapeChar(c);
      EscapeOne(c);
      AppendStep(v, i, s);
      s := s + piece;
      i := i + 1;
    }
    assert v[..|v|] == v;
    s := s + "\"";
  }
}
