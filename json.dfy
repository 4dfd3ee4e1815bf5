/**
  `JSON.stringify` applied to a JavaScript object whose keys and values are all
  strings, together with a decoder for the text it writes. An object is the
  sequence of its members in the order JavaScript enumerates them; writing an
  object and decoding the text gives the same members back.
 */
module Json {
  import opened Wrappers

  /** One `"key":"value"` member of an object. */
  datatype Member = Member(key: string, value: string)

  const HexDigits: string := "0123456789abcdef"

  /**
    How `JSON.stringify` writes one character inside a string literal: a quote,
    a backslash and the five control characters with a short form get a
    backslash escape; the other control characters get a `\u00XX` escape with
    lower-case hex digits; everything else is written as it is.
   */
  function EscapeChar(c: char): string {
    if c == '"' then ['\\', '"']
    else if c == '\\' then ['\\', '\\']
    else if c as int == 0x08 then ['\\', 'b']
    else if c as int == 0x09 then ['\\', 't']
    else if c as int == 0x0A then ['\\', 'n']
    else if c as int == 0x0C then ['\\', 'f']
    else if c as int == 0x0D then ['\\', 'r']
    else if c as int < 0x20 then ['\\', 'u', '0', '0', HexDigits[c as int / 16], HexDigits[c as int % 16]]
    else [c]
  }

  /** The body of a string literal: every character escaped as needed. */
  function EscapeString(s: string): string {
    if s == [] then [] else EscapeChar(s[0]) + EscapeString(s[1..])
  }

  /** A string literal, quotes included. */
  function Quote(s: string): string {
    "\"" + EscapeString(s) + "\""
  }

  function MemberText(m: Member): string {
    Quote(m.key) + ":" + Quote(m.value)
  }

  /** The members separated by commas, without the braces. */
  function MembersText(ms: seq<Member>): string {
    if ms == [] then []
    else if |ms| == 1 then MemberText(ms[0])
    else MemberText(ms[0]) + "," + MembersText(ms[1..])
  }

  /** `JSON.stringify(object)`: braces around the members, no white space. */
  function Stringify(ms: seq<Member>): (text: string)
    ensures |text| >= 2 && text[0] == '{' && text[|text| - 1] == '}'
    ensures text == "{}" <==> ms == []
  {
    var text := "{" + MembersText(ms) + "}";
    assert ms != [] ==> MembersText(ms)[0] == '"';
    text
  }

  /** The value of a hexadecimal digit, either case. */
  function HexValue(c: char): (v: Option<nat>)
    ensures v.Some? ==> v.value < 16
  {
    if '0' <= c <= '9' then Some(c as int - '0' as int)
    else if 'a' <= c <= 'f' then Some(c as int - 'a' as int + 10)
    else if 'A' <= c <= 'F' then Some(c as int - 'A' as int + 10)
    else None
  }

  /**
    The character an escape stands for, where `s` is what follows the
    backslash, and how many characters of `s` the escape takes.
   */
  function Unescape(s: string): (r: Option<(char, nat)>)
    ensures r.Some? ==> 1 <= r.value.1 <= |s|
  {
    if s == [] then None
    else if s[0] == '"' then Some(('"', 1))
    else if s[0] == '\\' then Some(('\\', 1))
    else if s[0] == '/' then Some(('/', 1))
    else if s[0] == 'b' then Some((0x08 as char, 1))
    else if s[0] == 't' then Some((0x09 as char, 1))
    else if s[0] == 'n' then Some((0x0A as char, 1))
    else if s[0] == 'f' then Some((0x0C as char, 1))
    else if s[0] == 'r' then Some((0x0D as char, 1))
    else if s[0] == 'u' && |s| >= 5 then
      match (HexValue(s[1]), HexValue(s[2]), HexValue(s[3]), HexValue(s[4]))
      case (Some(a), Some(b), Some(c), Some(d)) =>
        var code := a * 4096 + b * 256 + c * 16 + d;
        if 0xD800 <= code < 0xE000 then None else Some((code as char, 5))
      case _ => None
    else None
  }

  /**
    Decodes the body of a string literal, where `s` follows the opening quote:
    the text it stands for and what follows the closing quote.
   */
  function ParseString(s: string): (r: Option<(string, string)>)
    ensures r.Some? ==> |r.value.1| < |s|
    decreases |s|
  {
    if s == [] then None
    else if s[0] == '"' then Some(([], s[1..]))
    else if s[0] == '\\' then
      match Unescape(s[1..])
      case None => None
      case Some((c, n)) =>
        match ParseString(s[1 + n..])
        case None => None
        case Some((t, rest)) => Some(([c] + t, rest))
    else if s[0] as int < 0x20 then None
    else
      match ParseString(s[1..])
      case None => None
      case Some((t, rest)) => Some(([s[0]] + t, rest))
  }

  /** Decodes one member at the start of `s`, and returns what follows it. */
  function ParseMember(s: string): (r: Option<(Member, string)>)
    ensures r.Some? ==> |r.value.1| < |s|
  {
    if s == [] || s[0] != '"' then None
    else
      match ParseString(s[1..])
      case None => None
      case Some((key, afterKey)) =>
        if |afterKey| < 2 || afterKey[0] != ':' || afterKey[1] != '"' then None
        else
          match ParseString(afterKey[2..])
          case None => None
          case Some((value, rest)) => Some((Member(key, value), rest))
  }

  /** Decodes comma-separated members up to the closing brace, which must end `s`. */
  function ParseMembers(s: string): Option<seq<Member>>
    decreases |s|
  {
    match ParseMember(s)
    case None => None
    case Some((m, rest)) =>
      if rest == "}" then Some([m])
      else if rest != [] && rest[0] == ',' then
        match ParseMembers(rest[1..])
        case None => None
        case Some(ms) => Some([m] + ms)
      else None
  }

  /** Decodes an object of string members written without white space. */
  function Parse(text: string): Option<seq<Member>> {
    if text == "{}" then Some([])
    else if text != [] && text[0] == '{' then ParseMembers(text[1..])
    else None
  }

  /** Each of the sixteen hex digits decodes to its position. */
  lemma HexDigitValue(d: nat)
    requires d < 16
    ensures HexValue(HexDigits[d]) == Some(d)
  {
  }

  /**
    A character written as an escape decodes back to itself, taking exactly
    the escape's characters; any other character is written as itself and is
    neither a quote, a backslash nor a control character.
   */
  lemma UnescapeEscapeChar(c: char, rest: string)
    ensures |EscapeChar(c)| >= 1
    ensures |EscapeChar(c)| == 1 ==>
      EscapeChar(c) == [c] && c != '"' && c != '\\' && c as int >= 0x20
    ensures |EscapeChar(c)| > 1 ==>
      EscapeChar(c)[0] == '\\' &&
      Unescape(EscapeChar(c)[1..] + rest) == Some((c, |EscapeChar(c)| - 1))
  {
    var e := EscapeChar(c);
    if c as int < 0x20 && c as int !in {0x08, 0x09, 0x0A, 0x0C, 0x0D} {
      var hi, lo := c as int / 16, c as int % 16;
      HexDigitValue(hi);
      HexDigitValue(lo);
      var s := e[1..] + rest;
      assert s[0] == 'u' && s[1] == '0' && s[2] == '0' && s[3] == HexDigits[hi] && s[4] == HexDigits[lo];
      assert hi * 16 + lo == c as int;
    }
  }

  /** `r` with `c` put in front of the decoded text. */
  function Prepend(c: char, r: Option<(string, string)>): Option<(string, string)> {
    match r
    case None => None
    case Some((t, rest)) => Some(([c] + t, rest))
  }

  /** Decoding the way one character is written gives that character, then goes on with what follows. */
  lemma ParseEscapeChar(c: char, tail: string)
    ensures ParseString(EscapeChar(c) + tail) == Prepend(c, ParseString(tail))
  {
    var e := EscapeChar(c);
    var input := e + tail;
    UnescapeEscapeChar(c, tail);
    if |e| == 1 {
      assert input[0] == c && input[1..] == tail;
    } else {
      assert input[0] == '\\' && input[1..] == e[1..] + tail;
      assert input[1 + (|e| - 1)..] == tail;
    }
  }

  /** Decoding an escaped string body followed by the closing quote gives the string back. */
  lemma {:induction false} ParseEscapeString(s: string, rest: string)
    ensures ParseString(EscapeString(s) + "\"" + rest) == Some((s, rest))
  {
    if s == [] {
      assert EscapeString(s) + "\"" + rest == "\"" + rest;
    } else {
      var tail := EscapeString(s[1..]) + "\"" + rest;
      assert EscapeString(s) + "\"" + rest == EscapeChar(s[0]) + tail;
      ParseEscapeString(s[1..], rest);
      ParseEscapeChar(s[0], tail);
      assert [s[0]] + s[1..] == s;
    }
  }

  /** What follows the key's closing quote in a written member. */
  function AfterKey(m: Member, rest: string): string {
    ":\"" + EscapeString(m.value) + "\"" + rest
  }

  /** Regrouping a written member so that each quoted part starts a suffix. */
  lemma WrittenMemberGrouping(k: string, v: string, rest: string)
    ensures ("\"" + k + "\"") + ":" + ("\"" + v + "\"") + rest == "\"" + (k + "\"" + (":\"" + v + "\"" + rest))
  {
  }

  /** Where the key's body and the value's body sit in a written member. */
  lemma MemberTextShape(m: Member, rest: string)
    ensures (MemberText(m) + rest)[0] == '"'
    ensures (MemberText(m) + rest)[1..] == EscapeString(m.key) + "\"" + AfterKey(m, rest)
    ensures |AfterKey(m, rest)| >= 2 && AfterKey(m, rest)[0] == ':' && AfterKey(m, rest)[1] == '"'
    ensures AfterKey(m, rest)[2..] == EscapeString(m.value) + "\"" + rest
  {
    WrittenMemberGrouping(EscapeString(m.key), EscapeString(m.value), rest);
  }

  /** A member is decoded from a quoted key, a colon and a quoted value. */
  lemma ParseMemberParts(s: string, key: string, afterKey: string, value: string, rest: string)
    requires s != [] && s[0] == '"' && ParseString(s[1..]) == Some((key, afterKey))
    requires |afterKey| >= 2 && afterKey[0] == ':' && afterKey[1] == '"'
    requires ParseString(afterKey[2..]) == Some((value, rest))
    ensures ParseMember(s) == Some((Member(key, value), rest))
  {
  }

  /** Decoding a written member gives it back, and leaves what followed it. */
  lemma ParseMemberText(m: Member, rest: string)
    ensures ParseMember(MemberText(m) + rest) == Some((m, rest))
  {
    MemberTextShape(m, rest);
    ParseEscapeString(m.key, AfterKey(m, rest));
    ParseEscapeString(m.value, rest);
    ParseMemberParts(MemberText(m) + rest, m.key, AfterKey(m, rest), m.value, rest);
  }

  /** A last member is decoded up to the closing brace. */
  lemma ParseLastMember(m: Member)
    ensures ParseMembers(MemberText(m) + "}") == Some([m])
  {
    ParseMemberText(m, "}");
  }

  /** A member followed by a comma is decoded in front of the members after it. */
  lemma ParseMemberThenMore(m: Member, more: string, ms: seq<Member>)
    requires ParseMembers(more) == Some(ms)
    ensures ParseMembers(MemberText(m) + "," + more) == Some([m] + ms)
  {
    var rest := "," + more;
    assert MemberText(m) + "," + more == MemberText(m) + rest;
    ParseMemberText(m, rest);
    assert rest != "}" && rest[1..] == more;
  }

  /** Decoding written members followed by the closing brace gives them back. */
  lemma {:induction false} ParseMembersText(ms: seq<Member>)
    requires ms != []
    ensures ParseMembers(MembersText(ms) + "}") == Some(ms)
  {
    if |ms| == 1 {
      assert MembersText(ms) == MemberText(ms[0]) && ms == [ms[0]];
      ParseLastMember(ms[0]);
    } else {
      var more := MembersText(ms[1..]) + "}";
      assert MembersText(ms) + "}" == MemberText(ms[0]) + "," + more;
      ParseMembersText(ms[1..]);
      ParseMemberThenMore(ms[0], more, ms[1..]);
      assert [ms[0]] + ms[1..] == ms;
    }
  }

  /** What `JSON.stringify` writes for an object decodes to the same members. */
  lemma RoundTrip(ms: seq<Member>)
    ensures Parse(Stringify(ms)) == Some(ms)
  {
    if ms != [] {
      var text := Stringify(ms);
      assert text[1..] == MembersText(ms) + "}";
      ParseMembersText(ms);
    }
  }
}
