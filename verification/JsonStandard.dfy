/** Strings as RFC 8259, section 7 has them, and exactly where the program's differ. */
module JsonStandard {
  import opened Optional
  import opened SettingsText
  import opened SettingsExport

  /** The two-character escapes. */
  function StandardUnescaped(c: char): Option<char> {
    if c == '"' then Some('"')
    else if c == '\\' then Some('\\')
    else if c == '/' then Some('/')
    else if c == 'b' then Some(8 as char)
    else if c == 'f' then Some(12 as char)
    else if c == 'n' then Some(10 as char)
    else if c == 'r' then Some(13 as char)
    else if c == 't' then Some(9 as char)
    else None
  }

  /** The program reads every escape of two characters as the standard does, but for
      backspace and form feed, which it rejects. */
  lemma UnescapesExactlyWhen(c: char)
    ensures Unescaped(c) == StandardUnescaped(c) <==> c != 'b' && c != 'f'
    ensures Unescaped(c) != StandardUnescaped(c) ==> Unescaped(c) == None
  {}

  predicate IsHex(c: char) { '0' <= c <= '9' || 'a' <= c <= 'f' || 'A' <= c <= 'F' }

  function HexDigit(c: char): (n: nat)
    requires IsHex(c)
    ensures n < 16
  {
    if c <= '9' then c as int - 48 else if c <= 'F' then c as int - 55 else c as int - 87
  }

  /** The four hexadecimal digits after `\u`: a code unit, as one character. */
  function CodeUnit(s: string): Option<char> {
    if |s| < 4 || !IsHex(s[0]) || !IsHex(s[1]) || !IsHex(s[2]) || !IsHex(s[3]) then None else
      var n := ((HexDigit(s[0]) * 16 + HexDigit(s[1])) * 16 + HexDigit(s[2])) * 16 + HexDigit(s[3]);
      if 0xD800 <= n <= 0xDFFF then None else Some(n as char)
  }

  /** A string after its opening quote: its value and what follows the closing one. */
  function StandardBody(s: string): Option<(string, string)> {
    if s == "" || s[0] as int < 0x20 then None
    else if s[0] == '"' then Some(("", s[1..]))
    else if s[0] != '\\' then
      var (value, rest) :- StandardBody(s[1..]);
      Some(([s[0]] + value, rest))
    else if |s| == 1 then None
    else if s[1] == 'u' then
      var c :- CodeUnit(s[2..]);
      var (value, rest) :- StandardBody(s[6..]);
      Some(([c] + value, rest))
    else
      var c :- StandardUnescaped(s[1]);
      var (value, rest) :- StandardBody(s[2..]);
      Some(([c] + value, rest))
  }

  /** A control character that the program writes as it is. */
  predicate IsBareControl(c: char) { c as int < 0x20 && c != '\n' && c != '\r' && c != '\t' }

  ghost predicate HasBareControl(s: string) { exists i :: 0 <= i < |s| && IsBareControl(s[i]) }

  lemma EscapedChar(c: char, tail: string)
    ensures IsBareControl(c) ==> StandardBody(EscapeChar(c) + tail) == None
    ensures !IsBareControl(c) ==>
      StandardBody(EscapeChar(c) + tail) == match StandardBody(tail)
        case Some(p) => Some(([c] + p.0, p.1))
        case None => None
  {
    var text := EscapeChar(c) + tail;
    assert text[0] == EscapeChar(c)[0] && text[|EscapeChar(c)|..] == tail;
    if |EscapeChar(c)| == 2 { assert text[1] == EscapeChar(c)[1]; }
  }

  lemma BareControlInFront(s: string)
    requires s != ""
    ensures HasBareControl(s) <==> IsBareControl(s[0]) || HasBareControl(s[1..])
  {
    if i :| 0 <= i < |s[1..]| && IsBareControl(s[1..][i]) { assert s[i + 1] == s[1..][i]; }
    if i :| 0 <= i < |s| && IsBareControl(s[i]) { assert i > 0 ==> s[1..][i - 1] == s[i]; }
  }

  /** What the program writes is a standard string, with the same value, if and only if
      the text has no control character but line feed, carriage return and tab. */
  lemma {:induction false} WritesStandardExactlyWhen(s: string, rest: string)
    ensures StandardBody(Escape(s) + "\"" + rest) == if HasBareControl(s) then None else Some((s, rest))
  {
    hide EscapeChar;
    if s == "" {
      assert Escape(s) + "\"" + rest == "\"" + rest;
      EndsThere(rest);
    } else {
      var tail := Escape(s[1..]) + "\"" + rest;
      WritesStandardExactlyWhen(s[1..], rest);
      BareControlInFront(s);
      assert Escape(s) + "\"" + rest == EscapeChar(s[0]) + tail;
      EscapedChar(s[0], tail);
      assert [s[0]] + s[1..] == s;
    }
  }

  lemma EndsThere(rest: string)
    ensures StandardBody("\"" + rest) == Some(("", rest))
  {
    assert ("\"" + rest)[1..] == rest;
  }

  /** An escape that the program rejects: backspace, form feed or a code unit. */
  predicate Rejected(s: string) { |s| > 1 && s[0] == '\\' && (s[1] == 'b' || s[1] == 'f' || s[1] == 'u') }

  /** A standard string up to its closing quote has one of these escapes. */
  predicate HasRejected(s: string) {
    if s == "" || s[0] == '"' then false
    else if s[0] != '\\' then HasRejected(s[1..])
    else Rejected(s) || (|s| > 1 && HasRejected(s[2..]))
  }

  /** The program reads a standard string, and then as the standard does, if and only if
      it has none of them. */
  lemma {:induction false} ReadsStandardExactlyWhen(s: string)
    requires StandardBody(s).Some?
    ensures ReadBody(s) == if HasRejected(s) then None else StandardBody(s)
    decreases |s|
  {
    if s[0] == '"' {
    } else if s[0] != '\\' {
      ReadsStandardExactlyWhen(s[1..]);
    } else if !Rejected(s) {
      UnescapesExactlyWhen(s[1]);
      ReadsStandardExactlyWhen(s[2..]);
    }
  }

  /** White space between tokens (section 2). */
  lemma WhitespaceIsStandard(c: char)
    ensures IsSpace(c) <==> c as int in {0x20, 0x09, 0x0A, 0x0D}
  {}
}
