/**
 The cursor parser of the settings export.  Each method moves the cursor over the
 text that SettingsText says it reads; a None result is the thrown exception.
 */
module JsonReading {
  import opened Optional
  import opened Decimal
  import T = SettingsText
  import SettingsExport

  class JsonReader {
    const text: string
    var position: nat

    ghost predicate Valid()
      reads this
    {
      position <= |text|
    }

    /** The text that is still to be read. */
    ghost function Rest(): string
      requires Valid()
      reads this
    {
      text[position..]
    }

    constructor (source: string)
      ensures Valid() && Rest() == source
    {
      text := source;
      position := 0;
    }

    method SkipWhitespace()
      requires Valid()
      modifies this
      ensures Valid() && Rest() == T.SkipWhitespace(old(Rest()))
    {
      while position < |text| && T.IsSpace(text[position])
        invariant Valid() && T.SkipWhitespace(Rest()) == T.SkipWhitespace(old(Rest()))
      {
        assert Rest()[1..] == text[position + 1..];
        position := position + 1;
      }
    }

    method Consume(expected: char) returns (found: bool)
      requires Valid()
      modifies this
      ensures Valid() && (found, Rest()) == T.Consume(old(Rest()), expected)
    {
      SkipWhitespace();
      if position >= |text| || text[position] != expected {
        return false;
      }
      position := position + 1;
      return true;
    }

    /** False stands for the thrown exception. */
    method Expect(expected: char) returns (ok: bool)
      requires Valid()
      modifies this
      ensures Valid()
      ensures if ok then Some(Rest()) == T.Expect(old(Rest()), expected) else T.Expect(old(Rest()), expected).None?
    {
      SkipWhitespace();
      if position >= |text| || text[position] != expected {
        return false;
      }
      position := position + 1;
      return true;
    }

    /** What remains to be read, put after what has been read. */
    static ghost function After(value: string, body: Option<(string, string)>): Option<(string, string)> {
      match body case Some(p) => Some((value + p.0, p.1)) case None => None
    }

    method ReadString() returns (result: Option<string>)
      requires Valid()
      modifies this
      ensures Valid()
      ensures match T.ReadString(old(Rest()))
              case Some(p) => result == Some(p.0) && Rest() == p.1
              case None => result.None?
    {
      hide T.ReadBody;
      var ok := Expect('"');
      if !ok {
        return None;
      }
      result := ReadBody();
    }

    /** The string loop, after the opening quote. */
    method ReadBody() returns (result: Option<string>)
      requires Valid()
      modifies this
      ensures Valid()
      ensures match T.ReadBody(old(Rest()))
              case Some(p) => result == Some(p.0) && Rest() == p.1
              case None => result.None?
    {
      ghost var body := T.ReadBody(Rest());
      var value := "";
      assert After("", body) == body by { if body.Some? { assert "" + body.value.0 == body.value.0; } }
      while position < |text|
        invariant Valid() && body == After(value, T.ReadBody(Rest()))
      {
        ghost var before := Rest();
        var current := text[position];
        position := position + 1;
        assert before[1..] == Rest() && before[0] == current;
        if current == '"' {
          assert value + "" == value;
          return Some(value);
        }
        if current != '\\' {
          ExtendValue(value, current, Rest());
          value := value + [current];
          continue;
        }
        if position >= |text| {
          return None;
        }
        var escaped := T.Unescaped(text[position]);
        position := position + 1;
        assert before[2..] == Rest();
        if escaped.None? {
          return None;
        }
        ExtendValue(value, escaped.value, Rest());
        value := value + [escaped.value];
      }
      return None;
    }

    static lemma ExtendValue(value: string, c: char, rest: string)
      ensures match T.ReadBody(rest)
              case Some(p) => After(value, Some(([c] + p.0, p.1))) == After(value + [c], T.ReadBody(rest))
              case None => After(value + [c], T.ReadBody(rest)) == None
    {
      if T.ReadBody(rest).Some? {
        assert value + ([c] + T.ReadBody(rest).value.0) == value + [c] + T.ReadBody(rest).value.0;
      }
    }

    method ExpectKey(expected: string) returns (ok: bool)
      requires Valid()
      modifies this
      ensures Valid()
      ensures if ok then Some(Rest()) == T.ExpectKey(old(Rest()), expected)
        else T.ExpectKey(old(Rest()), expected).None?
    {
      hide T.ReadString, T.Expect;
      var actual := ReadString();
      if actual.None? || actual.value != expected {
        return false;
      }
      ok := Expect(':');
    }

    /** expect(open) and then expectKey(key). */
    method OpenMember(open: char, key: string) returns (ok: bool)
      requires Valid()
      modifies this
      ensures Valid()
      ensures if ok then Some(Rest()) == T.OpenMember(old(Rest()), open, key)
        else T.OpenMember(old(Rest()), open, key).None?
    {
      hide T.ExpectKey, T.Expect;
      ok := Expect(open);
      if ok {
        ok := ExpectKey(key);
      }
    }

    /** The loop over the digits of a number. */
    method SkipDigits()
      requires Valid()
      modifies this`position
      ensures Valid() && old(position) <= position
      ensures position == old(position) + DigitSpan(old(Rest()))
    {
      hide DigitSpan;
      ghost var start := Rest();
      while position < |text| && IsDigit(text[position])
        invariant old(position) <= position <= |text|
        invariant DigitSpan(start) == position - old(position) + DigitSpan(Rest())
      {
        DigitSpanStep(Rest());
        assert Rest()[1..] == text[position + 1..];
        position := position + 1;
      }
      DigitSpanStep(Rest());
    }

    static lemma DigitSpanStep(s: string)
      ensures DigitSpan(s) == if s == "" || !IsDigit(s[0]) then 0 else 1 + DigitSpan(s[1..])
    {}

    method ReadUnsignedMax() returns (result: Option<T.Unsigned>)
      requires Valid()
      modifies this
      ensures Valid()
      ensures match T.ReadUnsigned(old(Rest()))
              case Some(p) => result == Some(p.0) && Rest() == p.1
              case None => result.None?
    {
      hide T.SkipWhitespace, Parse, DigitSpan;
      SkipWhitespace();
      ghost var start := Rest();
      var begin := position;
      SkipDigits();
      assert start[..position - begin] == text[begin..position];
      assert start[position - begin..] == Rest();
      if begin == position {
        EmptyIsNoNumber();
        return None;
      }
      var value := Parse(text[begin..position], UINT64_MAX);
      ParseLimit(text[begin..position]);
      if value.None? {
        return None;
      }
      return Some(value.value as T.Unsigned);
    }

    static lemma EmptyIsNoNumber()
      ensures Parse("", UINT64_MAX) == None
    {}

    static lemma ParseLimit(s: string)
      ensures Parse(s, UINT64_MAX).Some? ==> Parse(s, UINT64_MAX).value <= UINT64_MAX
    {}

    method ReadInt() returns (result: Option<T.Signed>)
      requires Valid()
      modifies this
      ensures Valid()
      ensures match T.ReadInt(old(Rest()))
              case Some(p) => result == Some(p.0) && Rest() == p.1
              case None => result.None?
    {
      hide T.ReadUnsigned;
      var value := ReadUnsignedMax();
      if value.None? || value.value > 0x7FFF_FFFF {
        return None;
      }
      return Some(value.value as T.Signed);
    }

    method ReadBool() returns (result: Option<bool>)
      requires Valid()
      modifies this
      ensures Valid()
      ensures match T.ReadBool(old(Rest()))
              case Some(p) => result == Some(p.0) && Rest() == p.1
              case None => result.None?
    {
      SkipWhitespace();
      if T.StartsWith(text[position..], "true") {
        position := position + 4;
        return Some(true);
      }
      if T.StartsWith(text[position..], "false") {
        position := position + 5;
        return Some(false);
      }
      return None;
    }
  }
}
