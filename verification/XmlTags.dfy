/** Attribute lookup in a raw tag body, such as `c r="A1" t='s' /`. */
module XmlTags {
  import opened Optional
  import opened Utf8
  import opened XmlText

  predicate IsWhitespace(c: ByteChar) { c == ' ' || c == '\t' || c == '\n' || c == '\r' || c as int == 12 }

  predicate EndsName(c: ByteChar) { IsWhitespace(c) || c == '=' || c == '/' || c == '>' }

  function TrimLeft(s: Bytes): (r: Bytes)
    ensures |r| <= |s|
  {
    if s != [] && IsWhitespace(s[0]) then TrimLeft(s[1..]) else s
  }

  function NameSize(s: Bytes): (n: nat)
    ensures n <= |s|
  {
    if s == [] || EndsName(s[0]) then 0 else 1 + NameSize(s[1..])
  }

  /** White space, one optional slash, white space. */
  function AfterTagSyntax(s: Bytes): Bytes {
    var trimmed := TrimLeft(s);
    TrimLeft(if trimmed != [] && trimmed[0] == '/' then trimmed[1..] else trimmed)
  }

  function AfterColon(name: Bytes): Bytes {
    if Find(':', name) < |name| then name[Find(':', name) + 1..] else name
  }

  function LocalNameFromTag(s: Bytes): Bytes {
    AfterColon(Lower(AfterTagSyntax(s)[..NameSize(AfterTagSyntax(s))]))
  }

  /** A wanted name with a prefix must match in full, one without in its local part. */
  predicate NamesMatch(name: Bytes, wanted: Bytes) {
    if ':' in wanted then Lower(name) == Lower(wanted) else LocalNameFromTag(name) == Lower(wanted)
  }

  datatype Parsed = Parsed(name: Bytes, raw: Bytes, rest: Bytes)

  /** One attribute: its name, the text between the quotes, and what follows. */
  function NextAttribute(s: Bytes): (a: Option<Parsed>)
    ensures a.Some? ==> |a.value.rest| < |s|
  {
    var start := TrimLeft(s);
    var n := NameSize(start);
    var afterName := TrimLeft(start[n..]);
    if n == 0 || afterName == [] || afterName[0] != '=' then None else
      var quoted := TrimLeft(afterName[1..]);
      if quoted == [] || (quoted[0] != '"' && quoted[0] != '\'') then None else
        var text := quoted[1..];
        var k := Find(quoted[0], text);
        if k == |text| then None else Some(Parsed(start[..n], text[..k], text[k + 1..]))
  }

  function FindAttribute(s: Bytes, wanted: Bytes): Option<Bytes>
    decreases |s|
  {
    match NextAttribute(s)
    case None => None
    case Some(a) => if NamesMatch(a.name, wanted) then Some(Decoded(a.raw)) else FindAttribute(a.rest, wanted)
  }

  function AttributeIn(tag: Bytes, wanted: Bytes): Option<Bytes> {
    var start := AfterTagSyntax(tag);
    if NameSize(start) == 0 then None else FindAttribute(start[NameSize(start)..], wanted)
  }

  // ---- The program's loops ---------------------------------------------------------

  method TrimLeading(text: Bytes) returns (rest: Bytes)
    ensures rest == TrimLeft(text)
  {
    rest := text;
    while rest != [] && IsWhitespace(rest[0])
      invariant TrimLeft(rest) == TrimLeft(text)
      decreases |rest|
    {
      rest := rest[1..];
    }
  }

  method ConsumeName(text: Bytes) returns (name: Bytes, rest: Bytes)
    ensures name == text[..NameSize(text)] && rest == text[NameSize(text)..]
  {
    var size: nat := 0;
    assert text[0..] == text;
    while size < |text| && !EndsName(text[size])
      invariant size <= |text| && NameSize(text) == size + NameSize(text[size..])
    {
      assert text[size..][1..] == text[size + 1..];
      size := size + 1;
    }
    name, rest := text[..size], text[size..];
  }

  method AttributeValue(tagContent: Bytes, wanted: Bytes) returns (value: Option<Bytes>)
    ensures value == AttributeIn(tagContent, wanted)
  {
    hide TrimLeft, NameSize, Decoded, NamesMatch, Find;
    var rest := TrimLeading(tagContent);
    if rest != [] && rest[0] == '/' {
      rest := rest[1..];
    }
    rest := TrimLeading(rest);
    var elementName;
    elementName, rest := ConsumeName(rest);
    if elementName == [] {
      return None;
    }
    while rest != []
      invariant AttributeIn(tagContent, wanted) == FindAttribute(rest, wanted)
      decreases |rest|
    {
      StepIsNext(rest);
      var start := TrimLeading(rest);
      if start == [] || start[0] == '/' || start[0] == '>' {
        return None;
      }
      var name, afterName := ConsumeName(start);
      afterName := TrimLeading(afterName);
      if name == [] || afterName == [] || afterName[0] != '=' {
        return None;
      }
      var quoted := TrimLeading(afterName[1..]);
      if quoted == [] || (quoted[0] != '"' && quoted[0] != '\'') {
        return None;
      }
      var text := quoted[1..];
      var endQuote := Find(quoted[0], text);
      if endQuote == |text| {
        return None;
      }
      if NamesMatch(name, wanted) {
        var decoded := AppendDecodedText(text[..endQuote], []);
        assert decoded == Decoded(text[..endQuote]);
        return Some(decoded);
      }
      rest := text[endQuote + 1..];
    }
    NoMoreAttributes(wanted);
    value := None;
  }

  /** The name of an attribute is empty exactly at the end of the tag. */
  lemma StepIsNext(s: Bytes)
    ensures TrimLeft(s) == [] ==> NextAttribute(s) == None
    ensures TrimLeft(s) != [] && (TrimLeft(s)[0] == '/' || TrimLeft(s)[0] == '>') ==> NextAttribute(s) == None
  {}

  lemma NoMoreAttributes(wanted: Bytes)
    ensures FindAttribute([], wanted) == None
  {}

  // ---- Written tags --------------------------------------------------------------------

  /** An attribute with white space before it and around its equals sign. */
  datatype Attribute = Attribute(before: Bytes, name: Bytes, left: Bytes, right: Bytes, quote: ByteChar,
    value: seq<Piece>)

  /** White space, an optional slash, white space, the element's name, its
      attributes and the end: white space, then nothing, a slash or a bracket. */
  datatype Tag = Tag(lead: Bytes, closing: bool, inner: Bytes, element: Bytes, attributes: seq<Attribute>, tail: Bytes)

  predicate AllWhitespace(s: Bytes) { forall i :: 0 <= i < |s| ==> IsWhitespace(s[i]) }

  predicate IsName(s: Bytes) { s != [] && forall i :: 0 <= i < |s| ==> !EndsName(s[i]) }

  predicate WritableAttribute(a: Attribute) {
    && AllWhitespace(a.before) && AllWhitespace(a.left) && AllWhitespace(a.right)
    && IsName(a.name) && (a.quote == '"' || a.quote == '\'')
    && (forall i :: 0 <= i < |a.value| ==> Writable(a.value[i])) && a.quote !in PrintAll(a.value)
  }

  predicate IsTail(s: Bytes) {
    TrimLeft(s) == [] || TrimLeft(s)[0] == '/' || TrimLeft(s)[0] == '>'
  }

  predicate WritableTag(t: Tag) {
    && AllWhitespace(t.lead) && AllWhitespace(t.inner) && IsName(t.element)
    && (forall i :: 0 <= i < |t.attributes| ==> WritableAttribute(t.attributes[i]))
    && (t.attributes != [] ==> t.attributes[0].before != [])
    && IsTail(t.tail) && (t.tail == [] || EndsName(t.tail[0]))
  }

  function PrintAttribute(a: Attribute, rest: Bytes): Bytes {
    a.before + (a.name + (a.left + (['='] + (a.right + ([a.quote] + (PrintAll(a.value) + ([a.quote] + rest)))))))
  }

  function PrintAttributes(attributes: seq<Attribute>, tail: Bytes): Bytes {
    if attributes == [] then tail else PrintAttribute(attributes[0], PrintAttributes(attributes[1..], tail))
  }

  function PrintTag(t: Tag): Bytes {
    t.lead + ((if t.closing then ['/'] else []) + (t.inner + (t.element + PrintAttributes(t.attributes, t.tail))))
  }

  /** Index of the first attribute whose name matches, or the number of attributes. */
  function FirstMatch(attributes: seq<Attribute>, wanted: Bytes): (i: nat)
    ensures i <= |attributes|
  {
    if attributes == [] || NamesMatch(attributes[0].name, wanted) then 0 else 1 + FirstMatch(attributes[1..], wanted)
  }

  lemma {:induction false} FirstMatchIsFirst(attributes: seq<Attribute>, wanted: Bytes)
    ensures var i := FirstMatch(attributes, wanted);
      && (forall k :: 0 <= k < i ==> !NamesMatch(attributes[k].name, wanted))
      && (i < |attributes| ==> NamesMatch(attributes[i].name, wanted))
  {
    hide NamesMatch;
    if attributes != [] && !NamesMatch(attributes[0].name, wanted) {
      FirstMatchIsFirst(attributes[1..], wanted);
      assert forall k :: 0 < k < |attributes| ==> attributes[1..][k - 1] == attributes[k];
    }
  }

  function MeaningOf(a: Attribute): Bytes
    requires WritableAttribute(a)
  {
    MeaningAll(a.value)
  }

  lemma {:induction false} TrimsWhitespace(space: Bytes, s: Bytes)
    requires AllWhitespace(space) && (s == [] || !IsWhitespace(s[0]))
    ensures TrimLeft(space + s) == s
  {
    if space == [] {
      assert space + s == s;
    } else {
      TrimsWhitespace(space[1..], s);
      assert (space + s)[1..] == space[1..] + s;
    }
  }

  lemma {:induction false} NameIsConsumed(name: Bytes, s: Bytes)
    requires IsName(name) && (s == [] || EndsName(s[0]))
    ensures NameSize(name + s) == |name| && (name + s)[..|name|] == name && (name + s)[|name|..] == s
  {
    assert (name + s)[1..] == name[1..] + s;
    if |name| > 1 {
      NameIsConsumed(name[1..], s);
    }
  }

  lemma AttributeReadsBack(a: Attribute, rest: Bytes)
    requires WritableAttribute(a)
    ensures NextAttribute(PrintAttribute(a, rest)) == Some(Parsed(a.name, PrintAll(a.value), rest))
  {
    hide TrimLeft, NameSize, Find, PrintAll, Writable;
    var raw := PrintAll(a.value);
    var text := raw + ([a.quote] + rest);
    var quoted := [a.quote] + text;
    var afterName := ['='] + (a.right + quoted);
    var named := a.name + (a.left + afterName);
    TrimsWhitespace(a.before, named);
    NameIsConsumed(a.name, a.left + afterName);
    TrimsWhitespace(a.left, afterName);
    TrimsWhitespace(a.right, quoted);
    assert afterName[1..] == a.right + quoted && quoted[1..] == text;
    FindAfter(a.quote, raw, rest);
    assert text[..|raw|] == raw && text[|raw| + 1..] == rest;
  }

  lemma {:induction false} AttributesReadBack(attributes: seq<Attribute>, tail: Bytes, wanted: Bytes)
    requires IsTail(tail) && forall i :: 0 <= i < |attributes| ==> WritableAttribute(attributes[i])
    ensures var i := FirstMatch(attributes, wanted);
      FindAttribute(PrintAttributes(attributes, tail), wanted)
        == if i < |attributes| then Some(MeaningOf(attributes[i])) else None
  {
    hide NextAttribute, PrintAttribute, NamesMatch, WritableAttribute, Decoded, TrimLeft;
    if attributes == [] {
      StepIsNext(tail);
    } else {
      var rest := PrintAttributes(attributes[1..], tail);
      AttributeReadsBack(attributes[0], rest);
      ValueReadsBack(attributes[0]);
      AttributesReadBack(attributes[1..], tail, wanted);
      assert attributes[1..][FirstMatch(attributes[1..], wanted)..]
        == attributes[1 + FirstMatch(attributes[1..], wanted)..];
    }
  }

  lemma ValueReadsBack(a: Attribute)
    requires WritableAttribute(a)
    ensures Decoded(PrintAll(a.value)) == MeaningOf(a)
  {
    hide Decoded, Writable;
    WrittenReadsBack(a.value, []);
    assert PrintAll(a.value) + [] == PrintAll(a.value);
    NothingDecoded(MeaningAll(a.value));
  }

  /** Looking an attribute up in any written tag gives the original value of the
      first attribute whose name matches, and nothing if none does. */
  lemma TagReadsBack(t: Tag, wanted: Bytes)
    requires WritableTag(t)
    ensures forall i :: 0 <= i < |t.attributes| ==> WritableAttribute(t.attributes[i])
    ensures var i := FirstMatch(t.attributes, wanted);
      AttributeIn(PrintTag(t), wanted) == if i < |t.attributes| then Some(MeaningOf(t.attributes[i])) else None
  {
    hide TrimLeft, NameSize, FindAttribute, PrintAttributes, WritableAttribute, IsTail, NamesMatch;
    var attributes := PrintAttributes(t.attributes, t.tail);
    AttributesStart(t);
    var named := t.element + attributes;
    NameStarts(t.element, attributes);
    NameIsConsumed(t.element, attributes);
    TrimsWhitespace(t.inner, named);
    if t.closing {
      var slashed := ['/'] + (t.inner + named);
      TrimsWhitespace(t.lead, slashed);
      assert slashed[1..] == t.inner + named;
    } else {
      assert t.lead + ([] + (t.inner + named)) == (t.lead + t.inner) + named;
      TrimsWhitespace(t.lead + t.inner, named);
      TrimsWhitespace([], named);
      assert [] + named == named;
    }
    AttributesReadBack(t.attributes, t.tail, wanted);
  }

  /** Any value at all can be written, in either quotes, with the five entities escaped. */
  lemma EscapedAttribute(name: Bytes, text: Bytes, quote: ByteChar)
    requires IsName(name) && (quote == '"' || quote == '\'')
    ensures var a := Attribute([' '], name, [], [], quote, EscapedAll(text));
      WritableAttribute(a) && MeaningOf(a) == text
  {
    hide Writable, PrintAll, MeaningAll, IsName;
    EscapedAllMeansItself(text);
    QuotesAreEscaped(text);
  }

  lemma NameStarts(name: Bytes, s: Bytes)
    requires IsName(name)
    ensures (name + s)[0] == name[0] && !EndsName(name[0])
  {}

  lemma AttributesStart(t: Tag)
    requires WritableTag(t)
    ensures forall i :: 0 <= i < |t.attributes| ==> WritableAttribute(t.attributes[i])
    ensures var s := PrintAttributes(t.attributes, t.tail); s == [] || EndsName(s[0])
  {
    hide PrintAll, TrimLeft, Writable;
    if t.attributes != [] {
      var first := t.attributes[0];
      assert PrintAttributes(t.attributes, t.tail)[0] == first.before[0];
    }
  }

  /** A consumed name needs no trimming, so its local part is what follows the colon. */
  lemma LocalNameOfName(name: Bytes)
    requires IsName(name)
    ensures LocalNameFromTag(name) == AfterColon(Lower(name))
  {
    assert name + [] == name && [] + name == name;
    TrimsWhitespace([], name);
    NameIsConsumed(name, []);
  }

  lemma LowerApart(prefix: Bytes, local: Bytes)
    ensures Lower(prefix + [':'] + local) == Lower(prefix) + ([':'] + Lower(local))
    ensures ':' !in prefix ==> ':' !in Lower(prefix)
  {
    assert forall i :: 0 <= i < |prefix| ==> Lower(prefix)[i] == LowerChar(prefix[i]);
  }

  lemma ColonIsFound(prefix: Bytes, local: Bytes)
    requires ':' !in prefix
    ensures AfterColon(prefix + ([':'] + local)) == local
  {
    FindAfter(':', prefix, local);
    var name := prefix + ([':'] + local);
    assert Find(':', name) == |prefix| && name[|prefix| + 1..] == local;
  }

  /** A wanted name without a prefix matches an attribute's local part, whatever its
      prefix, in letters of either case; one with a prefix matches the whole name. */
  lemma PrefixesMatch(prefix: Bytes, local: Bytes, wanted: Bytes)
    requires ':' !in prefix && IsName(prefix + [':'] + local)
    ensures NamesMatch(prefix + [':'] + local, wanted) <==>
      if ':' in wanted then Lower(prefix + [':'] + local) == Lower(wanted) else Lower(local) == Lower(wanted)
  {
    hide Lower, AfterColon, LocalNameFromTag;
    LocalNameOfName(prefix + [':'] + local);
    LowerApart(prefix, local);
    ColonIsFound(Lower(prefix), Lower(local));
  }

  /** White space is that of XML 1.0, section 2.3, and the form feed besides. */
  lemma WhitespaceIsStandardButFormFeed(c: ByteChar)
    ensures IsWhitespace(c) <==> c as int in {0x20, 0x09, 0x0D, 0x0A} || c as int == 0x0C
  {}
}
