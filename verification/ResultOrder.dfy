/** The sort key of a search result and its lexicographic order. */
module ResultOrder {

  datatype Kind = FileName | Content

  datatype Key = Key(root: string, path: string, kind: Kind, line: nat, column: nat, matchLength: nat, lineText: string)

  /** The fields that identify a match, and everything else about it. */
  datatype SearchResult = SearchResult(key: Key, details: nat)

  // Comparisons give -1, 0 or 1.

  function CompareInt(a: int, b: int): int { if a < b then -1 else if a == b then 0 else 1 }

  function CompareText(a: string, b: string): int {
    if a == "" || b == "" then CompareInt(|a|, |b|)
    else if a[0] == b[0] then CompareText(a[1..], b[1..])
    else CompareInt(a[0] as int, b[0] as int)
  }

  function Rank(kind: Kind): int { if kind == FileName then 0 else 1 }

  function Then(first: int, second: int): int { if first != 0 then first else second }

  function Compare(a: Key, b: Key): int {
    Then(CompareText(a.root, b.root), Then(CompareText(a.path, b.path), Then(CompareInt(Rank(a.kind), Rank(b.kind)),
      Then(CompareInt(a.line, b.line), Then(CompareInt(a.column, b.column),
      Then(CompareInt(a.matchLength, b.matchLength), CompareText(a.lineText, b.lineText)))))))
  }

  predicate Less(a: Key, b: Key) { Compare(a, b) < 0 }

  // ---- It is a strict total order ----------------------------------------------------

  /** The comparisons of three values a, b and c. */
  datatype Trio = Trio(ab: int, ba: int, bc: int, ac: int) {
    /** How they must fit together. */
    predicate Fits() {
      && (ab < 0 <==> ba > 0) && (ab > 0 <==> ba < 0)
      && (ab <= 0 && bc <= 0 ==> ac <= 0)
      && ((ab < 0 && bc <= 0) || (ab <= 0 && bc < 0) ==> ac < 0)
    }

    function Next(next: Trio): Trio { Trio(Then(ab, next.ab), Then(ba, next.ba), Then(bc, next.bc), Then(ac, next.ac)) }

    lemma NextFits(next: Trio)
      requires Fits() && next.Fits()
      ensures Next(next).Fits()
    {}
  }

  function Ints(a: int, b: int, c: int): Trio {
    Trio(CompareInt(a, b), CompareInt(b, a), CompareInt(b, c), CompareInt(a, c))
  }

  function Texts(a: string, b: string, c: string): Trio {
    Trio(CompareText(a, b), CompareText(b, a), CompareText(b, c), CompareText(a, c))
  }

  lemma IntsFit(a: int, b: int, c: int)
    ensures Ints(a, b, c).Fits()
  {}

  lemma {:induction false} TextsFit(a: string, b: string, c: string)
    ensures Texts(a, b, c).Fits()
  {
    if a != "" && b != "" && a[0] == b[0] {
      TextsFit(a[1..], b[1..], if c != "" then c[1..] else "");
    }
  }

  lemma {:induction false} TextEqual(a: string, b: string)
    ensures CompareText(a, b) == 0 <==> a == b
  {
    if a != "" && b != "" && a[0] == b[0] {
      TextEqual(a[1..], b[1..]);
      assert a == [a[0]] + a[1..] && b == [b[0]] + b[1..];
    }
  }

  lemma CompareEqual(a: Key, b: Key)
    ensures Compare(a, b) == 0 <==> a == b
  {
    hide CompareText;
    TextEqual(a.root, b.root);
    TextEqual(a.path, b.path);
    TextEqual(a.lineText, b.lineText);
  }

  function Keys(a: Key, b: Key, c: Key): Trio { Trio(Compare(a, b), Compare(b, a), Compare(b, c), Compare(a, c)) }

  lemma KeysFit(a: Key, b: Key, c: Key)
    ensures Keys(a, b, c).Fits()
  {
    hide CompareText, CompareInt, Trio.Fits, Then;
    var text, length := Texts(a.lineText, b.lineText, c.lineText), Ints(a.matchLength, b.matchLength, c.matchLength);
    var column, line := Ints(a.column, b.column, c.column), Ints(a.line, b.line, c.line);
    var kind := Ints(Rank(a.kind), Rank(b.kind), Rank(c.kind));
    var path, root := Texts(a.path, b.path, c.path), Texts(a.root, b.root, c.root);
    TextsFit(a.lineText, b.lineText, c.lineText);
    IntsFit(a.matchLength, b.matchLength, c.matchLength);
    IntsFit(a.column, b.column, c.column);
    IntsFit(a.line, b.line, c.line);
    IntsFit(Rank(a.kind), Rank(b.kind), Rank(c.kind));
    TextsFit(a.path, b.path, c.path);
    TextsFit(a.root, b.root, c.root);
    length.NextFits(text);
    column.NextFits(length.Next(text));
    line.NextFits(column.Next(length.Next(text)));
    kind.NextFits(line.Next(column.Next(length.Next(text))));
    path.NextFits(kind.Next(line.Next(column.Next(length.Next(text)))));
    root.NextFits(path.Next(kind.Next(line.Next(column.Next(length.Next(text))))));
  }

  lemma LessIsTotalOrder(a: Key, b: Key, c: Key)
    ensures !Less(a, a)
    ensures Less(a, b) ==> !Less(b, a)
    ensures Less(a, b) || Less(b, a) || a == b
    ensures Less(a, b) && Less(b, c) ==> Less(a, c)
  {
    hide Compare;
    CompareEqual(a, a);
    CompareEqual(a, b);
    KeysFit(a, b, c);
  }

  // ---- Which order it is -------------------------------------------------------------

  /** Equal up to `k`, where one text ends or has the smaller character. */
  predicate BeforeAt(a: string, b: string, k: nat) {
    k <= |a| && k < |b| && a[..k] == b[..k] && (k == |a| || a[k] < b[k])
  }

  ghost predicate TextBefore(a: string, b: string) { exists k: nat :: BeforeAt(a, b, k) }

  lemma {:induction false} CompareTextMeans(a: string, b: string)
    ensures CompareText(a, b) < 0 <==> TextBefore(a, b)
  {
    if a == "" || b == "" || a[0] != b[0] {
      FirstDiffers(a, b);
    } else {
      CompareTextMeans(a[1..], b[1..]);
      assert a == [a[0]] + a[1..] && b == [b[0]] + b[1..];
      if k: nat :| BeforeAt(a[1..], b[1..], k) {
        assert a[..k + 1] == [a[0]] + a[1..][..k] && b[..k + 1] == [b[0]] + b[1..][..k];
        assert BeforeAt(a, b, k + 1);
      }
      if k: nat :| BeforeAt(a, b, k) {
        assert k > 0 && a[1..][..k - 1] == a[..k][1..] && b[1..][..k - 1] == b[..k][1..];
        assert BeforeAt(a[1..], b[1..], k - 1);
      }
    }
  }

  lemma FirstDiffers(a: string, b: string)
    requires a == "" || b == "" || a[0] != b[0]
    ensures CompareText(a, b) < 0 <==> TextBefore(a, b)
  {
    if k: nat :| BeforeAt(a, b, k) {
      if k > 0 { assert a[..k][0] == a[0] && b[..k][0] == b[0]; }
    }
    if CompareText(a, b) < 0 { assert BeforeAt(a, b, 0); }
  }

  /** Results come by root, then path, file names before contents, then line, column,
      length of the match and text of the line. */
  lemma LessIsLexicographic(a: Key, b: Key)
    ensures Less(a, b) <==>
      || TextBefore(a.root, b.root)
      || (a.root == b.root && TextBefore(a.path, b.path))
      || (a.root == b.root && a.path == b.path && a.kind == FileName && b.kind == Content)
      || (a.root == b.root && a.path == b.path && a.kind == b.kind && BeforeInFile(a, b))
  {
    hide CompareText, TextBefore;
    TextEqual(a.root, b.root);
    TextEqual(a.path, b.path);
    CompareTextMeans(a.root, b.root);
    CompareTextMeans(a.path, b.path);
    CompareTextMeans(a.lineText, b.lineText);
  }

  ghost predicate BeforeInFile(a: Key, b: Key) {
    || a.line < b.line
    || (a.line == b.line && a.column < b.column)
    || (a.line == b.line && a.column == b.column && a.matchLength < b.matchLength)
    || (a.line == b.line && a.column == b.column && a.matchLength == b.matchLength
        && TextBefore(a.lineText, b.lineText))
  }
}
