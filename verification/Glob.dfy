/**
 The one-star backtracking wildcard matcher (used by the scanner and by the
 ignore rules) and the meaning of `*` and `?`.
 */
module Globbing {

  /** `*` stands for any text, `?` for any one character, others for themselves. */
  ghost predicate Matches(pattern: string, text: string)
    decreases |pattern|
  {
    if pattern == "" then text == ""
    else if pattern[0] == '*' then exists k: nat :: k <= |text| && Matches(pattern[1..], text[k..])
    else text != "" && (pattern[0] == '?' || pattern[0] == text[0]) && Matches(pattern[1..], text[1..])
  }

  /** The first `n` characters fit, one by one; the pattern has no star there. */
  predicate Fits(pattern: string, text: string, n: nat) {
    && n <= |pattern| && n <= |text|
    && forall i :: 0 <= i < n ==> pattern[i] != '*' && (pattern[i] == '?' || pattern[i] == text[i])
  }

  /** What fits can be dropped from both sides. */
  lemma {:induction false} DropSegment(pattern: string, text: string, n: nat)
    requires Fits(pattern, text, n)
    ensures Matches(pattern, text) <==> Matches(pattern[n..], text[n..])
  {
    if n > 0 {
      assert Fits(pattern[1..], text[1..], n - 1);
      DropSegment(pattern[1..], text[1..], n - 1);
      assert pattern[1..][n - 1..] == pattern[n..] && text[1..][n - 1..] == text[n..];
    } else {
      assert pattern[0..] == pattern && text[0..] == text;
    }
  }

  /** A star-free start of the pattern takes as many characters as it has. */
  lemma {:induction false} StarFreeStart(pattern: string, text: string, n: nat)
    requires n <= |pattern| && forall i :: 0 <= i < n ==> pattern[i] != '*'
    requires Matches(pattern, text)
    ensures n <= |text| && Matches(pattern[n..], text[n..])
  {
    if n > 0 {
      StarFreeStart(pattern[1..], text[1..], n - 1);
      assert pattern[1..][n - 1..] == pattern[n..] && text[1..][n - 1..] == text[n..];
    } else {
      assert pattern[0..] == pattern && text[0..] == text;
    }
  }

  /** A leading star also absorbs anything in front of what it matches. */
  lemma StarAbsorbs(pattern: string, text: string, i: nat, j: nat)
    requires pattern != "" && pattern[0] == '*' && i <= j <= |text|
    requires Matches(pattern, text[j..])
    ensures Matches(pattern, text[i..])
  {
    var k: nat :| k <= |text[j..]| && Matches(pattern[1..], text[j..][k..]);
    assert text[j..][k..] == text[i..][j - i + k..];
  }

  /** Stars at the end match the empty text, and nothing else does. */
  lemma {:induction false} EmptyText(pattern: string)
    ensures Matches(pattern, "") <==> forall i :: 0 <= i < |pattern| ==> pattern[i] == '*'
  {
    if pattern != "" {
      EmptyText(pattern[1..]);
      assert ""[0..] == "";
      assert (forall i :: 0 <= i < |pattern| ==> pattern[i] == '*') <==>
        pattern[0] == '*' && forall i :: 0 <= i < |pattern[1..]| ==> pattern[1..][i] == '*';
      if pattern[0] == '*' && Matches(pattern[1..], "") { assert Matches(pattern[1..], ""[0..]); }
    }
  }

  /** A star whose shortest choice fails must absorb one character more. */
  lemma StarSkips(pattern: string, text: string)
    requires pattern != "" && pattern[0] == '*' && text != "" && !Matches(pattern[1..], text)
    ensures Matches(pattern, text) <==> Matches(pattern, text[1..])
  {
    if Matches(pattern, text) {
      var k: nat :| k <= |text| && Matches(pattern[1..], text[k..]);
      assert text[0..] == text && text[k..] == text[1..][k - 1..];
    }
    if Matches(pattern, text[1..]) {
      StarAbsorbs(pattern, text, 0, 1);
      assert text[0..] == text;
    }
  }

  /** What the loop knows: from `pattern[star..]` and `text[starText..]` on, the
      outcome is still open, and everything in between has fitted. */
  ghost predicate Aligned(pattern: string, text: string, p: nat, t: nat, star: int, starText: nat) {
    && p <= |pattern| && t <= |text|
    && (star < 0 ==>
         p == t && Fits(pattern, text, p))
    && (star >= 0 ==>
         && star < |pattern| && pattern[star] == '*' && star < p && starText <= t
         && t - starText == p - (star + 1)
         && Fits(pattern[star + 1..], text[starText..], t - starText)
         && (Matches(pattern, text) <==> Matches(pattern[star..], text[starText..])))
  }

  /** In every aligned state the outcome after the star's shortest choice is that
      of the two remainders. */
  lemma Remainders(pattern: string, text: string, p: nat, t: nat, star: int, starText: nat)
    requires Aligned(pattern, text, p, t, star, starText)
    ensures star < 0 ==> (Matches(pattern, text) <==> Matches(pattern[p..], text[t..]))
    ensures star >= 0 ==> (Matches(pattern[star + 1..], text[starText..]) <==> Matches(pattern[p..], text[t..]))
  {
    if star < 0 {
      DropSegment(pattern, text, p);
    } else {
      DropSegment(pattern[star + 1..], text[starText..], t - starText);
      assert pattern[star + 1..][t - starText..] == pattern[p..];
      assert text[starText..][t - starText..] == text[t..];
    }
  }

  lemma NewStar(pattern: string, text: string, p: nat, t: nat, star: int, starText: nat)
    requires Aligned(pattern, text, p, t, star, starText) && p < |pattern| && pattern[p] == '*'
    ensures Aligned(pattern, text, p + 1, t, p, t)
  {
    Remainders(pattern, text, p, t, star, starText);
    if star >= 0 && Matches(pattern[star..], text[starText..]) {
      var n := t - starText;
      var k: nat :| k <= |text[starText..]| && Matches(pattern[star..][1..], text[starText..][k..]);
      assert pattern[star..][1..] == pattern[star + 1..] && text[starText..][k..] == text[starText + k..];
      StarFreeStart(pattern[star + 1..], text[starText + k..], n);
      assert pattern[star + 1..][n..] == pattern[p..] && text[starText + k..][n..] == text[t + k..];
      assert text[t + k..] == text[t..][k..];
      StarAbsorbs(pattern[p..], text[t..], 0, k);
      assert text[t..][0..] == text[t..];
    }
    if star >= 0 && Matches(pattern[p..], text[t..]) {
      assert pattern[star..][1..] == pattern[star + 1..] && text[starText..][0..] == text[starText..];
    }
  }

  lemma Backtrack(pattern: string, text: string, p: nat, t: nat, star: int, starText: nat)
    requires Aligned(pattern, text, p, t, star, starText) && star >= 0 && t < |text|
    requires !Matches(pattern[p..], text[t..])
    ensures Aligned(pattern, text, star + 1, starText + 1, star, starText + 1)
  {
    Remainders(pattern, text, p, t, star, starText);
    assert pattern[star..][1..] == pattern[star + 1..] && text[starText..][1..] == text[starText + 1..];
    StarSkips(pattern[star..], text[starText..]);
  }

  /** At the end of the text only the rest of the pattern matters. */
  lemma AtTheEnd(pattern: string, text: string, p: nat, star: int, starText: nat)
    requires Aligned(pattern, text, p, |text|, star, starText)
    ensures Matches(pattern, text) <==> Matches(pattern[p..], "")
  {
    Remainders(pattern, text, p, |text|, star, starText);
    assert text[|text|..] == "";
    if star >= 0 {
      assert pattern[star..][1..] == pattern[star + 1..] && text[starText..][0..] == text[starText..];
      if Matches(pattern[star..], text[starText..]) {
        var k: nat :| k <= |text[starText..]| && Matches(pattern[star + 1..], text[starText..][k..]);
        StarFreeStart(pattern[star + 1..], text[starText..][k..], |text| - starText);
        assert k == 0;
      }
    }
  }

  // ---- The loop, as a function of its variables ------------------------------------

  /** The outcome of the matching loop from given values of its variables
      (`star` is -1 while no star has been met). */
  predicate Search(pattern: string, text: string, p: nat, t: nat, star: int, starText: nat)
    requires p <= |pattern| && t <= |text| && star < p && starText <= t
    decreases if star < 0 then |text| + 1 else |text| - starText, |pattern| - p
  {
    if t == |text| then
      forall i :: p <= i < |pattern| ==> pattern[i] == '*'
    else if p < |pattern| && (pattern[p] == '?' || pattern[p] == text[t]) then
      Search(pattern, text, p + 1, t + 1, star, starText)
    else if p < |pattern| && pattern[p] == '*' then
      Search(pattern, text, p + 1, t, p, t)
    else if star >= 0 then
      Search(pattern, text, star + 1, starText + 1, star, starText + 1)
    else
      false
  }

  predicate Glob(pattern: string, text: string) { Search(pattern, text, 0, 0, -1, 0) }

  /** The matcher; it stops on every input. */
  method GlobMatches(pattern: string, text: string) returns (matches: bool)
    ensures matches == Glob(pattern, text)
    ensures matches ==> Matches(pattern, text)
    ensures '*' !in text || '*' !in pattern ==> (matches <==> Matches(pattern, text))
  {
    var p, t := 0, 0;
    var star, starText := -1, 0;
    while t < |text|
      invariant p <= |pattern| && t <= |text| && star < p && starText <= t
      invariant Search(pattern, text, p, t, star, starText) == Glob(pattern, text)
      decreases if star < 0 then |text| + 1 else |text| - starText, |pattern| - p
    {
      if p < |pattern| && (pattern[p] == '?' || pattern[p] == text[t]) {
        p := p + 1;
        t := t + 1;
        continue;
      }
      if p < |pattern| && pattern[p] == '*' {
        star := p;
        p := p + 1;
        starText := t;
        continue;
      }
      if star >= 0 {
        p := star + 1;
        starText := starText + 1;
        t := starText;
        continue;
      }
      GlobIsSound(pattern, text);
      GlobIsExact(pattern, text);
      return false;
    }
    ghost var first := p;
    while p < |pattern| && pattern[p] == '*'
      invariant first <= p <= |pattern|
      invariant forall i :: first <= i < p ==> pattern[i] == '*'
    {
      p := p + 1;
    }
    matches := p == |pattern|;
    GlobIsSound(pattern, text);
    GlobIsExact(pattern, text);
  }

  // ---- Soundness on every input --------------------------------------------------------

  /** What a positive answer from here would prove. */
  ghost predicate Justified(pattern: string, text: string, p: nat, t: nat, star: int, starText: nat)
    requires p <= |pattern| && t <= |text| && star < p && starText <= t
  {
    && (Matches(pattern[p..], text[t..]) ==> Matches(pattern, text))
    && (star >= 0 ==>
          forall j :: starText <= j <= |text| && Matches(pattern[star + 1..], text[j..]) ==> Matches(pattern, text))
  }

  /** A character in front may be matched, even a star by a literal star. */
  lemma InFront(pattern: string, text: string, p: nat, t: nat)
    requires p < |pattern| && t < |text| && (pattern[p] == '?' || pattern[p] == text[t])
    requires Matches(pattern[p + 1..], text[t + 1..])
    ensures Matches(pattern[p..], text[t..])
  {
    assert pattern[p..][1..] == pattern[p + 1..] && text[t..][1..] == text[t + 1..];
  }

  lemma StarInFront(pattern: string, text: string, p: nat, t: nat, j: nat)
    requires p < |pattern| && pattern[p] == '*' && t <= j <= |text|
    requires Matches(pattern[p + 1..], text[j..])
    ensures Matches(pattern[p..], text[t..])
  {
    assert pattern[p..][1..] == pattern[p + 1..] && text[t..][j - t..] == text[j..];
  }

  lemma {:induction false} SearchIsSound(pattern: string, text: string, p: nat, t: nat, star: int, starText: nat)
    requires p <= |pattern| && t <= |text| && star < p && starText <= t
    requires Justified(pattern, text, p, t, star, starText)
    requires Search(pattern, text, p, t, star, starText)
    ensures Matches(pattern, text)
    decreases if star < 0 then |text| + 1 else |text| - starText, |pattern| - p
  {
    if t == |text| {
      EmptyText(pattern[p..]);
      assert text[t..] == "";
    } else if p < |pattern| && (pattern[p] == '?' || pattern[p] == text[t]) {
      if Matches(pattern[p + 1..], text[t + 1..]) { InFront(pattern, text, p, t); }
      SearchIsSound(pattern, text, p + 1, t + 1, star, starText);
    } else if p < |pattern| && pattern[p] == '*' {
      forall j | t <= j <= |text| && Matches(pattern[p + 1..], text[j..]) ensures Matches(pattern, text) {
        StarInFront(pattern, text, p, t, j);
      }
      SearchIsSound(pattern, text, p + 1, t, p, t);
    } else {
      SearchIsSound(pattern, text, star + 1, starText + 1, star, starText + 1);
    }
  }

  /** A positive answer is right for every pattern and every text. */
  lemma GlobIsSound(pattern: string, text: string)
    ensures Glob(pattern, text) ==> Matches(pattern, text)
  {
    if Glob(pattern, text) {
      assert pattern[0..] == pattern && text[0..] == text;
      SearchIsSound(pattern, text, 0, 0, -1, 0);
    }
  }

  // ---- Exactness -------------------------------------------------------------------------

  lemma {:induction false} SearchIsExact(pattern: string, text: string, p: nat, t: nat, star: int, starText: nat)
    requires '*' !in text || '*' !in pattern
    requires p <= |pattern| && t <= |text| && star < p && starText <= t
    requires Aligned(pattern, text, p, t, star, starText)
    ensures Search(pattern, text, p, t, star, starText) <==> Matches(pattern, text)
    decreases if star < 0 then |text| + 1 else |text| - starText, |pattern| - p
  {
    if t == |text| {
      AtTheEnd(pattern, text, p, star, starText);
      EmptyText(pattern[p..]);
    } else if p < |pattern| && (pattern[p] == '?' || pattern[p] == text[t]) {
      SearchIsExact(pattern, text, p + 1, t + 1, star, starText);
    } else if p < |pattern| && pattern[p] == '*' {
      NewStar(pattern, text, p, t, star, starText);
      SearchIsExact(pattern, text, p + 1, t, p, t);
    } else if star >= 0 {
      Backtrack(pattern, text, p, t, star, starText);
      SearchIsExact(pattern, text, star + 1, starText + 1, star, starText + 1);
    } else {
      Remainders(pattern, text, p, t, star, starText);
    }
  }

  lemma GlobIsExact(pattern: string, text: string)
    ensures '*' !in text || '*' !in pattern ==> (Glob(pattern, text) <==> Matches(pattern, text))
  {
    if '*' !in text || '*' !in pattern { SearchIsExact(pattern, text, 0, 0, -1, 0); }
  }

  // ---- Where exactness stops ---------------------------------------------------------------

  /** Equal characters are consumed in step, stars included. */
  lemma {:induction false} ConsumesEqual(pattern: string, text: string, p: nat, n: nat)
    requires p <= n <= |pattern| && n <= |text| && pattern[p..n] == text[p..n]
    ensures Search(pattern, text, p, p, -1, 0) == Search(pattern, text, n, n, -1, 0)
    decreases n - p
  {
    if p < n {
      assert pattern[p] == pattern[p..n][0] && text[p] == text[p..n][0];
      assert pattern[p + 1..n] == pattern[p..n][1..] && text[p + 1..n] == text[p..n][1..];
      ConsumesEqual(pattern, text, p + 1, n);
    }
  }

  /** Without any star, remainders of different lengths cannot match. */
  lemma {:induction false} LengthsDiffer(pattern: string, text: string, p: nat, t: nat)
    requires p <= |pattern| && t <= |text| && |pattern| - p != |text| - t
    requires forall i :: p <= i < |pattern| ==> pattern[i] != '*'
    ensures !Search(pattern, text, p, t, -1, 0)
    decreases |pattern| - p
  {
    if t == |text| {
      assert pattern[p] != '*';
    } else if p < |pattern| && (pattern[p] == '?' || pattern[p] == text[t]) {
      LengthsDiffer(pattern, text, p + 1, t + 1);
    }
  }

  /** Any text matches itself as a pattern, in front of anything that matches. */
  lemma {:induction false} SelfMatch(front: string, pattern: string, text: string)
    requires Matches(pattern, text)
    ensures Matches(front + pattern, front + text)
  {
    if front == "" {
      assert front + pattern == pattern && front + text == text;
    } else {
      SelfMatch(front[1..], pattern, text);
      assert (front + pattern)[1..] == front[1..] + pattern && (front + text)[1..] == front[1..] + text;
    }
  }

  /** Position of the last star. */
  lemma {:induction false} LastStar(pattern: string) returns (i: nat)
    requires '*' in pattern
    ensures i < |pattern| && pattern[i] == '*' && forall j :: i < j < |pattern| ==> pattern[j] != '*'
  {
    if pattern[|pattern| - 1] == '*' {
      i := |pattern| - 1;
    } else {
      i := LastStar(pattern[..|pattern| - 1]);
    }
  }

  /** For every pattern with a star the matcher misses some text that matches:
      the star in the text is taken literally. */
  lemma StarredPatternMissesText(pattern: string) returns (text: string)
    requires '*' in pattern
    ensures Matches(pattern, text) && !Glob(pattern, text)
  {
    var i := LastStar(pattern);
    var front, back := pattern[..i], pattern[i + 1..];
    text := front + ("*a" + back);
    assert pattern == front + ("*" + back);
    SelfMatch(back, "", "");
    assert back + "" == back;
    assert ("*" + back)[1..] == back && ("*a" + back)[2..] == back;
    SelfMatch(front, "*" + back, "*a" + back);
    assert pattern[0..i + 1] == text[0..i + 1];
    ConsumesEqual(pattern, text, 0, i + 1);
    LengthsDiffer(pattern, text, i + 1, i + 1);
  }

  /** For every text with a star the matcher misses some pattern that matches. */
  lemma StarredTextMissesPattern(text: string) returns (pattern: string)
    requires '*' in text
    ensures Matches(pattern, text) && !Glob(pattern, text)
  {
    var i := LastStar(text);
    var front, back := text[..i], text[i + 1..];
    assert text == front + ("*" + back);
    if back != "" {
      pattern := front + "*";
      StarMatchesAll("*" + back);
      SelfMatch(front, "*", "*" + back);
    } else {
      pattern := front + "*?";
      StarThenOne();
      SelfMatch(front, "*?", "*");
      assert text == front + "*" && pattern[i + 1] == '?';
    }
    assert pattern[0..i + 1] == text[0..i + 1];
    ConsumesEqual(pattern, text, 0, i + 1);
  }

  lemma StarMatchesAll(text: string)
    ensures Matches("*", text)
  {
    assert "*"[1..] == "" && text[|text|..] == "";
    assert Matches("*"[1..], text[|text|..]);
  }

  lemma StarThenOne()
    ensures Matches("*?", "*")
  {
    assert "?"[1..] == "" && "*"[1..] == "" && "*"[0..] == "*" && "*?"[1..] == "?";
    assert Matches("?", "*");
    assert Matches("*?"[1..], "*"[0..]);
  }

  /** The texts on which the matcher is right for every pattern are exactly those
      without a star. */
  lemma ExactForTextIff(text: string)
    ensures (forall pattern :: Glob(pattern, text) <==> Matches(pattern, text)) <==> '*' !in text
  {
    if '*' in text {
      var pattern := StarredTextMissesPattern(text);
    } else {
      forall pattern ensures Glob(pattern, text) <==> Matches(pattern, text) { GlobIsExact(pattern, text); }
    }
  }

  /** The patterns for which the matcher is right on every text are exactly those
      without a star. */
  lemma ExactForPatternIff(pattern: string)
    ensures (forall text :: Glob(pattern, text) <==> Matches(pattern, text)) <==> '*' !in pattern
  {
    if '*' in pattern {
      var text := StarredPatternMissesText(pattern);
    } else {
      forall text ensures Glob(pattern, text) <==> Matches(pattern, text) { GlobIsExact(pattern, text); }
    }
  }
}
