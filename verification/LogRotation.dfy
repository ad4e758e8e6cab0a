/**
 The rotating log file: a current file (number 0) and numbered older files.
 File operations are taken to succeed; lines are already serialized.
 */
module LogRotation {

  type Line = s: string | s != "" witness "x"

  /** The files that exist, by number. */
  type Files = map<nat, seq<Line>>

  function Size(lines: seq<Line>): nat {
    if lines == [] then 0 else Size(lines[..|lines| - 1]) + |lines[|lines| - 1]|
  }

  function Current(files: Files): seq<Line> { if 0 in files then files[0] else [] }

  function Fits(files: Files, line: Line, limit: nat): bool { Size(Current(files)) + |line| <= limit }

  /** Every file moves up one number; the one beyond `maximum` is lost. */
  function Rotated(files: Files, maximum: nat): Files {
    map i |
      i in files.Keys + Successors(files.Keys) && if 1 <= i <= maximum then i - 1 in files else i > 0 && i in files ::
      if 1 <= i <= maximum then files[i - 1] else files[i]
  }

  function Successors(s: set<nat>): set<nat> { set i | i in s :: i + 1 }

  /** One record, as the logger stores it. */
  function Recorded(files: Files, line: Line, limit: nat, maximum: nat): Files {
    var ready := if Fits(files, line, limit) then files else Rotated(files, maximum);
    ready[0 := Current(ready) + [line]]
  }

  class FileStructuredLogger {
    const maximumFileSize: nat
    const maximumRotatedFiles: nat
    var files: Files

    /** A limit of zero counts as one. */
    constructor (maximumFileSize: nat, maximumRotatedFiles: nat, files: Files)
      ensures this.maximumFileSize == (if maximumFileSize == 0 then 1 else maximumFileSize)
      ensures this.maximumRotatedFiles == maximumRotatedFiles && this.files == files
    {
      this.maximumFileSize := if maximumFileSize == 0 then 1 else maximumFileSize;
      this.maximumRotatedFiles := maximumRotatedFiles;
      this.files := files;
    }

    method Remove(i: nat)
      modifies this
      ensures files == old(files) - {i}
    {
      files := files - {i};
    }

    method Rename(source: nat, destination: nat)
      requires source in files && source != destination
      modifies this
      ensures files == (old(files) - {source})[destination := old(files)[source]]
    {
      files := (files - {source})[destination := files[source]];
    }

    method RotateIfNeeded(line: Line)
      modifies this
      ensures files == if Fits(old(files), line, maximumFileSize) then old(files)
        else Rotated(old(files), maximumRotatedFiles)
    {
      if Size(Current(files)) + |line| <= maximumFileSize {
        return;
      }
      ghost var before := files;
      if maximumRotatedFiles == 0 {
        Remove(0);
        return;
      }
      var index := maximumRotatedFiles;
      while index > 1
        invariant 1 <= index <= maximumRotatedFiles && Moved(files, before, index, maximumRotatedFiles)
      {
        ghost var turn := files;
        Remove(index);
        if index - 1 in files {
          Rename(index - 1, index);
        }
        MovedOne(turn, before, index, maximumRotatedFiles);
        index := index - 1;
      }
      ghost var turn := files;
      Remove(1);
      if 0 in files {
        Rename(0, 1);
      }
      AllMoved(turn, before, maximumRotatedFiles);
    }

    method Write(line: Line)
      modifies this
      ensures files == Recorded(old(files), line, maximumFileSize, maximumRotatedFiles)
    {
      hide Rotated, Size;
      RotateIfNeeded(line);
      files := files[0 := (if 0 in files then files[0] else []) + [line]];
    }
  }

  predicate Stays(files: Files, before: Files, i: nat) {
    if i in before then i in files && files[i] == before[i] else i !in files
  }

  predicate MovedUp(files: Files, before: Files, i: nat)
    requires i > 0
  {
    if i - 1 in before then i in files && files[i] == before[i - 1] else i !in files
  }

  /** The files numbered above `index` have been moved, the others wait. */
  ghost predicate Moved(files: Files, before: Files, index: nat, maximum: nat) {
    && (forall i: nat :: i < index || i > maximum ==> Stays(files, before, i))
    && (forall i: nat :: index < i <= maximum ==> MovedUp(files, before, i))
  }

  /** File `from` renamed to `to`, in place of what was there. */
  function Replaced(files: Files, from: nat, to: nat): Files {
    if from in files && from != to then (files - {to} - {from})[to := files[from]] else files - {to}
  }

  lemma MovedOne(files: Files, before: Files, index: nat, maximum: nat)
    requires 1 < index <= maximum && Moved(files, before, index, maximum)
    ensures Moved(Replaced(files, index - 1, index), before, index - 1, maximum)
  {
    var after := Replaced(files, index - 1, index);
    assert Stays(files, before, index - 1);
    forall i: nat | i < index - 1 || i > maximum ensures Stays(after, before, i) {
      assert Stays(files, before, i);
    }
    forall i: nat | index - 1 < i <= maximum ensures MovedUp(after, before, i) {
      assert i > index ==> MovedUp(files, before, i);
    }
  }

  lemma AllMoved(files: Files, before: Files, maximum: nat)
    requires maximum > 0 && Moved(files, before, 1, maximum)
    ensures Replaced(files, 0, 1) == Rotated(before, maximum)
  {
    var after, rotated := Replaced(files, 0, 1), Rotated(before, maximum);
    assert Stays(files, before, 0);
    forall i: nat
      ensures i in after <==> i in rotated
      ensures i in after ==> after[i] == rotated[i]
    {
      assert i > maximum ==> Stays(files, before, i);
      assert 1 < i <= maximum ==> MovedUp(files, before, i);
      assert i > 0 && i - 1 in before ==> i in Successors(before.Keys);
    }
  }

  // ---- Whole runs ----------------------------------------------------------------------

  /** A store without gaps in its numbers, newest file first. */
  function Numbered(stack: seq<seq<Line>>): Files {
    map i: nat | 0 <= i < |stack| :: stack[i]
  }

  function Kept(stack: seq<seq<Line>>, maximum: nat): seq<seq<Line>> {
    if |stack| <= maximum then stack else stack[..maximum]
  }

  function NextStack(stack: seq<seq<Line>>, line: Line, limit: nat, maximum: nat): seq<seq<Line>> {
    if stack != [] && Size(stack[0]) + |line| <= limit then [stack[0] + [line]] + stack[1..]
    else [[line]] + Kept(stack, maximum)
  }

  /** One record keeps the numbering free of gaps. */
  lemma RecordedIsNumbered(stack: seq<seq<Line>>, line: Line, limit: nat, maximum: nat)
    requires |stack| <= maximum + 1
    ensures Recorded(Numbered(stack), line, limit, maximum) == Numbered(NextStack(stack, line, limit, maximum))
  {
    hide Size;
    var files, next := Numbered(stack), NextStack(stack, line, limit, maximum);
    assert Current(files) == if stack != [] then stack[0] else [];
    if stack != [] && Size(stack[0]) + |line| <= limit {
      assert Fits(files, line, limit);
      assert forall i :: 0 < i < |stack| ==> next[i] == stack[i];
    } else if Fits(files, line, limit) {
      assert stack == [] && [] + [line] == [line];
      assert Numbered(next).Keys == {0};
    } else {
      RotatedStack(stack, maximum);
      assert Numbered(next) == Rotated(files, maximum)[0 := [line]];
    }
  }

  lemma RotatedStack(stack: seq<seq<Line>>, maximum: nat)
    requires |stack| <= maximum + 1
    ensures forall i: nat :: i in Rotated(Numbered(stack), maximum) <==> 0 < i <= |Kept(stack, maximum)|
    ensures forall i: nat :: i in Rotated(Numbered(stack), maximum) ==>
      Rotated(Numbered(stack), maximum)[i] == stack[i - 1]
  {
    var files := Numbered(stack);
    forall i: nat ensures i in Rotated(files, maximum) <==> 0 < i <= |Kept(stack, maximum)| {
      if 0 < i <= |stack| { assert i - 1 in files.Keys && i - 1 + 1 in Successors(files.Keys); }
    }
  }

  /** The files after recording every line of a history, from an empty directory. */
  function Stack(history: seq<Line>, limit: nat, maximum: nat): seq<seq<Line>> {
    if history == [] then []
    else NextStack(Stack(history[..|history| - 1], limit, maximum), history[|history| - 1], limit, maximum)
  }

  function RecordedAll(history: seq<Line>, limit: nat, maximum: nat): Files {
    if history == [] then map[]
    else Recorded(RecordedAll(history[..|history| - 1], limit, maximum), history[|history| - 1], limit, maximum)
  }

  /** What is on disk, oldest line first: the highest-numbered file down to the current. */
  function Contents(stack: seq<seq<Line>>): seq<Line> {
    if stack == [] then [] else Contents(stack[1..]) + stack[0]
  }

  /** The lines of the files beyond the first `maximum`. */
  function Lost(stack: seq<seq<Line>>, maximum: nat): seq<Line> {
    if |stack| <= maximum then [] else Contents(stack[maximum..])
  }

  lemma {:induction false} KeptAndLost(stack: seq<seq<Line>>, maximum: nat)
    ensures Contents(stack) == Lost(stack, maximum) + Contents(Kept(stack, maximum))
  {
    if |stack| <= maximum {
    } else if maximum == 0 {
      assert stack[0..] == stack && Contents(stack) + [] == Contents(stack);
    } else {
      KeptAndLost(stack[1..], maximum - 1);
      assert stack[1..][maximum - 1..] == stack[maximum..];
      assert Kept(stack, maximum)[1..] == Kept(stack[1..], maximum - 1);
      assert Lost(stack, maximum) + (Contents(Kept(stack[1..], maximum - 1)) + stack[0])
        == Lost(stack, maximum) + Contents(Kept(stack[1..], maximum - 1)) + stack[0];
    }
  }

  lemma NextContents(stack: seq<seq<Line>>, line: Line, limit: nat, maximum: nat)
    ensures var next := NextStack(stack, line, limit, maximum);
      var rotated := next[0] == [line] && (stack == [] || Size(stack[0]) + |line| > limit);
      Contents(stack) + [line] == (if rotated then Lost(stack, maximum) else []) + Contents(next)
  {
    hide Size;
    var next := NextStack(stack, line, limit, maximum);
    if stack != [] && Size(stack[0]) + |line| <= limit {
      assert next[1..] == stack[1..];
      assert Contents(stack[1..]) + (stack[0] + [line]) == Contents(stack) + [line];
    } else {
      assert next[1..] == Kept(stack, maximum);
      KeptAndLost(stack, maximum);
      assert Lost(stack, maximum) + (Contents(Kept(stack, maximum)) + [line])
        == Lost(stack, maximum) + Contents(Kept(stack, maximum)) + [line];
    }
  }

  /** Sizes, and why each older file was closed: the next line did not fit. */
  ghost predicate WellFilled(stack: seq<seq<Line>>, limit: nat, maximum: nat) {
    && |stack| <= maximum + 1
    && (forall i :: 0 <= i < |stack| ==> stack[i] != [] && (Size(stack[i]) <= limit || |stack[i]| == 1))
    && (forall i :: 0 < i < |stack| ==> Size(stack[i]) + |stack[i - 1][0]| > limit)
  }

  lemma NextIsWellFilled(stack: seq<seq<Line>>, line: Line, limit: nat, maximum: nat)
    requires WellFilled(stack, limit, maximum)
    ensures WellFilled(NextStack(stack, line, limit, maximum), limit, maximum)
  {
    var next := NextStack(stack, line, limit, maximum);
    if stack != [] && Size(stack[0]) + |line| <= limit {
      assert forall i :: 0 < i < |stack| ==> next[i] == stack[i];
      assert next[0][0] == stack[0][0];
    } else {
      assert forall i :: 0 < i < |next| ==> next[i] == stack[i - 1];
    }
  }

  /** Over every run the files are numbered without gaps, at most the maximum and
      the current one, and each fits the limit or holds one line. */
  lemma {:induction false} RunKeepsFilesInLimits(history: seq<Line>, limit: nat, maximum: nat)
    ensures RecordedAll(history, limit, maximum) == Numbered(Stack(history, limit, maximum))
    ensures WellFilled(Stack(history, limit, maximum), limit, maximum)
  {
    hide Recorded, NextStack, WellFilled, Numbered;
    if history != [] {
      var before, line := history[..|history| - 1], history[|history| - 1];
      var stack := Stack(before, limit, maximum);
      RunKeepsFilesInLimits(before, limit, maximum);
      StackSize(stack, limit, maximum);
      RecordedIsNumbered(stack, line, limit, maximum);
      NextIsWellFilled(stack, line, limit, maximum);
    } else {
      NoFiles(limit, maximum);
    }
  }

  lemma NoFiles(limit: nat, maximum: nat)
    ensures Numbered([]) == map[] && WellFilled([], limit, maximum)
  {}

  lemma StackSize(stack: seq<seq<Line>>, limit: nat, maximum: nat)
    requires WellFilled(stack, limit, maximum)
    ensures |stack| <= maximum + 1
  {}

  predicate IsSuffix(end: seq<Line>, whole: seq<Line>) {
    |end| <= |whole| && whole[|whole| - |end|..] == end
  }

  /** Over every run, read from the highest number down to the current file, the
      files are a suffix of everything recorded, and nothing is lost before all the
      numbers are in use. */
  lemma {:induction false} RunKeepsSuffix(history: seq<Line>, limit: nat, maximum: nat)
    ensures IsSuffix(Contents(Stack(history, limit, maximum)), history)
    ensures |Stack(history, limit, maximum)| <= maximum ==> Contents(Stack(history, limit, maximum)) == history
  {
    hide NextStack, Contents, IsSuffix;
    if history != [] {
      var before, line := history[..|history| - 1], history[|history| - 1];
      RunKeepsSuffix(before, limit, maximum);
      RecordKeepsSuffix(before, Stack(before, limit, maximum), line, limit, maximum);
      assert history == before + [line];
    } else {
      EmptyIsSuffix();
    }
  }

  lemma EmptyIsSuffix()
    ensures Contents([]) == [] && IsSuffix([], [])
  {}

  lemma RecordKeepsSuffix(before: seq<Line>, stack: seq<seq<Line>>, line: Line, limit: nat, maximum: nat)
    requires IsSuffix(Contents(stack), before) && (|stack| <= maximum ==> Contents(stack) == before)
    ensures var next := NextStack(stack, line, limit, maximum);
      && IsSuffix(Contents(next), before + [line])
      && (|next| <= maximum ==> Contents(next) == before + [line])
  {
    hide Size, Contents;
    var next, history := NextStack(stack, line, limit, maximum), before + [line];
    NextContents(stack, line, limit, maximum);
    SuffixOfSuffix(history, Contents(stack) + [line], Contents(next));
    if |next| <= maximum {
      assert Contents(next) == Contents(stack) + [line];
    }
  }

  lemma SuffixOfSuffix(whole: seq<Line>, middle: seq<Line>, end: seq<Line>)
    requires IsSuffix(middle, whole) && IsSuffix(end, middle)
    ensures IsSuffix(end, whole)
  {}

  /** The line just recorded is always there, last. */
  lemma LastLineIsKept(history: seq<Line>, limit: nat, maximum: nat)
    requires history != []
    ensures var contents := Contents(Stack(history, limit, maximum));
      contents != [] && contents[|contents| - 1] == history[|history| - 1]
  {
    hide Size;
  }
}
