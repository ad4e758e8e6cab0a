/** Planning the files to index from a scan and the Git overlay of a working tree. */
module OverlayPlanning {
  import opened Optional

  type Path = string

  datatype Status = Clean | Modified | Added | Deleted | Untracked | Ignored | Conflicted

  datatype Disposition =
    UseIndexedContent | ReplaceWithWorkingTree | AddWorkingTreeFile | HideIndexedContent | Conflict

  datatype OverlayEntry = OverlayEntry(
    path: Path,
    previousPath: Option<Path>,
    status: Status,
    disposition: Disposition,
    reusableBlob: Option<string>)

  /** A scanned file: its relative path and all else the scanner knows of it. */
  datatype File = File(path: Path, details: nat)

  datatype Metadata = Metadata(status: Status, blob: Option<string>)

  const DEFAULT := Metadata(Clean, None)

  datatype Target = ScannedFile(file: File) | DeletedPath(path: Path)

  datatype Candidate = Candidate(target: Target, metadata: Metadata)

  datatype Plan = Plan(candidates: seq<Candidate>, hiddenIndexedPaths: nat, missingWorkingTreeFiles: nat)

  /** Paths are compared by their normalized absolute key. */
  type KeyOf = Path -> string

  // ---- What an entry hides and updates -----------------------------------------------

  datatype Hidden = Hidden(path: Path, entry: OverlayEntry)

  function HiddenBy(e: OverlayEntry): seq<Hidden> {
    (if e.previousPath.Some? && e.previousPath.value != e.path then [Hidden(e.previousPath.value, e)] else [])
    + (if e.disposition.HideIndexedContent? then [Hidden(e.path, e)] else [])
  }

  /** All hidden paths of the overlay, in order, with repetitions. */
  function AllHidden(overlay: seq<OverlayEntry>): seq<Hidden> {
    if overlay == [] then [] else AllHidden(overlay[..|overlay| - 1]) + HiddenBy(overlay[|overlay| - 1])
  }

  ghost predicate HasKey(hidden: seq<Hidden>, key: KeyOf, k: string) {
    exists i :: 0 <= i < |hidden| && key(hidden[i].path) == k
  }

  function Deletion(h: Hidden): Candidate { Candidate(DeletedPath(h.path), Metadata(Deleted, h.entry.reusableBlob)) }

  /** The first hidden path of each key, in order. */
  ghost function FirstOfEachKey(hidden: seq<Hidden>, key: KeyOf): seq<Hidden> {
    if hidden == [] then [] else
      var front, last := hidden[..|hidden| - 1], hidden[|hidden| - 1];
      FirstOfEachKey(front, key) + (if HasKey(front, key, key(last.path)) then [] else [last])
  }

  predicate Applies(e: OverlayEntry) { !e.disposition.HideIndexedContent? }

  /** The metadata that the last applicable entry for a key gives. */
  function LastMetadata(overlay: seq<OverlayEntry>, key: KeyOf, k: string): Metadata {
    if overlay == [] then DEFAULT else
      var last := overlay[|overlay| - 1];
      if Applies(last) && key(last.path) == k then Metadata(last.status, last.reusableBlob)
      else LastMetadata(overlay[..|overlay| - 1], key, k)
  }

  ghost predicate IsFirstOfKey(files: seq<File>, key: KeyOf, i: nat)
    requires i < |files|
  {
    forall j :: 0 <= j < i ==> key(files[j].path) != key(files[i].path)
  }

  ghost predicate IsScanned(files: seq<File>, key: KeyOf, k: string) {
    exists i :: 0 <= i < |files| && key(files[i].path) == k
  }

  /** Applicable entries without a scanned file. */
  ghost function Missing(files: seq<File>, overlay: seq<OverlayEntry>, key: KeyOf): nat {
    if overlay == [] then 0 else
      var last := overlay[|overlay| - 1];
      Missing(files, overlay[..|overlay| - 1], key)
        + (if Applies(last) && !IsScanned(files, key, key(last.path)) then 1 else 0)
  }

  /** The scanned files in order, the first of each key with its overlay metadata. */
  ghost predicate ScannedPart(scanned: seq<Candidate>, files: seq<File>, overlay: seq<OverlayEntry>, key: KeyOf) {
    && |scanned| == |files|
    && forall i :: 0 <= i < |files| ==>
         scanned[i] == Candidate(ScannedFile(files[i]),
           if IsFirstOfKey(files, key, i) then LastMetadata(overlay, key, key(files[i].path)) else DEFAULT)
  }

  /** The deletions, by the hidden paths they stand for. */
  function Deletions(hidden: seq<Hidden>): seq<Candidate> {
    seq(|hidden|, i requires 0 <= i < |hidden| => Deletion(hidden[i]))
  }

  /** What the planner has built when it has hidden these paths and applied these entries. */
  ghost predicate Planned(plan: Plan, files: seq<File>, hidden: seq<Hidden>, applied: seq<OverlayEntry>, key: KeyOf) {
    var first := FirstOfEachKey(hidden, key);
    && |plan.candidates| == |files| + |first|
    && ScannedPart(plan.candidates[..|files|], files, applied, key)
    && plan.candidates[|files|..] == Deletions(first)
    && plan.hiddenIndexedPaths == |first|
    && plan.missingWorkingTreeFiles == Missing(files, applied, key)
  }

  ghost predicate HiddenKeys(keys: set<string>, hidden: seq<Hidden>, key: KeyOf) {
    forall k :: k in keys <==> HasKey(hidden, key, k)
  }

  /** Where the first scanned file of each key is. */
  ghost predicate Indexes(indexes: map<string, nat>, files: seq<File>, key: KeyOf) {
    && (forall k :: k in indexes <==> IsScanned(files, key, k))
    && forall k :: k in indexes ==>
      indexes[k] < |files| && key(files[indexes[k]].path) == k && IsFirstOfKey(files, key, indexes[k])
  }

  // ---- The planner ------------------------------------------------------------------------

  class Planner {
    const key: KeyOf
    ghost const files: seq<File>
    var plan: Plan
    var candidateIndexes: map<string, nat>
    var hiddenPaths: set<string>
    ghost var hidden: seq<Hidden>
    ghost var applied: seq<OverlayEntry>

    ghost predicate Valid()
      reads this
    {
      && Indexes(candidateIndexes, files, key) && Planned(plan, files, hidden, applied, key)
      && HiddenKeys(hiddenPaths, hidden, key)
    }

    /** The loop over the scanned files. */
    constructor (files: seq<File>, key: KeyOf)
      ensures this.key == key && this.files == files && Valid() && hidden == [] && applied == []
    {
      var indexes: map<string, nat>, candidates: seq<Candidate> := map[], [];
      for i := 0 to |files|
        invariant |candidates| == i
        invariant forall j :: 0 <= j < i ==> candidates[j] == Candidate(ScannedFile(files[j]), DEFAULT)
        invariant Indexes(indexes, files[..i], key)
      {
        assert files[..i + 1] == files[..i] + [files[i]];
        IndexesGrow(indexes, files[..i], key, files[i]);
        if key(files[i].path) !in indexes {
          indexes := indexes[key(files[i].path) := i];
        }
        candidates := candidates + [Candidate(ScannedFile(files[i]), DEFAULT)];
      }
      assert files[..|files|] == files && candidates[..|files|] == candidates;
      this.key := key;
      this.files := files;
      plan := Plan(candidates, 0, 0);
      candidateIndexes := indexes;
      hiddenPaths := {};
      hidden := [];
      applied := [];
    }

    method HideIndexedPath(path: Path, entry: OverlayEntry)
      requires Valid()
      modifies this`plan, this`hiddenPaths, this`hidden
      ensures Valid() && hidden == old(hidden) + [Hidden(path, entry)]
    {
      hide Indexes, Planned, HiddenKeys;
      ghost var h := Hidden(path, entry);
      HideStep(plan, hiddenPaths, files, hidden, applied, key, h);
      hidden := hidden + [h];
      if key(path) in hiddenPaths {
        return;
      }
      hiddenPaths := hiddenPaths + {key(path)};
      var deletion := Candidate(DeletedPath(path), Metadata(Deleted, entry.reusableBlob));
      plan := plan.(candidates := plan.candidates + [deletion],
                    hiddenIndexedPaths := plan.hiddenIndexedPaths + 1);
    }

    /** One entry of the overlay. */
    method ApplyEntry(entry: OverlayEntry)
      requires Valid()
      modifies this`plan, this`hiddenPaths, this`hidden, this`applied
      ensures Valid() && hidden == old(hidden) + HiddenBy(entry) && applied == old(applied) + [entry]
    {
      hide Indexes, Planned, HiddenKeys;
      if entry.previousPath.Some? && entry.previousPath.value != entry.path {
        HideIndexedPath(entry.previousPath.value, entry);
      }
      if entry.disposition.HideIndexedContent? {
        HideIndexedPath(entry.path, entry);
        NotApplied(plan, files, hidden, applied, key, entry);
        applied := applied + [entry];
        return;
      }
      ApplyStep(plan, candidateIndexes, files, hidden, applied, key, entry);
      applied := applied + [entry];
      if key(entry.path) !in candidateIndexes {
        plan := plan.(missingWorkingTreeFiles := plan.missingWorkingTreeFiles + 1);
        return;
      }
      var at := candidateIndexes[key(entry.path)];
      var updated := plan.candidates[at].(metadata := Metadata(entry.status, entry.reusableBlob));
      plan := plan.(candidates := plan.candidates[at := updated]);
    }
  }

  /** The plan keeps the scanned files first and in order, the first of each key with
      the last metadata given to it; then one deletion for each distinct hidden key. */
  method BuildOverlayIndexCandidates(files: seq<File>, overlay: seq<OverlayEntry>, key: KeyOf) returns (plan: Plan)
    ensures Planned(plan, files, AllHidden(overlay), overlay, key)
  {
    hide Planned, HiddenKeys, Indexes;
    var planner := new Planner(files, key);
    for i := 0 to |overlay|
      invariant fresh(planner) && planner.key == key && planner.files == files && planner.Valid()
      invariant planner.hidden == AllHidden(overlay[..i]) && planner.applied == overlay[..i]
    {
      assert overlay[..i + 1] == overlay[..i] + [overlay[i]];
      planner.ApplyEntry(overlay[i]);
    }
    assert overlay[..|overlay|] == overlay;
    plan := planner.plan;
  }

  // ---- The steps ----------------------------------------------------------------------------

  lemma IndexesGrow(indexes: map<string, nat>, files: seq<File>, key: KeyOf, file: File)
    requires Indexes(indexes, files, key)
    ensures var k := key(file.path);
      Indexes(if k in indexes then indexes else indexes[k := |files|], files + [file], key)
  {
    var k, more := key(file.path), files + [file];
    var grown := if k in indexes then indexes else indexes[k := |files|];
    forall x ensures x in grown <==> IsScanned(more, key, x) {
      if IsScanned(files, key, x) {
        var i :| 0 <= i < |files| && key(files[i].path) == x;
        assert more[i] == files[i];
      }
      assert more[|files|] == file;
    }
    forall x | x in grown
      ensures grown[x] < |more| && key(more[grown[x]].path) == x && IsFirstOfKey(more, key, grown[x])
    {
      if x in indexes {
        assert IsFirstOfKey(files, key, indexes[x]);
      } else {
        assert !IsScanned(files, key, x);
      }
    }
  }

  lemma HasKeyLast(hidden: seq<Hidden>, h: Hidden, key: KeyOf, k: string)
    ensures HasKey(hidden + [h], key, k) <==> HasKey(hidden, key, k) || key(h.path) == k
  {
    var more := hidden + [h];
    if HasKey(hidden, key, k) {
      var i :| 0 <= i < |hidden| && key(hidden[i].path) == k;
      assert more[i] == hidden[i];
    }
    assert more[|hidden|] == h;
  }

  /** Hiding one more path. */
  lemma HideStep(plan: Plan, keys: set<string>, files: seq<File>, hidden: seq<Hidden>, applied: seq<OverlayEntry>,
      key: KeyOf, h: Hidden)
    requires Planned(plan, files, hidden, applied, key) && HiddenKeys(keys, hidden, key)
    ensures HiddenKeys(keys + {key(h.path)}, hidden + [h], key)
    ensures key(h.path) in keys ==>
      Planned(plan, files, hidden + [h], applied, key) && HiddenKeys(keys, hidden + [h], key)
    ensures key(h.path) !in keys ==>
      Planned(plan.(candidates := plan.candidates + [Deletion(h)], hiddenIndexedPaths := plan.hiddenIndexedPaths + 1),
              files, hidden + [h], applied, key)
  {
    hide ScannedPart, Missing, HasKey;
    forall k ensures HasKey(hidden + [h], key, k) <==> HasKey(hidden, key, k) || key(h.path) == k {
      HasKeyLast(hidden, h, key, k);
    }
    assert (hidden + [h])[..|hidden|] == hidden;
    var first := FirstOfEachKey(hidden, key);
    if key(h.path) in keys {
      assert first + [] == first;
    } else {
      assert Deletions(first + [h]) == Deletions(first) + [Deletion(h)];
      var more := plan.candidates + [Deletion(h)];
      assert more[..|files|] == plan.candidates[..|files|];
      assert more[|files|..] == plan.candidates[|files|..] + [Deletion(h)];
    }
  }

  lemma NotApplied(plan: Plan, files: seq<File>, hidden: seq<Hidden>, applied: seq<OverlayEntry>, key: KeyOf,
      entry: OverlayEntry)
    requires Planned(plan, files, hidden, applied, key) && !Applies(entry)
    ensures Planned(plan, files, hidden, applied + [entry], key)
  {
    hide FirstOfEachKey, Deletions, IsFirstOfKey, IsScanned;
    assert (applied + [entry])[..|applied|] == applied;
  }

  /** Applying one more entry. */
  lemma ApplyStep(plan: Plan, indexes: map<string, nat>, files: seq<File>, hidden: seq<Hidden>,
      applied: seq<OverlayEntry>, key: KeyOf, entry: OverlayEntry)
    requires Planned(plan, files, hidden, applied, key) && Indexes(indexes, files, key) && Applies(entry)
    ensures var k := key(entry.path);
      if k !in indexes then
        Planned(plan.(missingWorkingTreeFiles := plan.missingWorkingTreeFiles + 1),
          files, hidden, applied + [entry], key)
      else
        && indexes[k] < |plan.candidates|
        && var updated := plan.candidates[indexes[k]].(metadata := Metadata(entry.status, entry.reusableBlob));
           Planned(plan.(candidates := plan.candidates[indexes[k] := updated]), files, hidden, applied + [entry], key)
  {
    hide FirstOfEachKey, Deletions;
    var k, more := key(entry.path), applied + [entry];
    assert more[..|applied|] == applied;
    if k in indexes {
      var at := indexes[k];
      var updated := plan.candidates[at].(metadata := Metadata(entry.status, entry.reusableBlob));
      UpdatedPart(plan.candidates[..|files|], files, applied, key, entry, at);
      assert plan.candidates[at := updated][..|files|] == plan.candidates[..|files|][at := updated];
      assert plan.candidates[at := updated][|files|..] == plan.candidates[|files|..];
    } else {
      OthersKeepMetadata(plan.candidates[..|files|], files, applied, key, entry);
    }
  }

  lemma UpdatedPart(scanned: seq<Candidate>, files: seq<File>, applied: seq<OverlayEntry>, key: KeyOf,
      entry: OverlayEntry, at: nat)
    requires ScannedPart(scanned, files, applied, key) && Applies(entry)
    requires at < |files| && key(files[at].path) == key(entry.path) && IsFirstOfKey(files, key, at)
    ensures ScannedPart(scanned[at := scanned[at].(metadata := Metadata(entry.status, entry.reusableBlob))],
      files, applied + [entry], key)
  {
    var more := applied + [entry];
    assert more[..|applied|] == applied && more[|applied|] == entry;
    forall i | 0 <= i < |files| && i != at && IsFirstOfKey(files, key, i)
      ensures key(files[i].path) != key(entry.path)
    {
      if i < at {
        assert key(files[i].path) != key(files[at].path);
      } else {
        assert key(files[at].path) != key(files[i].path);
      }
    }
  }

  lemma OthersKeepMetadata(scanned: seq<Candidate>, files: seq<File>, applied: seq<OverlayEntry>, key: KeyOf,
      entry: OverlayEntry)
    requires ScannedPart(scanned, files, applied, key) && !IsScanned(files, key, key(entry.path))
    ensures ScannedPart(scanned, files, applied + [entry], key)
  {
    hide IsFirstOfKey;
    var more := applied + [entry];
    assert more[..|applied|] == applied && more[|applied|] == entry;
    forall i | 0 <= i < |files|
      ensures LastMetadata(more, key, key(files[i].path)) == LastMetadata(applied, key, key(files[i].path)) {}
  }

  // ---- What a plan means ------------------------------------------------------------------------

  /** One deletion for each distinct hidden key: no key twice, and none left out. */
  lemma {:induction false} DeletionsAreDistinct(hidden: seq<Hidden>, key: KeyOf)
    ensures var first := FirstOfEachKey(hidden, key);
      && (forall i, j :: 0 <= i < j < |first| ==> key(first[i].path) != key(first[j].path))
      && (forall k :: HasKey(first, key, k) <==> HasKey(hidden, key, k))
      && (forall i :: 0 <= i < |first| ==> first[i] in hidden)
  {
    hide HasKey;
    if hidden == [] {
    } else {
      var front, last := hidden[..|hidden| - 1], hidden[|hidden| - 1];
      var first := FirstOfEachKey(front, key);
      DeletionsAreDistinct(front, key);
      assert hidden == front + [last];
      forall k ensures HasKey(FirstOfEachKey(hidden, key), key, k) <==> HasKey(hidden, key, k) {
        HasKeyLast(front, last, key, k);
        HasKeyLast(first, last, key, k);
        assert first + [] == first;
      }
      forall i | 0 <= i < |first| && !HasKey(front, key, key(last.path)) ensures key(first[i].path) != key(last.path) {
        HasKeyAt(first, key, i);
      }
    }
  }

  lemma HasKeyAt(hidden: seq<Hidden>, key: KeyOf, i: nat)
    requires i < |hidden|
    ensures HasKey(hidden, key, key(hidden[i].path))
  {}

  /** The metadata of a key is that of the last entry that applies to it. */
  lemma {:induction false} LastMetadataIsLast(overlay: seq<OverlayEntry>, key: KeyOf, k: string, i: nat)
    requires i < |overlay| && Applies(overlay[i]) && key(overlay[i].path) == k
    requires forall j :: i < j < |overlay| ==> !(Applies(overlay[j]) && key(overlay[j].path) == k)
    ensures LastMetadata(overlay, key, k) == Metadata(overlay[i].status, overlay[i].reusableBlob)
  {
    if i < |overlay| - 1 {
      LastMetadataIsLast(overlay[..|overlay| - 1], key, k, i);
    }
  }

  function PathOf(target: Target): Path {
    match target
    case ScannedFile(file) => file.path
    case DeletedPath(path) => path
  }

  /** Some scanned candidate and some deletion of the plan have the same key. */
  ghost predicate PlannedTwice(plan: Plan, key: KeyOf) {
    exists i, j :: 0 <= i < |plan.candidates| && 0 <= j < |plan.candidates| && SameKeyTwice(plan, key, i, j)
  }

  predicate SameKeyTwice(plan: Plan, key: KeyOf, i: nat, j: nat)
    requires i < |plan.candidates| && j < |plan.candidates|
  {
    && plan.candidates[i].target.ScannedFile? && plan.candidates[j].target.DeletedPath?
    && key(PathOf(plan.candidates[i].target)) == key(PathOf(plan.candidates[j].target))
  }

  /** Which file or hidden path each candidate of a plan stands for. */
  lemma CandidateTargets(plan: Plan, files: seq<File>, hidden: seq<Hidden>, applied: seq<OverlayEntry>, key: KeyOf)
    requires Planned(plan, files, hidden, applied, key)
    ensures var first := FirstOfEachKey(hidden, key);
      && |plan.candidates| == |files| + |first|
      && (forall i :: 0 <= i < |files| ==> plan.candidates[i].target == ScannedFile(files[i]))
      && (forall j :: |files| <= j < |files| + |first| ==>
            plan.candidates[j].target == DeletedPath(first[j - |files|].path))
  {
    hide FirstOfEachKey, LastMetadata, IsFirstOfKey, Missing;
    var first := FirstOfEachKey(hidden, key);
    forall i | 0 <= i < |files| ensures plan.candidates[i].target == ScannedFile(files[i]) {
      assert plan.candidates[..|files|][i] == plan.candidates[i];
    }
    forall j | |files| <= j < |files| + |first|
      ensures plan.candidates[j].target == DeletedPath(first[j - |files|].path)
    {
      assert plan.candidates[|files|..][j - |files|] == plan.candidates[j];
    }
  }

  /** Exactly when a key is planned twice, as a file and as a deletion: when some scanned
      file has the key of some hidden path, as a file at the old path of a rename does. */
  lemma ScannedAndHidden(plan: Plan, files: seq<File>, overlay: seq<OverlayEntry>, key: KeyOf)
    requires Planned(plan, files, AllHidden(overlay), overlay, key)
    ensures PlannedTwice(plan, key) <==> exists k :: IsScanned(files, key, k) && HasKey(AllHidden(overlay), key, k)
  {
    hide Planned, FirstOfEachKey, AllHidden;
    var hidden := AllHidden(overlay);
    var first := FirstOfEachKey(hidden, key);
    CandidateTargets(plan, files, hidden, overlay, key);
    DeletionsAreDistinct(hidden, key);
    if i, j :| 0 <= i < |plan.candidates| && 0 <= j < |plan.candidates| && SameKeyTwice(plan, key, i, j) {
      HasKeyAt(first, key, j - |files|);
      assert IsScanned(files, key, key(files[i].path));
    }
    if k :| IsScanned(files, key, k) && HasKey(hidden, key, k) {
      assert HasKey(first, key, k);
      var i :| 0 <= i < |files| && key(files[i].path) == k;
      var d :| 0 <= d < |first| && key(first[d].path) == k;
      assert SameKeyTwice(plan, key, i, |files| + d);
    }
  }

  // ---- What a plan means, entry by entry ------------------------------------------------------

  predicate LeavesOldPath(e: OverlayEntry) { e.previousPath.Some? && e.previousPath.value != e.path }

  /** The entry takes the key out of the index: its old path has it, or it hides its own. */
  predicate Hides(e: OverlayEntry, key: KeyOf, k: string) {
    || (LeavesOldPath(e) && key(e.previousPath.value) == k)
    || (e.disposition == HideIndexedContent && key(e.path) == k)
  }

  function HiddenPath(e: OverlayEntry, key: KeyOf, k: string): Path {
    if LeavesOldPath(e) && key(e.previousPath.value) == k then e.previousPath.value else e.path
  }

  ghost predicate IsHiddenKey(overlay: seq<OverlayEntry>, key: KeyOf, k: string) {
    exists i :: 0 <= i < |overlay| && Hides(overlay[i], key, k)
  }

  /** Entry `i` is the first that takes the key out. */
  ghost predicate FirstHider(overlay: seq<OverlayEntry>, key: KeyOf, k: string, i: nat) {
    i < |overlay| && Hides(overlay[i], key, k) && forall j :: 0 <= j < i ==> !Hides(overlay[j], key, k)
  }

  lemma HasKeyTwo(hidden: seq<Hidden>, more: seq<Hidden>, key: KeyOf, k: string)
    ensures HasKey(hidden + more, key, k) <==> HasKey(hidden, key, k) || HasKey(more, key, k)
  {
    var all := hidden + more;
    if i :| 0 <= i < |hidden| && key(hidden[i].path) == k { assert all[i] == hidden[i]; }
    if i :| 0 <= i < |more| && key(more[i].path) == k { assert all[|hidden| + i] == more[i]; }
  }

  lemma HiddenByExactly(e: OverlayEntry, key: KeyOf, k: string)
    ensures HasKey(HiddenBy(e), key, k) <==> Hides(e, key, k)
  {
    if LeavesOldPath(e) { assert HiddenBy(e)[0].path == e.previousPath.value; }
    if e.disposition.HideIndexedContent? { assert HiddenBy(e)[|HiddenBy(e)| - 1].path == e.path; }
  }

  lemma {:induction false} HiddenKeysExactly(overlay: seq<OverlayEntry>, key: KeyOf, k: string)
    ensures HasKey(AllHidden(overlay), key, k) <==> IsHiddenKey(overlay, key, k)
  {
    hide HasKey, HiddenBy, Hides;
    if overlay == [] {
      NothingHidden(key, k);
    } else {
      var front, last := overlay[..|overlay| - 1], overlay[|overlay| - 1];
      HiddenKeysExactly(front, key, k);
      HasKeyTwo(AllHidden(front), HiddenBy(last), key, k);
      HiddenByExactly(last, key, k);
      if i :| 0 <= i < |front| && Hides(front[i], key, k) { assert overlay[i] == front[i]; }
    }
  }

  lemma NothingHidden(key: KeyOf, k: string)
    ensures !HasKey([], key, k)
  {}

  /** What was first of its key stays so, whatever is hidden later. */
  lemma {:induction false} FirstsStay(hidden: seq<Hidden>, more: seq<Hidden>, key: KeyOf)
    ensures FirstOfEachKey(hidden, key) <= FirstOfEachKey(hidden + more, key)
    decreases |more|
  {
    hide HasKey;
    if more == [] {
      assert hidden + more == hidden;
    } else {
      var front := more[..|more| - 1];
      FirstsStay(hidden, front, key);
      assert (hidden + more)[..|hidden + more| - 1] == hidden + front;
    }
  }

  lemma NewKeyIsFirst(hidden: seq<Hidden>, h: Hidden, more: seq<Hidden>, key: KeyOf)
    requires !HasKey(hidden, key, key(h.path))
    ensures h in FirstOfEachKey(hidden + [h] + more, key)
  {
    hide HasKey;
    assert (hidden + [h])[..|hidden|] == hidden;
    var first := FirstOfEachKey(hidden + [h], key);
    assert first[|first| - 1] == h;
    FirstsStay(hidden + [h], more, key);
  }

  /** An entry that hides a new key makes its path the first of that key. */
  lemma NewlyHidden(hidden: seq<Hidden>, e: OverlayEntry, key: KeyOf, k: string)
    requires !HasKey(hidden, key, k) && Hides(e, key, k)
    ensures Hidden(HiddenPath(e, key, k), e) in FirstOfEachKey(hidden + HiddenBy(e), key)
  {
    hide HasKey, FirstOfEachKey;
    var h := Hidden(HiddenPath(e, key, k), e);
    if LeavesOldPath(e) && key(e.previousPath.value) == k {
      NewKeyIsFirst(hidden, h, HiddenBy(e)[1..], key);
      assert hidden + HiddenBy(e) == hidden + [h] + HiddenBy(e)[1..];
    } else if LeavesOldPath(e) {
      var left := Hidden(e.previousPath.value, e);
      HasKeyLast(hidden, left, key, k);
      NewKeyIsFirst(hidden + [left], h, [], key);
      assert hidden + HiddenBy(e) == hidden + [left] + [h] + [];
    } else {
      NewKeyIsFirst(hidden, h, [], key);
      assert hidden + HiddenBy(e) == hidden + [h] + [];
    }
  }

  lemma {:induction false} FirstHiderIsKept(overlay: seq<OverlayEntry>, key: KeyOf, k: string, i: nat)
    requires FirstHider(overlay, key, k, i)
    ensures Hidden(HiddenPath(overlay[i], key, k), overlay[i]) in FirstOfEachKey(AllHidden(overlay), key)
  {
    hide HasKey, FirstOfEachKey, HiddenBy, Hides;
    var front, last := overlay[..|overlay| - 1], overlay[|overlay| - 1];
    if i < |front| {
      FirstHiderIsKept(front, key, k, i);
      FirstsStay(AllHidden(front), HiddenBy(last), key);
    } else {
      HiddenKeysExactly(front, key, k);
      NewlyHidden(AllHidden(front), last, key, k);
    }
  }

  /** Candidate `j` takes the key out of the index. */
  predicate Deletes(plan: Plan, key: KeyOf, k: string, j: nat) {
    j < |plan.candidates| && plan.candidates[j].target.DeletedPath? && key(plan.candidates[j].target.path) == k
  }

  lemma DeletionAt(plan: Plan, files: seq<File>, hidden: seq<Hidden>, applied: seq<OverlayEntry>, key: KeyOf, j: nat)
    requires Planned(plan, files, hidden, applied, key)
    ensures var first := FirstOfEachKey(hidden, key);
      && (|files| <= j < |plan.candidates| ==>
            j - |files| < |first| && plan.candidates[j] == Deletion(first[j - |files|]))
      && (j < |files| ==> j < |plan.candidates| && plan.candidates[j].target.ScannedFile?)
  {
    hide FirstOfEachKey, LastMetadata, IsFirstOfKey, Missing;
    if |files| <= j < |plan.candidates| { assert plan.candidates[|files|..][j - |files|] == plan.candidates[j]; }
    if j < |files| { assert plan.candidates[..|files|][j] == plan.candidates[j]; }
  }

  /** A plan deletes exactly the keys that some entry takes out: the key of the old path
      of a rename, or of a path whose content is to be hidden. */
  lemma DeletedKeysExactly(plan: Plan, files: seq<File>, overlay: seq<OverlayEntry>, key: KeyOf, k: string)
    requires Planned(plan, files, AllHidden(overlay), overlay, key)
    ensures (exists j: nat :: Deletes(plan, key, k, j)) <==> IsHiddenKey(overlay, key, k)
  {
    hide FirstOfEachKey, Planned, IsHiddenKey, AllHidden;
    var hidden := AllHidden(overlay);
    var first := FirstOfEachKey(hidden, key);
    HiddenKeysExactly(overlay, key, k);
    DeletionsAreDistinct(hidden, key);
    CandidateTargets(plan, files, hidden, overlay, key);
    if j: nat :| Deletes(plan, key, k, j) {
      DeletionAt(plan, files, hidden, overlay, key, j);
      HasKeyAt(first, key, j - |files|);
    }
    if HasKey(first, key, k) {
      var d :| 0 <= d < |first| && key(first[d].path) == k;
      DeletionAt(plan, files, hidden, overlay, key, |files| + d);
      assert Deletes(plan, key, k, |files| + d);
    }
  }

  /** The deletion of a key is that of the first entry that takes it out: it has the
      status Deleted and the blob of that entry. */
  lemma DeletionIsFirstHider(plan: Plan, files: seq<File>, overlay: seq<OverlayEntry>, key: KeyOf, k: string, i: nat,
      j: nat)
    requires Planned(plan, files, AllHidden(overlay), overlay, key)
    requires FirstHider(overlay, key, k, i) && Deletes(plan, key, k, j)
    ensures plan.candidates[j]
      == Candidate(DeletedPath(HiddenPath(overlay[i], key, k)), Metadata(Deleted, overlay[i].reusableBlob))
  {
    hide FirstOfEachKey, Planned, AllHidden, HasKey;
    var hidden := AllHidden(overlay);
    var first, h := FirstOfEachKey(hidden, key), Hidden(HiddenPath(overlay[i], key, k), overlay[i]);
    FirstHiderIsKept(overlay, key, k, i);
    DeletionsAreDistinct(hidden, key);
    DeletionAt(plan, files, hidden, overlay, key, j);
    var d :| 0 <= d < |first| && first[d] == h;
    assert key(first[j - |files|].path) == k == key(first[d].path);
    assert j - |files| == d;
  }

  function KeysOf(hidden: seq<Hidden>, key: KeyOf): set<string> {
    if hidden == [] then {} else KeysOf(hidden[..|hidden| - 1], key) + {key(hidden[|hidden| - 1].path)}
  }

  lemma {:induction false} DistinctKeysCount(hidden: seq<Hidden>, key: KeyOf)
    requires forall i, j :: 0 <= i < j < |hidden| ==> key(hidden[i].path) != key(hidden[j].path)
    ensures |KeysOf(hidden, key)| == |hidden|
    ensures forall k :: k in KeysOf(hidden, key) <==> HasKey(hidden, key, k)
  {
    hide HasKey;
    if hidden == [] {
      forall k ensures !HasKey([], key, k) { NothingHidden(key, k); }
    } else {
      var front, last := hidden[..|hidden| - 1], hidden[|hidden| - 1];
      DistinctKeysCount(front, key);
      assert hidden == front + [last];
      forall k ensures HasKey(hidden, key, k) <==> HasKey(front, key, k) || key(last.path) == k {
        HasKeyLast(front, last, key, k);
      }
      NewKey(front, last, key);
    }
  }

  lemma NewKey(front: seq<Hidden>, last: Hidden, key: KeyOf)
    requires forall i :: 0 <= i < |front| ==> key(front[i].path) != key(last.path)
    ensures !HasKey(front, key, key(last.path))
  {}

  lemma FirstsDiffer(hidden: seq<Hidden>, key: KeyOf, i: nat, j: nat)
    requires i < j < |FirstOfEachKey(hidden, key)|
    ensures key(FirstOfEachKey(hidden, key)[i].path) != key(FirstOfEachKey(hidden, key)[j].path)
  {
    hide *;
    DeletionsAreDistinct(hidden, key);
  }

  lemma FirstsAreCounted(overlay: seq<OverlayEntry>, key: KeyOf, keys: set<string>)
    requires forall k :: k in keys <==> IsHiddenKey(overlay, key, k)
    ensures |FirstOfEachKey(AllHidden(overlay), key)| == |keys|
  {
    hide FirstOfEachKey, AllHidden, HasKey, IsHiddenKey;
    var hidden := AllHidden(overlay);
    var first := FirstOfEachKey(hidden, key);
    DeletionsAreDistinct(hidden, key);
    forall i, j | 0 <= i < j < |first| ensures key(first[i].path) != key(first[j].path) {
      FirstsDiffer(hidden, key, i, j);
    }
    DistinctKeysCount(first, key);
    forall k ensures k in keys <==> k in KeysOf(first, key) { HiddenKeysExactly(overlay, key, k); }
    assert keys == KeysOf(first, key);
  }

  /** The counter of hidden paths counts the different keys taken out. */
  lemma HiddenPathsAreCounted(plan: Plan, files: seq<File>, overlay: seq<OverlayEntry>, key: KeyOf, keys: set<string>)
    requires Planned(plan, files, AllHidden(overlay), overlay, key)
    requires forall k :: k in keys <==> IsHiddenKey(overlay, key, k)
    ensures plan.hiddenIndexedPaths == |keys| && |plan.candidates| == |files| + |keys|
  {
    hide FirstOfEachKey, AllHidden, IsHiddenKey, ScannedPart;
    FirstsAreCounted(overlay, key, keys);
  }

  /** Entry `i` is the last that gives the working tree's metadata to the key. */
  ghost predicate LastUpdate(overlay: seq<OverlayEntry>, key: KeyOf, k: string, i: nat) {
    && i < |overlay| && Updates(overlay[i], key, k)
    && forall j :: i < j < |overlay| ==> !Updates(overlay[j], key, k)
  }

  predicate Updates(e: OverlayEntry, key: KeyOf, k: string) {
    e.disposition != HideIndexedContent && key(e.path) == k
  }

  /** The first scanned file of a key carries what the last entry for it says, and any
      other scanned file is clean. */
  lemma ScannedMetadata(plan: Plan, files: seq<File>, overlay: seq<OverlayEntry>, key: KeyOf, f: nat)
    requires Planned(plan, files, AllHidden(overlay), overlay, key) && f < |files|
    ensures |plan.candidates| >= |files| && plan.candidates[f].target == ScannedFile(files[f])
    ensures forall i: nat :: LastUpdate(overlay, key, key(files[f].path), i) && IsFirstOfKey(files, key, f) ==>
      plan.candidates[f].metadata == Metadata(overlay[i].status, overlay[i].reusableBlob)
    ensures !IsFirstOfKey(files, key, f) || (forall i: nat :: !LastUpdate(overlay, key, key(files[f].path), i)) ==>
      plan.candidates[f].metadata == Metadata(Clean, None)
  {
    hide FirstOfEachKey, AllHidden, Missing, IsFirstOfKey, LastMetadata, Updates;
    assert plan.candidates[..|files|][f] == plan.candidates[f];
    var k := key(files[f].path);
    forall i: nat | LastUpdate(overlay, key, k, i)
      ensures LastMetadata(overlay, key, k) == Metadata(overlay[i].status, overlay[i].reusableBlob)
    {
      LastUpdateDecides(overlay, key, k, i);
    }
    if forall i: nat :: !LastUpdate(overlay, key, k, i) { NoUpdate(overlay, key, k); }
  }

  lemma LastUpdateDecides(overlay: seq<OverlayEntry>, key: KeyOf, k: string, i: nat)
    requires LastUpdate(overlay, key, k, i)
    ensures LastMetadata(overlay, key, k) == Metadata(overlay[i].status, overlay[i].reusableBlob)
  {
    hide LastMetadata;
    forall j | i < j < |overlay| ensures !(Applies(overlay[j]) && key(overlay[j].path) == k) {
      assert !Updates(overlay[j], key, k);
    }
    LastMetadataIsLast(overlay, key, k, i);
  }

  lemma {:induction false} NoUpdate(overlay: seq<OverlayEntry>, key: KeyOf, k: string)
    requires forall i: nat :: !LastUpdate(overlay, key, k, i)
    ensures LastMetadata(overlay, key, k) == Metadata(Clean, None)
  {
    if overlay != [] {
      var front := overlay[..|overlay| - 1];
      assert !LastUpdate(overlay, key, k, |overlay| - 1);
      forall i: nat ensures !LastUpdate(front, key, k, i) {
        if LastUpdate(front, key, k, i) {
          assert LastUpdate(overlay, key, k, i);
        }
      }
      NoUpdate(front, key, k);
    }
  }

  /** The entries that name a working-tree file no scan has found. */
  ghost function WithoutFile(files: seq<File>, overlay: seq<OverlayEntry>, key: KeyOf): set<nat> {
    set i: nat | i < |overlay| && overlay[i].disposition != HideIndexedContent
                 && !IsScanned(files, key, key(overlay[i].path))
  }

  lemma OneMoreEntry(files: seq<File>, overlay: seq<OverlayEntry>, key: KeyOf)
    requires overlay != []
    ensures var n := |overlay| - 1;
      var missing := overlay[n].disposition != HideIndexedContent && !IsScanned(files, key, key(overlay[n].path));
      WithoutFile(files, overlay, key) == WithoutFile(files, overlay[..n], key) + if missing then {n} else {}
  {
    hide IsScanned;
  }

  /** The counter of missing files counts them. */
  lemma {:induction false} MissingAreCounted(files: seq<File>, overlay: seq<OverlayEntry>, key: KeyOf)
    ensures Missing(files, overlay, key) == |WithoutFile(files, overlay, key)|
  {
    hide IsScanned;
    if overlay != [] {
      var n := |overlay| - 1;
      MissingAreCounted(files, overlay[..n], key);
      OneMoreEntry(files, overlay, key);
      assert n !in WithoutFile(files, overlay[..n], key);
    }
  }
}
