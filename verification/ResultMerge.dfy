/** Sorting, searching, refining and merging lists of search results. */
module ResultMerge {
  import opened ResultOrder

  /** Strictly increasing keys: sorted, and no match twice. */
  predicate StrictlySorted(rs: seq<SearchResult>) {
    forall i, j :: 0 <= i < j < |rs| ==> Less(rs[i].key, rs[j].key)
  }

  predicate Sorted(rs: seq<SearchResult>) {
    forall i, j :: 0 <= i < j < |rs| ==> !Less(rs[j].key, rs[i].key)
  }

  ghost function KeySet(rs: seq<SearchResult>): set<Key> {
    set i | 0 <= i < |rs| :: rs[i].key
  }

  lemma KeySetAppend(rs: seq<SearchResult>, r: SearchResult)
    ensures KeySet(rs + [r]) == KeySet(rs) + {r.key}
  {
    var whole := rs + [r];
    forall k ensures k in KeySet(whole) <==> k in KeySet(rs) + {r.key} {
      if k in KeySet(rs) {
        var i :| 0 <= i < |rs| && rs[i].key == k;
        assert whole[i].key == k;
      }
      assert whole[|rs|].key == r.key;
    }
  }

  lemma KeySetConcat(a: seq<SearchResult>, b: seq<SearchResult>)
    ensures KeySet(a + b) == KeySet(a) + KeySet(b)
  {
    forall k ensures k in KeySet(a + b) <==> k in KeySet(a) + KeySet(b) {
      if k in KeySet(a) {
        var i :| 0 <= i < |a| && a[i].key == k;
        assert (a + b)[i].key == k;
      }
      if k in KeySet(b) {
        var i :| 0 <= i < |b| && b[i].key == k;
        assert (a + b)[|a| + i].key == k;
      }
    }
  }

  lemma KeySetOfSameElements(a: seq<SearchResult>, b: seq<SearchResult>)
    requires multiset(a) == multiset(b)
    ensures KeySet(a) == KeySet(b)
  {
    forall k ensures k in KeySet(a) <==> k in KeySet(b) {
      if k in KeySet(a) {
        var i :| 0 <= i < |a| && a[i].key == k;
        assert a[i] in multiset(b);
      }
      if k in KeySet(b) {
        var i :| 0 <= i < |b| && b[i].key == k;
        assert b[i] in multiset(a);
      }
    }
  }

  // ---- Sorting ---------------------------------------------------------------------

  /** Any sort by key: which of two results with equal keys comes first is left open. */
  method Sort(results: seq<SearchResult>) returns (sorted: seq<SearchResult>)
    ensures Sorted(sorted) && multiset(sorted) == multiset(results)
  {
    hide Less;
    sorted := [];
    for i := 0 to |results|
      invariant Sorted(sorted) && multiset(sorted) == multiset(results[..i])
    {
      sorted := Insert(sorted, results[i]);
      assert results[..i + 1] == results[..i] + [results[i]];
    }
    assert results[..|results|] == results;
  }

  method Insert(sorted: seq<SearchResult>, r: SearchResult) returns (more: seq<SearchResult>)
    requires Sorted(sorted)
    ensures Sorted(more) && multiset(more) == multiset(sorted) + multiset{r}
  {
    hide Less;
    var at := LowerBound(sorted, r);
    more := sorted[..at] + [r] + sorted[at..];
    InsertKeepsOrder(sorted, r, at);
    assert sorted == sorted[..at] + sorted[at..];
  }

  lemma InsertKeepsOrder(sorted: seq<SearchResult>, r: SearchResult, at: nat)
    requires Sorted(sorted) && at <= |sorted|
    requires forall i :: 0 <= i < at ==> Less(sorted[i].key, r.key)
    requires forall i :: at <= i < |sorted| ==> !Less(sorted[i].key, r.key)
    ensures Sorted(sorted[..at] + [r] + sorted[at..])
  {
    hide Less;
    var more := sorted[..at] + [r] + sorted[at..];
    forall i, j | 0 <= i < j < |more| ensures !Less(more[j].key, more[i].key) {
      if i < at && j == at {
        LessIsTotalOrder(sorted[i].key, r.key, r.key);
      } else if i < at && j > at {
        assert more[i] == sorted[i] && more[j] == sorted[j - 1];
      } else if i == at {
        assert more[j] == sorted[j - 1];
      } else if j < at {
        assert more[i] == sorted[i] && more[j] == sorted[j];
      } else {
        assert more[i] == sorted[i - 1] && more[j] == sorted[j - 1];
      }
    }
  }

  /** Index of the first result whose key is not below the candidate's. */
  method LowerBound(sorted: seq<SearchResult>, candidate: SearchResult) returns (at: nat)
    requires Sorted(sorted)
    ensures at <= |sorted|
    ensures forall i :: 0 <= i < at ==> Less(sorted[i].key, candidate.key)
    ensures forall i :: at <= i < |sorted| ==> !Less(sorted[i].key, candidate.key)
  {
    hide Less;
    at := 0;
    var end := |sorted|;
    while at < end
      invariant at <= end <= |sorted|
      invariant forall i :: 0 <= i < at ==> Less(sorted[i].key, candidate.key)
      invariant forall i :: end <= i < |sorted| ==> !Less(sorted[i].key, candidate.key)
    {
      var middle := (at + end) / 2;
      SortedAround(sorted, candidate, middle);
      if Less(sorted[middle].key, candidate.key) {
        at := middle + 1;
      } else {
        end := middle;
      }
    }
  }

  lemma SortedAround(sorted: seq<SearchResult>, candidate: SearchResult, middle: nat)
    requires Sorted(sorted) && middle < |sorted|
    ensures Less(sorted[middle].key, candidate.key) ==>
      forall i :: 0 <= i <= middle ==> Less(sorted[i].key, candidate.key)
    ensures !Less(sorted[middle].key, candidate.key) ==>
      forall i :: middle <= i < |sorted| ==> !Less(sorted[i].key, candidate.key)
  {
    hide Less;
    forall i | 0 <= i < |sorted|
      ensures i <= middle && Less(sorted[middle].key, candidate.key) ==> Less(sorted[i].key, candidate.key)
    {
      LessIsTotalOrder(sorted[i].key, sorted[middle].key, candidate.key);
    }
    forall i | 0 <= i < |sorted|
      ensures i >= middle && !Less(sorted[middle].key, candidate.key) ==> !Less(sorted[i].key, candidate.key)
    {
      LessIsTotalOrder(sorted[middle].key, sorted[i].key, candidate.key);
    }
  }

  /** Drops all but the first of each run of equal keys. */
  method Unique(sorted: seq<SearchResult>) returns (unique: seq<SearchResult>)
    requires Sorted(sorted)
    ensures StrictlySorted(unique) && KeySet(unique) == KeySet(sorted)
    ensures forall r :: r in unique ==> r in sorted
  {
    hide Less, KeySet;
    unique := [];
    for i := 0 to |sorted|
      invariant StrictlySorted(unique) && KeySet(unique) == KeySet(sorted[..i])
      invariant forall r :: r in unique ==> r in sorted
      invariant i == 0 ==> unique == []
      invariant i > 0 ==> unique != [] && unique[|unique| - 1].key == sorted[i - 1].key
    {
      assert sorted[..i + 1] == sorted[..i] + [sorted[i]];
      KeySetAppend(sorted[..i], sorted[i]);
      if i > 0 && unique[|unique| - 1].key == sorted[i].key {
        KeyInSet(unique, |unique| - 1);
      } else {
        KeySetAppend(unique, sorted[i]);
        assert i > 0 ==> !Less(sorted[i].key, sorted[i - 1].key);
        AppendKeepsStrictness(unique, sorted[i], if i > 0 then sorted[i - 1].key else sorted[i].key);
        unique := unique + [sorted[i]];
      }
    }
    assert sorted[..|sorted|] == sorted;
  }

  lemma KeyInSet(rs: seq<SearchResult>, i: nat)
    requires i < |rs|
    ensures rs[i].key in KeySet(rs)
  {}

  lemma AppendKeepsStrictness(rs: seq<SearchResult>, r: SearchResult, last: Key)
    requires StrictlySorted(rs)
    requires rs != [] ==> rs[|rs| - 1].key == last && last != r.key && !Less(r.key, last)
    ensures StrictlySorted(rs + [r])
  {
    hide Less;
    if rs != [] {
      LessIsTotalOrder(last, r.key, r.key);
      forall i | 0 <= i < |rs| ensures Less(rs[i].key, r.key) {
        LessIsTotalOrder(rs[i].key, last, r.key);
      }
    }
  }

  method SortAndRemoveDuplicates(results: seq<SearchResult>) returns (ordered: seq<SearchResult>)
    ensures StrictlySorted(ordered) && KeySet(ordered) == KeySet(results)
    ensures forall r :: r in ordered ==> r in results
  {
    hide Less, KeySet;
    var sorted := Sort(results);
    KeySetOfSameElements(sorted, results);
    ordered := Unique(sorted);
    forall r | r in ordered ensures r in results {
      assert r in multiset(sorted);
    }
  }

  lemma StrictIsSorted(rs: seq<SearchResult>)
    requires StrictlySorted(rs)
    ensures Sorted(rs)
  {
    hide Less;
    forall i, j | 0 <= i < j < |rs| ensures !Less(rs[j].key, rs[i].key) {
      LessIsTotalOrder(rs[i].key, rs[j].key, rs[j].key);
    }
  }

  /** Binary search: present exactly when some result has the candidate's key. */
  method OrderedResultsContain(ordered: seq<SearchResult>, candidate: SearchResult) returns (found: bool)
    requires StrictlySorted(ordered)
    ensures found <==> candidate.key in KeySet(ordered)
  {
    hide Less, KeySet;
    StrictIsSorted(ordered);
    var at := LowerBound(ordered, candidate);
    found := at < |ordered| && !Less(candidate.key, ordered[at].key);
    LowerBoundFinds(ordered, candidate, at);
  }

  lemma LowerBoundFinds(ordered: seq<SearchResult>, candidate: SearchResult, at: nat)
    requires StrictlySorted(ordered) && at <= |ordered|
    requires forall i :: 0 <= i < at ==> Less(ordered[i].key, candidate.key)
    requires forall i :: at <= i < |ordered| ==> !Less(ordered[i].key, candidate.key)
    ensures candidate.key in KeySet(ordered) <==> at < |ordered| && !Less(candidate.key, ordered[at].key)
  {
    hide Less;
    LessIsTotalOrder(candidate.key, candidate.key, candidate.key);
    if at < |ordered| {
      LessIsTotalOrder(candidate.key, ordered[at].key, candidate.key);
      forall i | at < i < |ordered| ensures ordered[i].key != candidate.key || Less(ordered[at].key, candidate.key) {}
    }
  }

  // ---- Sorted lists are determined by their keys ------------------------------------------

  function KeysOf(rs: seq<SearchResult>): seq<Key> { seq(|rs|, i requires 0 <= i < |rs| => rs[i].key) }

  /** The last key of a strictly sorted list is the greatest of its keys. */
  lemma LastIsGreatest(rs: seq<SearchResult>, k: Key)
    requires StrictlySorted(rs) && rs != [] && k in KeySet(rs)
    ensures k == rs[|rs| - 1].key || Less(k, rs[|rs| - 1].key)
  {
    hide Less;
  }

  lemma WithoutLast(rs: seq<SearchResult>)
    requires StrictlySorted(rs) && rs != []
    ensures StrictlySorted(rs[..|rs| - 1]) && KeySet(rs[..|rs| - 1]) == KeySet(rs) - {rs[|rs| - 1].key}
  {
    hide Less;
    var front, last := rs[..|rs| - 1], rs[|rs| - 1];
    assert rs == front + [last];
    KeySetAppend(front, last);
    forall i | 0 <= i < |front| ensures front[i].key != last.key {
      LessIsTotalOrder(rs[i].key, last.key, last.key);
    }
  }

  lemma NoKeys(rs: seq<SearchResult>)
    ensures KeySet(rs) == {} <==> rs == []
  {
    if rs != [] { KeyInSet(rs, 0); }
  }

  /** Two strictly sorted lists over the same keys have the same keys in the same order. */
  lemma {:induction false} SortedKeysAreUnique(a: seq<SearchResult>, b: seq<SearchResult>)
    requires StrictlySorted(a) && StrictlySorted(b) && KeySet(a) == KeySet(b)
    ensures KeysOf(a) == KeysOf(b)
  {
    hide Less, StrictlySorted;
    if a == [] || b == [] {
      NoKeys(a);
      NoKeys(b);
    } else {
      var x, y := a[|a| - 1].key, b[|b| - 1].key;
      assert x in KeySet(a) && y in KeySet(b);
      LastIsGreatest(a, y);
      LastIsGreatest(b, x);
      LessIsTotalOrder(x, y, x);
      WithoutLast(a);
      WithoutLast(b);
      SortedKeysAreUnique(a[..|a| - 1], b[..|b| - 1]);
      assert KeysOf(a) == KeysOf(a[..|a| - 1]) + [x];
      assert KeysOf(b) == KeysOf(b[..|b| - 1]) + [y];
    }
  }

  // ---- Refinement --------------------------------------------------------------------------

  datatype Refinement = Refinement(
    confirmed: seq<SearchResult>,
    added: seq<SearchResult>,
    removed: seq<SearchResult>,
    merged: seq<SearchResult>)

  /** The three parts are the intersection and the two differences, by key. */
  ghost predicate Partition(r: Refinement, indexed: seq<SearchResult>, direct: seq<SearchResult>) {
    && StrictlySorted(r.confirmed) && StrictlySorted(r.added) && StrictlySorted(r.removed)
    && KeySet(r.confirmed) == KeySet(indexed) * KeySet(direct)
    && KeySet(r.added) == KeySet(direct) - KeySet(indexed)
    && KeySet(r.removed) == KeySet(indexed) - KeySet(direct)
  }

  function Truncated(rs: seq<SearchResult>, limit: nat): seq<SearchResult> {
    if |rs| > limit then rs[..limit] else rs
  }

  /** The list is strictly sorted up to here, and all of it lies below the given position. */
  ghost predicate Below(rs: seq<SearchResult>, ordered: seq<SearchResult>, at: nat)
    requires at <= |ordered|
  {
    && StrictlySorted(rs)
    && forall i, j :: 0 <= i < |rs| && at <= j < |ordered| ==> Less(rs[i].key, ordered[j].key)
  }

  lemma AppendBelow(rs: seq<SearchResult>, ordered: seq<SearchResult>, at: nat)
    requires StrictlySorted(ordered) && at < |ordered| && Below(rs, ordered, at)
    ensures Below(rs + [ordered[at]], ordered, at + 1)
  {
    hide Less;
  }

  /** Moving on from `at` keeps what lay below. */
  lemma StillBelow(rs: seq<SearchResult>, ordered: seq<SearchResult>, at: nat)
    requires at < |ordered| && Below(rs, ordered, at)
    ensures Below(rs, ordered, at + 1)
  {
    hide Less;
  }

  /** The state of the two-pointer loop: what is consumed has been divided. */
  ghost predicate Divided(r: Refinement, indexed: seq<SearchResult>, direct: seq<SearchResult>, i: nat, d: nat)
    requires i <= |indexed| && d <= |direct|
  {
    && Below(r.confirmed, direct, d) && Below(r.added, direct, d) && Below(r.removed, indexed, i)
    && KeySet(r.confirmed) == KeySet(indexed[..i]) * KeySet(direct) == KeySet(direct[..d]) * KeySet(indexed)
    && KeySet(r.added) == KeySet(direct[..d]) - KeySet(indexed)
    && KeySet(r.removed) == KeySet(indexed[..i]) - KeySet(direct)
  }

  /** Every consumed key lies below everything that is left on the other side. */
  ghost predicate Crossed(indexed: seq<SearchResult>, direct: seq<SearchResult>, i: nat, d: nat)
    requires i <= |indexed| && d <= |direct|
  {
    && (forall x, y :: 0 <= x < i && d <= y < |direct| ==> Less(indexed[x].key, direct[y].key))
    && (forall x, y :: 0 <= y < d && i <= x < |indexed| ==> Less(direct[y].key, indexed[x].key))
  }

  lemma CrossBoth(a: seq<SearchResult>, b: seq<SearchResult>, i: nat, d: nat)
    requires StrictlySorted(a) && StrictlySorted(b) && i < |a| && d < |b| && Crossed(a, b, i, d)
    requires a[i].key == b[d].key
    ensures Crossed(a, b, i + 1, d + 1)
  {
    hide Less;
  }

  lemma CrossOne(a: seq<SearchResult>, b: seq<SearchResult>, i: nat, d: nat)
    requires StrictlySorted(a) && StrictlySorted(b) && i < |a| && d < |b| && Crossed(a, b, i, d)
    requires Less(a[i].key, b[d].key)
    ensures Crossed(a, b, i + 1, d) && a[i].key !in KeySet(b)
  {
    hide Less;
    forall y | 0 <= y < |b| ensures b[y].key != a[i].key && (y >= d ==> Less(a[i].key, b[y].key)) {
      LessIsTotalOrder(a[i].key, b[d].key, b[y].key);
      LessIsTotalOrder(b[y].key, a[i].key, b[y].key);
    }
  }

  lemma CrossedSwaps(a: seq<SearchResult>, b: seq<SearchResult>, i: nat, d: nat)
    requires i <= |a| && d <= |b|
    ensures Crossed(a, b, i, d) <==> Crossed(b, a, d, i)
  {
    hide Less;
  }

  /** At the end of one list, what is left of the other is not in it. */
  lemma LeftoverIsElsewhere(a: seq<SearchResult>, b: seq<SearchResult>, i: nat)
    requires i < |a| && Crossed(a, b, i, |b|) && StrictlySorted(a)
    ensures Crossed(a, b, i + 1, |b|) && a[i].key !in KeySet(b)
  {
    hide Less;
    forall y | 0 <= y < |b| ensures b[y].key != a[i].key {
      LessIsTotalOrder(b[y].key, a[i].key, b[y].key);
    }
  }

  lemma Prefix(rs: seq<SearchResult>, i: nat)
    requires i < |rs|
    ensures KeySet(rs[..i + 1]) == KeySet(rs[..i]) + {rs[i].key} && rs[i].key in KeySet(rs)
  {
    assert rs[..i + 1] == rs[..i] + [rs[i]];
    KeySetAppend(rs[..i], rs[i]);
  }

  lemma Confirm(r: Refinement, indexed: seq<SearchResult>, direct: seq<SearchResult>, i: nat, d: nat)
    requires StrictlySorted(indexed) && StrictlySorted(direct) && i < |indexed| && d < |direct|
    requires Divided(r, indexed, direct, i, d) && indexed[i].key == direct[d].key
    ensures Divided(r.(confirmed := r.confirmed + [direct[d]]), indexed, direct, i + 1, d + 1)
  {
    hide Less, KeySet, StrictlySorted, Below;
    Prefix(indexed, i);
    Prefix(direct, d);
    KeySetAppend(r.confirmed, direct[d]);
    AppendBelow(r.confirmed, direct, d);
    StillBelow(r.added, direct, d);
    StillBelow(r.removed, indexed, i);
  }

  lemma Remove(r: Refinement, indexed: seq<SearchResult>, direct: seq<SearchResult>, i: nat, d: nat)
    requires StrictlySorted(indexed) && i < |indexed| && d <= |direct|
    requires Divided(r, indexed, direct, i, d) && indexed[i].key !in KeySet(direct)
    ensures Divided(r.(removed := r.removed + [indexed[i]]), indexed, direct, i + 1, d)
  {
    hide Less, KeySet, StrictlySorted, Below;
    Prefix(indexed, i);
    KeySetAppend(r.removed, indexed[i]);
    AppendBelow(r.removed, indexed, i);
  }

  lemma Add(r: Refinement, indexed: seq<SearchResult>, direct: seq<SearchResult>, i: nat, d: nat)
    requires StrictlySorted(direct) && i <= |indexed| && d < |direct|
    requires Divided(r, indexed, direct, i, d) && direct[d].key !in KeySet(indexed)
    ensures Divided(r.(added := r.added + [direct[d]]), indexed, direct, i, d + 1)
  {
    hide Less, KeySet, StrictlySorted, Below;
    Prefix(direct, d);
    KeySetAppend(r.added, direct[d]);
    AppendBelow(r.added, direct, d);
    StillBelow(r.confirmed, direct, d);
  }

  /** Nothing is divided at the start, everything at the end. */
  lemma DividedEnds(r: Refinement, indexed: seq<SearchResult>, direct: seq<SearchResult>)
    ensures Divided(Refinement([], [], [], []), indexed, direct, 0, 0) && Crossed(indexed, direct, 0, 0)
    ensures Divided(r, indexed, direct, |indexed|, |direct|) ==> Partition(r, indexed, direct)
  {
    hide Less;
    assert indexed[..|indexed|] == indexed && direct[..|direct|] == direct;
  }

  /** Where each result of a refinement comes from. */
  ghost predicate Sources(r: Refinement, indexed: seq<SearchResult>, direct: seq<SearchResult>) {
    && (forall x :: x in r.confirmed ==> x in direct) && (forall x :: x in r.added ==> x in direct)
    && (forall x :: x in r.removed ==> x in indexed)
  }

  /** The two-iterator loop over the ordered lists. */
  method Divide(indexed: seq<SearchResult>, direct: seq<SearchResult>) returns (r: Refinement)
    requires StrictlySorted(indexed) && StrictlySorted(direct)
    ensures Partition(r, indexed, direct) && Sources(r, indexed, direct)
  {
    hide Less, KeySet, StrictlySorted, Divided, Crossed;
    r := Refinement([], [], [], []);
    var i: nat, d: nat := 0, 0;
    DividedEnds(r, indexed, direct);
    while i < |indexed| && d < |direct|
      invariant i <= |indexed| && d <= |direct| && Divided(r, indexed, direct, i, d) && Crossed(indexed, direct, i, d)
      invariant Sources(r, indexed, direct)
      decreases |indexed| - i + |direct| - d
    {
      LessIsTotalOrder(indexed[i].key, direct[d].key, direct[d].key);
      CrossedSwaps(indexed, direct, i, d);
      if indexed[i].key == direct[d].key {
        CrossBoth(indexed, direct, i, d);
        Confirm(r, indexed, direct, i, d);
        r := r.(confirmed := r.confirmed + [direct[d]]);
        i, d := i + 1, d + 1;
      } else if Less(indexed[i].key, direct[d].key) {
        CrossOne(indexed, direct, i, d);
        Remove(r, indexed, direct, i, d);
        r := r.(removed := r.removed + [indexed[i]]);
        i := i + 1;
      } else {
        CrossOne(direct, indexed, d, i);
        CrossedSwaps(direct, indexed, d + 1, i);
        Add(r, indexed, direct, i, d);
        r := r.(added := r.added + [direct[d]]);
        d := d + 1;
      }
    }
    while i < |indexed|
      invariant i <= |indexed| && Divided(r, indexed, direct, i, d) && Crossed(indexed, direct, i, d)
      invariant i < |indexed| ==> d == |direct|
      invariant Sources(r, indexed, direct)
    {
      LeftoverIsElsewhere(indexed, direct, i);
      Remove(r, indexed, direct, i, d);
      r := r.(removed := r.removed + [indexed[i]]);
      i := i + 1;
    }
    while d < |direct|
      invariant d <= |direct| && Divided(r, indexed, direct, i, d) && Crossed(indexed, direct, i, d)
      invariant Sources(r, indexed, direct)
    {
      CrossedSwaps(indexed, direct, i, d);
      LeftoverIsElsewhere(direct, indexed, d);
      CrossedSwaps(direct, indexed, d + 1, i);
      Add(r, indexed, direct, i, d);
      r := r.(added := r.added + [direct[d]]);
      d := d + 1;
    }
    DividedEnds(r, indexed, direct);
  }

  /** The first `limit` results, by key, of a list with these keys. */
  ghost predicate IsFront(rs: seq<SearchResult>, keys: set<Key>, limit: nat) {
    && StrictlySorted(rs) && |rs| <= limit && KeySet(rs) <= keys
    && forall k :: k in keys && k !in KeySet(rs) ==> |rs| == limit && AllLess(rs, k)
  }

  ghost predicate AllLess(rs: seq<SearchResult>, k: Key) { forall i :: 0 <= i < |rs| ==> Less(rs[i].key, k) }

  lemma TruncatedIsFront(ordered: seq<SearchResult>, limit: nat)
    requires StrictlySorted(ordered)
    ensures IsFront(Truncated(ordered, limit), KeySet(ordered), limit)
  {
    hide Less;
    var front := Truncated(ordered, limit);
    forall k | k in KeySet(ordered) && k !in KeySet(front) ensures |front| == limit && AllLess(front, k) {
      var i :| 0 <= i < |ordered| && ordered[i].key == k;
      OutsideFront(front, ordered, i);
    }
  }

  lemma OutsideFront(front: seq<SearchResult>, ordered: seq<SearchResult>, i: nat)
    requires front <= ordered && i < |ordered| && ordered[i].key !in KeySet(front)
    ensures i >= |front|
  {
    hide KeySet;
    if i < |front| { KeyInSet(front, i); }
  }

  /** Confirmed, added and removed divide the two lists; merged is the front of the
      direct results in order, whose keys are those of confirmed and added. */
  method RefineSearchResults(indexed: seq<SearchResult>, direct: seq<SearchResult>, limit: nat) returns (r: Refinement)
    ensures Partition(r, indexed, direct) && Sources(r, indexed, direct)
    ensures IsFront(r.merged, KeySet(direct), limit) && KeySet(direct) == KeySet(r.confirmed) + KeySet(r.added)
    ensures forall x :: x in r.merged ==> x in direct
  {
    hide Less, KeySet, StrictlySorted, IsFront;
    var orderedIndexed := SortAndRemoveDuplicates(indexed);
    var orderedDirect := SortAndRemoveDuplicates(direct);
    r := Divide(orderedIndexed, orderedDirect);
    TruncatedIsFront(orderedDirect, limit);
    r := r.(merged := Truncated(orderedDirect, limit));
  }

  method MergeSearchResults(indexed: seq<SearchResult>, direct: seq<SearchResult>, limit: nat)
    returns (merged: seq<SearchResult>)
    ensures IsFront(merged, KeySet(indexed) + KeySet(direct), limit)
    ensures forall x :: x in merged ==> x in indexed || x in direct
  {
    hide Less, KeySet, StrictlySorted, IsFront;
    KeySetConcat(indexed, direct);
    var ordered := SortAndRemoveDuplicates(indexed + direct);
    TruncatedIsFront(ordered, limit);
    merged := Truncated(ordered, limit);
    forall x | x in merged ensures x in indexed || x in direct {
      assert x in ordered;
      assert x in indexed + direct;
    }
  }

  lemma {:induction false} KeyCount(rs: seq<SearchResult>)
    requires StrictlySorted(rs)
    ensures |KeySet(rs)| == |rs|
  {
    hide Less, StrictlySorted;
    if rs == [] {
      NoKeys(rs);
    } else {
      WithoutLast(rs);
      KeyInSet(rs, |rs| - 1);
      KeyCount(rs[..|rs| - 1]);
    }
  }

  lemma KeyIsLess(rs: seq<SearchResult>, key: Key, k: Key)
    requires key in KeySet(rs) && AllLess(rs, k)
    ensures Less(key, k)
  {
    hide Less;
  }

  /** What the user sees depends only on the keys and the limit, not on which list
      comes first or on how equal keys were ordered. */
  lemma FrontIsDetermined(a: seq<SearchResult>, b: seq<SearchResult>, keys: set<Key>, limit: nat)
    requires IsFront(a, keys, limit) && IsFront(b, keys, limit)
    ensures KeysOf(a) == KeysOf(b)
  {
    hide Less, StrictlySorted, KeySet, AllLess;
    KeyCount(a);
    KeyCount(b);
    if KeySet(a) != KeySet(b) {
      var x, y := Difference(KeySet(a), KeySet(b), keys, limit);
      KeyIsLess(b, y, x);
      KeyIsLess(a, x, y);
      LessIsTotalOrder(x, y, x);
    }
    SortedKeysAreUnique(a, b);
  }

  /** Two different sets of keys: if a missing key means that a set has `limit`
      elements, each has a key that the other misses. */
  lemma Difference(s: set<Key>, t: set<Key>, keys: set<Key>, limit: nat) returns (x: Key, y: Key)
    requires s != t && s <= keys && t <= keys && |s| <= limit && |t| <= limit
    requires forall k :: k in keys && k !in s ==> |s| == limit
    requires forall k :: k in keys && k !in t ==> |t| == limit
    ensures x in s && x !in t && y in t && y !in s
  {
    NoSubset(s, t, keys, limit);
    NoSubset(t, s, keys, limit);
    x :| x in s && x !in t;
    y :| y in t && y !in s;
  }

  lemma NoSubset(s: set<Key>, t: set<Key>, keys: set<Key>, limit: nat)
    requires s != t && t <= keys && |t| <= limit
    requires forall k :: k in keys && k !in s ==> |s| == limit
    ensures !(s <= t)
  {
    if s <= t { ProperSubset(s, t); }
  }

  lemma ProperSubset(s: set<Key>, t: set<Key>)
    requires s <= t && s != t
    ensures |s| < |t| && exists k :: k in t && k !in s
  {
    assert t == s + (t - s);
    assert t - s != {};
    var k :| k in t - s;
  }
}
