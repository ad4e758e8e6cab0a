/** The polling watcher: the difference of two directory snapshots, as sorted events. */
module Watching {
  import opened Optional
  import opened ResultOrder

  /** A normalized relative path. */
  type Path = string

  datatype WatchedEntry = WatchedEntry(modifiedAt: int, size: nat, directory: bool)

  type Snapshot = map<Path, WatchedEntry>

  datatype ChangeKind = Created | Modified | Deleted

  datatype Event = Event(path: Path, kind: ChangeKind, directory: bool)

  datatype Batch = Batch(events: seq<Event>, requiresRescan: bool)

  function Changed(previous: WatchedEntry, current: WatchedEntry): bool {
    previous.modifiedAt != current.modifiedAt || previous.size != current.size
      || previous.directory != current.directory
  }

  /** What must be reported of one path. */
  function EventOf(before: Snapshot, after: Snapshot, path: Path): Option<Event> {
    if path in after && path !in before then Some(Event(path, Created, after[path].directory))
    else if path in after && Changed(before[path], after[path]) then Some(Event(path, Modified, after[path].directory))
    else if path !in after && path in before then Some(Event(path, Deleted, before[path].directory))
    else None
  }

  /** By path, each path at most once. */
  predicate SortedByPath(events: seq<Event>) {
    forall i, j :: 0 <= i < j < |events| ==> CompareText(events[i].path, events[j].path) < 0
  }

  /** The batch reports exactly what must be reported. */
  ghost predicate Reports(events: seq<Event>, before: Snapshot, after: Snapshot) {
    && SortedByPath(events)
    && (forall e :: e in events ==> EventOf(before, after, e.path) == Some(e))
    && forall path: Path :: EventOf(before, after, path).Some? ==> EventOf(before, after, path).value in events
  }

  class PollingFileWatcher {
    var entries: Snapshot

    constructor (baseline: Snapshot)
      ensures entries == baseline
    {
      entries := baseline;
    }

    /** One poll; `current` is None when the snapshot was interrupted. */
    method Poll(current: Option<Snapshot>) returns (batch: Batch)
      modifies this
      ensures current.None? ==> batch == Batch([], true) && entries == old(entries)
      ensures current.Some? ==>
        Reports(batch.events, old(entries), current.value) && !batch.requiresRescan && entries == current.value
    {
      hide SortedByPath, ReportsOf, Reports;
      if current.None? {
        return Batch([], true);
      }
      var events := PresentEvents(entries, current.value);
      ghost var seen;
      events, seen := WithDeletedEvents(entries, current.value, events);
      AllSeen(events, entries, current.value, seen);
      entries := current.value;
      batch := Batch(events, false);
    }
  }

  /** The loop over the new snapshot: created and modified paths. */
  method PresentEvents(before: Snapshot, after: Snapshot) returns (events: seq<Event>)
    ensures ReportsOf(events, before, after, after.Keys)
  {
    hide SortedByPath, ReportsOf;
    events := [];
    NothingSeen(before, after);
    var left := after.Keys;
    assert after.Keys - left == {};
    while left != {}
      invariant left <= after.Keys && ReportsOf(events, before, after, after.Keys - left)
      decreases |left|
    {
      var path :| path in left;
      ghost var was, seen := events, after.Keys - left;
      left := left - {path};
      assert after.Keys - left == seen + {path};
      NotSeen(events, before, after, seen, path);
      if path !in before {
        events := Inserted(events, Event(path, Created, after[path].directory));
      } else if Changed(before[path], after[path]) {
        events := Inserted(events, Event(path, Modified, after[path].directory));
      }
      PathSeen(was, events, before, after, seen, path);
    }
    assert after.Keys - left == after.Keys;
  }

  /** The loop over the old snapshot: deleted paths. */
  method WithDeletedEvents(before: Snapshot, after: Snapshot, present: seq<Event>)
    returns (events: seq<Event>, ghost seen: set<Path>)
    requires ReportsOf(present, before, after, after.Keys)
    ensures ReportsOf(events, before, after, seen)
    ensures forall path :: path in after || path in before ==> path in seen
  {
    hide SortedByPath, ReportsOf;
    events, seen := present, after.Keys;
    var left := before.Keys;
    while left != {}
      invariant left <= before.Keys && ReportsOf(events, before, after, seen)
      invariant forall path :: path in after || (path in before && path !in left) ==> path in seen
      invariant forall path :: path in left && path in seen ==> path in after
      decreases |left|
    {
      var path :| path in left;
      left := left - {path};
      if path !in after {
        ghost var was := events;
        NotSeen(events, before, after, seen, path);
        events := Inserted(events, Event(path, Deleted, before[path].directory));
        PathSeen(was, events, before, after, seen, path);
        seen := seen + {path};
      }
    }
  }

  /** What must be reported of the paths in `seen` is reported, and nothing else. */
  ghost predicate ReportsOf(events: seq<Event>, before: Snapshot, after: Snapshot, seen: set<Path>) {
    && SortedByPath(events)
    && (forall e :: e in events ==> EventOf(before, after, e.path) == Some(e) && e.path in seen)
    && forall path :: path in seen && EventOf(before, after, path).Some? ==>
      EventOf(before, after, path).value in events
  }

  lemma NothingSeen(before: Snapshot, after: Snapshot)
    ensures ReportsOf([], before, after, {})
  {}

  lemma NotSeen(events: seq<Event>, before: Snapshot, after: Snapshot, seen: set<Path>, path: Path)
    requires ReportsOf(events, before, after, seen) && path !in seen
    ensures SortedByPath(events) && forall x :: x in events ==> x.path != path
  {
    hide SortedByPath;
  }

  lemma PathSeen(events: seq<Event>, more: seq<Event>, before: Snapshot, after: Snapshot, seen: set<Path>, path: Path)
    requires ReportsOf(events, before, after, seen) && SortedByPath(more)
    requires match EventOf(before, after, path)
      case None => more == events
      case Some(e) => forall x :: x in more <==> x in events || x == e
    ensures ReportsOf(more, before, after, seen + {path})
  {
    hide SortedByPath, Changed;
  }

  lemma AllSeen(events: seq<Event>, before: Snapshot, after: Snapshot, seen: set<Path>)
    requires ReportsOf(events, before, after, seen) && forall path :: path in after || path in before ==> path in seen
    ensures Reports(events, before, after)
  {
    hide SortedByPath;
  }

  /** Sorting, one event at a time: no two have the same path. */
  method Inserted(events: seq<Event>, e: Event) returns (more: seq<Event>)
    requires SortedByPath(events) && forall x :: x in events ==> x.path != e.path
    ensures SortedByPath(more) && forall x :: x in more <==> x in events || x == e
  {
    hide CompareText;
    var at := 0;
    while at < |events| && CompareText(events[at].path, e.path) < 0
      invariant at <= |events| && forall i :: 0 <= i < at ==> CompareText(events[i].path, e.path) < 0
    {
      at := at + 1;
    }
    forall i | at <= i < |events| ensures CompareText(e.path, events[i].path) < 0 {
      assert events[i] in events && events[at] in events;
      TextEqual(events[at].path, e.path);
      TextOrder(e.path, events[at].path, events[i].path);
    }
    InsertedInOrder(events, at, e);
    InsertedHolds(events, at, e);
    more := events[..at] + [e] + events[at..];
  }

  lemma InsertedInOrder(events: seq<Event>, at: nat, e: Event)
    requires SortedByPath(events) && at <= |events|
    requires forall i :: 0 <= i < at ==> CompareText(events[i].path, e.path) < 0
    requires forall i :: at <= i < |events| ==> CompareText(e.path, events[i].path) < 0
    ensures SortedByPath(events[..at] + [e] + events[at..])
  {
    hide CompareText;
    var more := events[..at] + [e] + events[at..];
    forall i, j | 0 <= i < j < |more| ensures CompareText(more[i].path, more[j].path) < 0 {
      assert more[i] == if i < at then events[i] else if i == at then e else events[i - 1];
      assert more[j] == if j < at then events[j] else if j == at then e else events[j - 1];
    }
  }

  lemma InsertedHolds(events: seq<Event>, at: nat, e: Event)
    requires at <= |events|
    ensures forall x :: x in events[..at] + [e] + events[at..] <==> x in events || x == e
  {
    assert events == events[..at] + events[at..];
  }

  lemma TextOrder(a: string, b: string, c: string)
    ensures CompareText(b, a) >= 0 && CompareText(b, a) != 0 ==> CompareText(a, b) < 0
    ensures CompareText(a, b) < 0 && CompareText(b, c) < 0 ==> CompareText(a, c) < 0
    ensures CompareText(a, a) == 0
  {
    hide CompareText;
    TextsFit(a, b, c);
    TextEqual(a, a);
  }

  // ---- What is reported --------------------------------------------------------------

  /** A path that stays is reported, as modified, if and only if its entry has changed in
      any way; so what is not reported is as it was. */
  lemma ModifiedExactly(events: seq<Event>, before: Snapshot, after: Snapshot, path: Path)
    requires Reports(events, before, after)
    ensures path in before && path in after && before[path] != after[path] ==>
      Event(path, Modified, after[path].directory) in events
    ensures path in before && path in after && before[path] == after[path] ==>
      forall e :: e in events ==> e.path != path
    ensures path !in before && path in after ==> Event(path, Created, after[path].directory) in events
    ensures path in before && path !in after ==> Event(path, Deleted, before[path].directory) in events
  {
    hide SortedByPath;
    assert EventOf(before, after, path).Some? ==> EventOf(before, after, path).value in events;
  }

  /** The events come in the order of their paths: the first difference decides. */
  lemma EventsAreOrdered(events: seq<Event>, before: Snapshot, after: Snapshot, i: nat, j: nat)
    requires Reports(events, before, after) && i < j < |events|
    ensures TextBefore(events[i].path, events[j].path)
  {
    CompareTextMeans(events[i].path, events[j].path);
  }

  // ---- Replaying ------------------------------------------------------------------------

  function Replayed(paths: set<Path>, events: seq<Event>): set<Path> {
    if events == [] then paths else
      var before := Replayed(paths, events[..|events| - 1]);
      match events[|events| - 1].kind
      case Created => before + {events[|events| - 1].path}
      case Deleted => before - {events[|events| - 1].path}
      case Modified => before
  }

  ghost predicate Reported(events: seq<Event>, path: Path, kind: ChangeKind) {
    exists i :: 0 <= i < |events| && events[i].path == path && events[i].kind == kind
  }

  lemma ReportedLast(events: seq<Event>, path: Path, kind: ChangeKind)
    requires events != []
    ensures var last := events[|events| - 1];
      Reported(events, path, kind) <==>
        Reported(events[..|events| - 1], path, kind) || (last.path == path && last.kind == kind)
  {
    var front := events[..|events| - 1];
    if Reported(front, path, kind) {
      var i :| 0 <= i < |front| && front[i].path == path && front[i].kind == kind;
      assert events[i] == front[i];
    }
    if Reported(events, path, kind) {
      var i :| 0 <= i < |events| && events[i].path == path && events[i].kind == kind;
      assert i < |front| ==> front[i] == events[i];
    }
  }

  /** After the events, a path is there if an event created it, or if it was there
      and no event deleted it; provided no path is reported twice. */
  lemma {:induction false} ReplayedByPath(paths: set<Path>, events: seq<Event>, path: Path)
    requires forall i, j :: 0 <= i < j < |events| ==> events[i].path != events[j].path
    ensures path in Replayed(paths, events) <==>
      Reported(events, path, Created) || (path in paths && !Reported(events, path, Deleted))
  {
    if events == [] {
    } else {
      var front, last := events[..|events| - 1], events[|events| - 1];
      assert forall i :: 0 <= i < |front| ==> front[i] == events[i];
      ReplayedByPath(paths, front, path);
      ReportedLast(events, path, Created);
      ReportedLast(events, path, Deleted);
      if last.path == path {
        assert forall i :: 0 <= i < |front| ==> events[i].path != events[|events| - 1].path;
        assert !Reported(front, path, Created) && !Reported(front, path, Deleted);
      }
    }
  }

  lemma ReportedMeans(events: seq<Event>, before: Snapshot, after: Snapshot, path: Path)
    requires Reports(events, before, after)
    ensures Reported(events, path, Created) <==> path in after && path !in before
    ensures Reported(events, path, Deleted) <==> path in before && path !in after
  {
    hide SortedByPath;
    if EventOf(before, after, path).Some? {
      assert EventOf(before, after, path).value in events;
    }
    if kind: ChangeKind :| Reported(events, path, kind) {
      forall i | 0 <= i < |events| && events[i].path == path ensures EventOf(before, after, path) == Some(events[i]) {
        assert events[i] in events;
      }
    }
  }

  lemma SortedPathsDiffer(events: seq<Event>)
    requires SortedByPath(events)
    ensures forall i, j :: 0 <= i < j < |events| ==> events[i].path != events[j].path
  {
    hide CompareText;
    forall i, j | 0 <= i < j < |events| ensures events[i].path != events[j].path {
      TextEqual(events[i].path, events[j].path);
    }
  }

  /** One complete poll: replaying its events turns the old paths into the new ones. */
  lemma BatchReplays(events: seq<Event>, before: Snapshot, after: Snapshot)
    requires Reports(events, before, after)
    ensures Replayed(before.Keys, events) == after.Keys
  {
    hide Replayed, SortedByPath, Reported;
    assert SortedByPath(events);
    SortedPathsDiffer(events);
    forall path ensures path in Replayed(before.Keys, events) <==> path in after.Keys {
      ReplayedByPath(before.Keys, events, path);
      ReportedMeans(events, before, after, path);
    }
  }

  /** The snapshot the watcher holds after a run of polls. */
  function LastComplete(baseline: Snapshot, polls: seq<Option<Snapshot>>): Snapshot {
    if polls == [] then baseline
    else if polls[|polls| - 1].Some? then polls[|polls| - 1].value
    else LastComplete(baseline, polls[..|polls| - 1])
  }

  /** The batches are those that Poll may return, one for each poll. */
  ghost predicate IsRun(baseline: Snapshot, polls: seq<Option<Snapshot>>, batches: seq<Batch>) {
    && |batches| == |polls|
    && forall k :: 0 <= k < |polls| ==>
         if polls[k].Some? then Reports(batches[k].events, LastComplete(baseline, polls[..k]), polls[k].value)
         else batches[k].events == []
  }

  function AllEvents(batches: seq<Batch>): seq<Event> {
    if batches == [] then [] else AllEvents(batches[..|batches| - 1]) + batches[|batches| - 1].events
  }

  lemma {:induction false} ReplayConcat(paths: set<Path>, first: seq<Event>, second: seq<Event>)
    ensures Replayed(paths, first + second) == Replayed(Replayed(paths, first), second)
  {
    var whole := first + second;
    if second == [] {
      assert whole == first;
    } else {
      ReplayConcat(paths, first, second[..|second| - 1]);
      assert whole[..|whole| - 1] == first + second[..|second| - 1];
      assert whole[|whole| - 1] == second[|second| - 1];
    }
  }

  /** Over any run of complete and interrupted polls, replaying everything reported
      from the baseline gives the paths of the last complete snapshot. */
  lemma {:induction false} RunReplays(baseline: Snapshot, polls: seq<Option<Snapshot>>, batches: seq<Batch>)
    requires IsRun(baseline, polls, batches)
    ensures Replayed(baseline.Keys, AllEvents(batches)) == LastComplete(baseline, polls).Keys
  {
    hide Reports;
    if polls != [] {
      var n := |polls| - 1;
      ShorterRun(baseline, polls, batches);
      RunReplays(baseline, polls[..n], batches[..n]);
      ReplayConcat(baseline.Keys, AllEvents(batches[..n]), batches[n].events);
      if polls[n].Some? {
        BatchReplays(batches[n].events, LastComplete(baseline, polls[..n]), polls[n].value);
      }
    }
  }

  lemma ShorterRun(baseline: Snapshot, polls: seq<Option<Snapshot>>, batches: seq<Batch>)
    requires IsRun(baseline, polls, batches) && polls != []
    ensures IsRun(baseline, polls[..|polls| - 1], batches[..|polls| - 1])
  {
    hide Reports, LastComplete;
    var n := |polls| - 1;
    assert forall k :: 0 <= k < n ==> polls[..n][..k] == polls[..k];
  }

  /** The order is by path and leaves no choice: any two correct batches are equal. */
  lemma BatchIsDetermined(events: seq<Event>, other: seq<Event>, before: Snapshot, after: Snapshot)
    requires Reports(events, before, after) && Reports(other, before, after)
    ensures events == other
  {
    hide SortedByPath;
    forall e ensures e in events <==> e in other {}
    SortedEventsEqual(events, other);
  }

  lemma {:induction false} SortedEventsEqual(a: seq<Event>, b: seq<Event>)
    requires SortedByPath(a) && SortedByPath(b) && forall e :: e in a <==> e in b
    ensures a == b
  {
    hide CompareText;
    if a == [] || b == [] {
      NoEvents(a);
      NoEvents(b);
    } else {
      var x, y := a[0], b[0];
      FirstIsLeast(a, y);
      FirstIsLeast(b, x);
      TextOrder(x.path, y.path, x.path);
      assert x == y;
      AfterFirst(a);
      AfterFirst(b);
      SortedEventsEqual(a[1..], b[1..]);
      assert a == [x] + a[1..] && b == [y] + b[1..];
    }
  }

  lemma NoEvents(events: seq<Event>)
    ensures events == [] <==> forall e :: e !in events
  {
    if events != [] { assert events[0] in events; }
  }

  lemma FirstIsLeast(events: seq<Event>, e: Event)
    requires SortedByPath(events) && e in events
    ensures e == events[0] || CompareText(events[0].path, e.path) < 0
  {
    hide CompareText;
  }

  lemma AfterFirst(events: seq<Event>)
    requires SortedByPath(events) && events != []
    ensures SortedByPath(events[1..]) && forall e :: e in events[1..] <==> e in events && e != events[0]
  {
    SortedPathsDiffer(events);
    hide CompareText;
    assert events == [events[0]] + events[1..];
  }
}
