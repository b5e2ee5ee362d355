/**
 What a push event does to the items of a project: `BasePushEventHook.process_event` in
 taiga/hooks/event_hooks.py.

 `RunCommits` is the event as a function of the stored items and history; the class
 `PushEventHook` has the loops of the source and is proved to do what `RunCommits` says.
 An error leaves the state as it was when it was raised; the request's transaction, which then
 undoes everything, is outside this model. Items may be without a status, as the column is nullable.
 */
module PushEvents {
  import opened Wrappers
  import opened CommitScanner

  datatype Kind = Epic | Issue | Task | UserStory

  datatype Item = Item(kind: Kind, number: int)

  datatype Status = Status(slug: string, name: string)

  datatype Snapshot =
    | StatusChanged(item: Item, ref: string, source: string, destination: string)
    | Referenced(item: Item, ref: string)

  type Items = map<Item, Option<Status>>

  datatype State = State(items: Items, history: seq<Snapshot>)

  /** The first two are syntax errors, which the view answers as bad requests; reading a null status is not caught. */
  datatype EventError = NoSuchElement(ref: string) | NoSuchStatus(ref: string, slug: string) | NullStatus(ref: string)

  /** `number` stands for the conversion of a matched digit string to the integer the query compares with. */
  datatype Project = Project(cc: Classes, number: string -> int, statuses: map<(Kind, string), Status>)

  /** `get_item_classes`: epics are looked up first, then issues, tasks and user stories. */
  function Lookup(p: Project, items: Items, ref: string): (r: Result<Item, EventError>)
    ensures r.Success? ==> r.value in items && r.value.number == p.number(ref)
    ensures r.Failure? <==> forall item <- items :: item.number != p.number(ref)
  {
    var n := p.number(ref);
    if Item(Epic, n) in items then Success(Item(Epic, n))
    else if Item(Issue, n) in items then Success(Item(Issue, n))
    else if Item(Task, n) in items then Success(Item(Task, n))
    else if Item(UserStory, n) in items then Success(Item(UserStory, n))
    else
      assert forall item <- items :: item.number == n ==> item.kind != Epic && item.kind != Issue && item.kind != Task;
      Failure(NoSuchElement(ref))
  }

  /** Of the items with the number, an epic is found before an issue, an issue before a task, a task before a story. */
  lemma LookupTakesFirstKind(p: Project, items: Items, ref: string, item: Item)
    requires item in items && item.number == p.number(ref)
    ensures Lookup(p, items, ref).Success?
    ensures
      var found := Lookup(p, items, ref).value;
      match item.kind
      case Epic => found == item
      case Issue => found == item || found.kind == Epic
      case Task => found == item || found.kind == Epic || found.kind == Issue
      case UserStory => true
    ensures Lookup(p, items, ref).value.kind == item.kind ==> Lookup(p, items, ref).value == item
  {
    assert item == Item(item.kind, p.number(ref));
  }

  /** The item a status match names, the status it has, and the one it is to get. */
  function StatusFor(p: Project, items: Items, m: Found): Result<(Item, Status, Status), EventError> {
    match Lookup(p, items, m.ref)
    case Failure(e) => Failure(e)
    case Success(item) =>
      if (item.kind, m.slug) !in p.statuses then Failure(NoSuchStatus(m.ref, m.slug))
      else if items[item].None? then Failure(NullStatus(m.ref))
      else Success((item, items[item].value, p.statuses[(item.kind, m.slug)]))
  }

  // -------------------------------------------------------------------------
  // The event as a function
  // -------------------------------------------------------------------------

  function ChangeStatus(st: State, item: Item, source: Status, destination: Status, ref: string): State {
    State(st.items[item := Some(destination)],
          st.history + [StatusChanged(item, ref, source.name, destination.name)])
  }

  function RunStatuses(p: Project, st: State, ms: seq<Found>): (State, Option<EventError>)
    decreases |ms|
  {
    if ms == [] then (st, None)
    else
      match StatusFor(p, st.items, ms[0])
      case Failure(e) => (st, Some(e))
      case Success((item, source, destination)) =>
        RunStatuses(p, ChangeStatus(st, item, source, destination, ms[0].ref), ms[1..])
  }

  function RunMentions(p: Project, st: State, ms: seq<Found>, consumed: seq<string>): (State, Option<EventError>)
    decreases |ms|
  {
    if ms == [] then (st, None)
    else if ms[0].ref in consumed then RunMentions(p, st, ms[1..], consumed)
    else
      match Lookup(p, st.items, ms[0].ref)
      case Failure(e) => (st, Some(e))
      case Success(item) =>
        RunMentions(p, st.(history := st.history + [Referenced(item, ms[0].ref)]), ms[1..], consumed + [ms[0].ref])
  }

  function RunCommit(p: Project, st: State, message: string): (State, Option<EventError>) {
    var changes := FindAll(p.cc, StatusChange, message, 0);
    var (changed, error) := RunStatuses(p, st, changes);
    if error.Some? then (changed, error)
    else RunMentions(p, changed, FindAll(p.cc, Mention, message, 0), Refs(changes))
  }

  function RunCommits(p: Project, st: State, messages: seq<string>): (State, Option<EventError>)
    decreases |messages|
  {
    if messages == [] then (st, None)
    else
      var (after, error) := RunCommit(p, st, messages[0]);
      if error.Some? then (after, error) else RunCommits(p, after, messages[1..])
  }

  // -------------------------------------------------------------------------
  // The event as the source has it
  // -------------------------------------------------------------------------

  class PushEventHook {
    const project: Project
    const ignored: bool
    var items: Items
    var history: seq<Snapshot>

    function Contents(): State
      reads this
    {
      State(items, history)
    }

    constructor (project: Project, ignored: bool, items: Items)
      ensures this.project == project && this.ignored == ignored && Contents() == State(items, [])
    {
      this.project, this.ignored, this.items, history := project, ignored, items, [];
    }

    method SetItemStatus(m: Found) returns (r: Result<(Item, string, string), EventError>)
      modifies this`items
      ensures
        match StatusFor(project, old(items), m)
        case Failure(e) => r == Failure(e) && items == old(items)
        case Success((item, source, destination)) =>
          r == Success((item, source.name, destination.name)) && items == old(items)[item := Some(destination)]
    {
      var item := Lookup(project, items, m.ref);
      if item.Failure? {
        return Failure(item.error);
      }
      var key := (item.value.kind, m.slug);
      if key !in project.statuses {
        return Failure(NoSuchStatus(m.ref, m.slug));
      }
      var source := items[item.value];
      if source.None? {
        return Failure(NullStatus(m.ref));
      }
      items := items[item.value := Some(project.statuses[key])];
      r := Success((item.value, source.value.name, project.statuses[key].name));
    }

    /** The body of the loop over commits. */
    method ProcessCommit(message: string) returns (error: Option<EventError>)
      modifies this
      ensures (Contents(), error) == RunCommit(project, old(Contents()), message)
    {
      hide Lookup, StatusFor;
      var consumedRefs: seq<string> := [];
      var changes := FindAll(project.cc, StatusChange, message, 0);
      for i := 0 to |changes|
        invariant RunStatuses(project, Contents(), changes[i..]) == RunStatuses(project, old(Contents()), changes)
        invariant consumedRefs == Refs(changes[..i])
      {
        assert changes[i..][1..] == changes[i + 1..];
        var r := SetItemStatus(changes[i]);
        if r.Failure? {
          return Some(r.error);
        }
        history := history + [StatusChanged(r.value.0, changes[i].ref, r.value.1, r.value.2)];
        consumedRefs := consumedRefs + [changes[i].ref];
      }
      assert changes[..|changes|] == changes;
      ghost var changed := Contents();

      var mentions := FindAll(project.cc, Mention, message, 0);
      for i := 0 to |mentions|
        invariant RunMentions(project, Contents(), mentions[i..], consumedRefs) ==
                  RunMentions(project, changed, mentions, Refs(changes))
      {
        assert mentions[i..][1..] == mentions[i + 1..];
        var ref := mentions[i].ref;
        if ref in consumedRefs {
          continue;
        }
        var item := Lookup(project, items, ref);
        if item.Failure? {
          return Some(item.error);
        }
        history := history + [Referenced(item.value, ref)];
        consumedRefs := consumedRefs + [ref];
      }
      return None;
    }

    method ProcessEvent(messages: seq<string>) returns (error: Option<EventError>)
      modifies this
      ensures (Contents(), error) ==
              if ignored then (old(Contents()), None) else RunCommits(project, old(Contents()), messages)
    {
      if ignored {
        return None;
      }
      for i := 0 to |messages|
        invariant RunCommits(project, Contents(), messages[i..]) == RunCommits(project, old(Contents()), messages)
      {
        assert messages[i..][1..] == messages[i + 1..];
        error := ProcessCommit(messages[i]);
        if error.Some? {
          return;
        }
      }
      return None;
    }
  }

  // -------------------------------------------------------------------------
  // Accounting
  // -------------------------------------------------------------------------

  function Count<T>(xs: seq<T>, p: T -> bool): nat {
    if xs == [] then 0 else (if p(xs[0]) then 1 else 0) + Count(xs[1..], p)
  }

  lemma {:induction false} CountOfConcat<T>(a: seq<T>, b: seq<T>, p: T -> bool)
    ensures Count(a + b, p) == Count(a, p) + Count(b, p)
  {
    if a == [] {
      assert a + b == b;
    } else {
      assert (a + b)[1..] == a[1..] + b;
      CountOfConcat(a[1..], b, p);
    }
  }

  function IsChangeOf(ref: string): Snapshot -> bool {
    (s: Snapshot) => s.StatusChanged? && s.ref == ref
  }

  function IsReferenceOf(ref: string): Snapshot -> bool {
    (s: Snapshot) => s.Referenced? && s.ref == ref
  }

  function MatchesRef(ref: string): Found -> bool {
    (m: Found) => m.ref == ref
  }

  /** Every snapshot is taken of the item its reference names. */
  predicate SnapshotsFit(p: Project, items: Items, snapshots: seq<Snapshot>) {
    forall i :: 0 <= i < |snapshots| ==> Lookup(p, items, snapshots[i].ref) == Success(snapshots[i].item)
  }

  lemma LookupSeesOnlyKeys(p: Project, items: Items, others: Items, ref: string)
    requires items.Keys == others.Keys
    ensures Lookup(p, items, ref) == Lookup(p, others, ref)
  {
  }

  /** The status an item ends up with: that of the last status match that names it. */
  function FinalStatus(p: Project, items: Items, ms: seq<Found>, item: Item): Option<Status>
    requires item in items
  {
    if ms == [] then items[item]
    else
      var last := ms[|ms| - 1];
      if Lookup(p, items, last.ref) == Success(item) && (item.kind, last.slug) in p.statuses
      then Some(p.statuses[(item.kind, last.slug)])
      else FinalStatus(p, items, ms[..|ms| - 1], item)
  }

  lemma {:induction false} FinalStatusFromFirst(
      p: Project, items: Items, after: Items, ms: seq<Found>, item: Item)
    requires item in items && items.Keys == after.Keys && ms != []
    requires after[item] == FinalStatus(p, items, ms[..1], item)
    ensures FinalStatus(p, after, ms[1..], item) == FinalStatus(p, items, ms, item)
  {
    var last := |ms| - 1;
    if last == 0 {
      assert ms[..1] == ms;
    } else {
      assert ms[..last][..1] == ms[..1] && ms[..last][1..] == ms[1..][..last - 1];
      FinalStatusFromFirst(p, items, after, ms[..last], item);
      LookupSeesOnlyKeys(p, items, after, ms[last].ref);
    }
  }

  lemma FitsConcat(p: Project, items: Items, others: Items, a: seq<Snapshot>, b: seq<Snapshot>)
    requires items.Keys == others.Keys && SnapshotsFit(p, items, a) && SnapshotsFit(p, others, b)
    ensures SnapshotsFit(p, items, a + b)
  {
    hide Lookup;
    forall i | 0 <= i < |b| ensures Lookup(p, items, b[i].ref) == Lookup(p, others, b[i].ref) {
      LookupSeesOnlyKeys(p, items, others, b[i].ref);
    }
  }

  lemma CountCons<T>(x: T, xs: seq<T>, p: T -> bool)
    ensures Count([x] + xs, p) == (if p(x) then 1 else 0) + Count(xs, p)
  {
    assert ([x] + xs)[1..] == xs;
  }

  /**
   The status pass: items end with the status of the last match that names them, and no item appears or goes
   away.
   */
  lemma {:induction false} StatusPassItems(p: Project, st: State, ms: seq<Found>)
    requires RunStatuses(p, st, ms).1 == None
    ensures
      var after := RunStatuses(p, st, ms).0.items;
      after.Keys == st.items.Keys && forall item <- st.items :: after[item] == FinalStatus(p, st.items, ms, item)
    decreases |ms|
  {
    if ms == [] {
    } else {
      hide Lookup;
      var (item, source, destination) := StatusFor(p, st.items, ms[0]).value;
      var next := ChangeStatus(st, item, source, destination, ms[0].ref);
      assert next.items.Keys == st.items.Keys;
      StatusPassItems(p, next, ms[1..]);
      forall other <- st.items
        ensures FinalStatus(p, next.items, ms[1..], other) == FinalStatus(p, st.items, ms, other)
      {
        assert ms[..1] == [ms[0]] && ms[..1][..0] == [];
        FinalStatusFromFirst(p, st.items, next.items, ms, other);
      }
    }
  }

  /**
   The status pass adds exactly one status snapshot per match, each of the item its reference names, and
   nothing else.
   */
  lemma {:induction false} StatusPassHistory(p: Project, st: State, ms: seq<Found>, ref: string)
    returns (added: seq<Snapshot>)
    requires RunStatuses(p, st, ms).1 == None
    ensures RunStatuses(p, st, ms).0.history == st.history + added && |added| == |ms|
    ensures SnapshotsFit(p, st.items, added)
    ensures Count(added, IsChangeOf(ref)) == Count(ms, MatchesRef(ref)) && Count(added, IsReferenceOf(ref)) == 0
    decreases |ms|
  {
    if ms == [] {
      added := [];
    } else {
      hide Lookup, Count, IsChangeOf, IsReferenceOf, MatchesRef;
      var (item, source, destination) := StatusFor(p, st.items, ms[0]).value;
      var next := ChangeStatus(st, item, source, destination, ms[0].ref);
      var rest := StatusPassHistory(p, next, ms[1..], ref);
      var first := StatusChanged(item, ms[0].ref, source.name, destination.name);
      added := [first] + rest;
      FitsConcat(p, st.items, next.items, [first], rest);
      OneMoreChange(first, rest, ms, ref);
    }
  }

  lemma {:induction false} OneMoreChange(first: Snapshot, rest: seq<Snapshot>, ms: seq<Found>, ref: string)
    requires ms != [] && first.StatusChanged? && first.ref == ms[0].ref
    requires Count(rest, IsChangeOf(ref)) == Count(ms[1..], MatchesRef(ref)) && Count(rest, IsReferenceOf(ref)) == 0
    ensures Count([first] + rest, IsChangeOf(ref)) == Count(ms, MatchesRef(ref))
    ensures Count([first] + rest, IsReferenceOf(ref)) == 0
  {
    assert ms == [ms[0]] + ms[1..];
    CountCons(ms[0], ms[1..], MatchesRef(ref));
    CountCons(first, rest, IsChangeOf(ref));
    CountCons(first, rest, IsReferenceOf(ref));
  }

  /**
   The mention pass adds one reference snapshot for each reference that is not consumed yet, however often it
   occurs.
   */
  lemma {:induction false} MentionPassHistory(
      p: Project, st: State, ms: seq<Found>, consumed: seq<string>, ref: string) returns (added: seq<Snapshot>)
    requires RunMentions(p, st, ms, consumed).1 == None
    ensures RunMentions(p, st, ms, consumed).0 == State(st.items, st.history + added)
    ensures SnapshotsFit(p, st.items, added)
    ensures Count(added, IsChangeOf(ref)) == 0
    ensures Count(added, IsReferenceOf(ref)) == if ref !in consumed && ref in Refs(ms) then 1 else 0
    decreases |ms|
  {
    if ms == [] {
      added := [];
    } else {
      hide Lookup;
      assert Refs(ms) == [ms[0].ref] + Refs(ms[1..]);
      if ms[0].ref in consumed {
        added := MentionPassHistory(p, st, ms[1..], consumed, ref);
      } else {
        var first := Referenced(Lookup(p, st.items, ms[0].ref).value, ms[0].ref);
        var rest := MentionPassHistory(
          p, st.(history := st.history + [first]), ms[1..], consumed + [ms[0].ref], ref);
        added := [first] + rest;
        FitsConcat(p, st.items, st.items, [first], rest);
        hide Count, SnapshotsFit;
        CountCons(first, rest, IsChangeOf(ref));
        CountCons(first, rest, IsReferenceOf(ref));
      }
    }
  }

  lemma {:induction false} CountIsPositiveIffPresent(ms: seq<Found>, ref: string)
    ensures Count(ms, MatchesRef(ref)) >= 1 <==> ref in Refs(ms)
  {
    if ms == [] {
    } else {
      CountIsPositiveIffPresent(ms[1..], ref);
      assert Refs(ms) == [ms[0].ref] + Refs(ms[1..]);
    }
  }

  // -------------------------------------------------------------------------
  // Theorems
  // -------------------------------------------------------------------------

  /**
   A commit processed without error adds to the history, for a reference with k >= 1 status matches,
   k status snapshots and no mention; for any other mentioned reference one mention; and nothing else.
   Every snapshot is of the item named. Items are changed by status matches only, the last one winning.
   */
  lemma CommitAccounting(p: Project, st: State, message: string, ref: string) returns (added: seq<Snapshot>)
    requires RunCommit(p, st, message).1 == None
    ensures
      var after := RunCommit(p, st, message).0;
      after.history == st.history + added &&
      after.items.Keys == st.items.Keys &&
      forall item <- st.items ::
        after.items[item] == FinalStatus(p, st.items, FindAll(p.cc, StatusChange, message, 0), item)
    ensures SnapshotsFit(p, st.items, added)
    ensures
      var k := Count(FindAll(p.cc, StatusChange, message, 0), MatchesRef(ref));
      Count(added, IsChangeOf(ref)) == k &&
      Count(added, IsReferenceOf(ref)) == if k == 0 && ref in Refs(FindAll(p.cc, Mention, message, 0)) then 1 else 0
  {
    hide Lookup, FindAll, Count, FinalStatus, RunStatuses, RunMentions, SnapshotsFit, Refs;
    var changes := FindAll(p.cc, StatusChange, message, 0);
    var changed := RunStatuses(p, st, changes).0;
    StatusPassItems(p, st, changes);
    var first := StatusPassHistory(p, st, changes, ref);
    var second := MentionPassHistory(p, changed, FindAll(p.cc, Mention, message, 0), Refs(changes), ref);
    added := first + second;
    CountOfConcat(first, second, IsChangeOf(ref));
    CountOfConcat(first, second, IsReferenceOf(ref));
    CountIsPositiveIffPresent(changes, ref);
    FitsConcat(p, st.items, changed.items, first, second);
  }

  /** The changes come first, one per status match in their order; the mentions follow as they first occur. */
  ghost predicate InOrder(changes: seq<Found>, mentions: seq<Found>, added: seq<Snapshot>) {
    |changes| <= |added| &&
    (forall i :: 0 <= i < |changes| ==> added[i].StatusChanged? && added[i].ref == changes[i].ref) &&
    OfFirstOccurrences(Refs(mentions), added[|changes|..])
  }

  ghost predicate OfFirstOccurrences(refs: seq<string>, snapshots: seq<Snapshot>) {
    (forall i :: 0 <= i < |snapshots| ==> snapshots[i].Referenced? && snapshots[i].ref in refs) &&
    (forall i, j :: 0 <= i < j < |snapshots| ==> IndexOf(refs, snapshots[i].ref) < IndexOf(refs, snapshots[j].ref))
  }

  lemma {:induction false} StatusPassOrder(p: Project, st: State, ms: seq<Found>) returns (added: seq<Snapshot>)
    requires RunStatuses(p, st, ms).1 == None
    ensures RunStatuses(p, st, ms).0.history == st.history + added && |added| == |ms|
    ensures forall i :: 0 <= i < |ms| ==> added[i].StatusChanged? && added[i].ref == ms[i].ref
    decreases |ms|
  {
    if ms == [] {
      added := [];
    } else {
      hide Lookup;
      var (item, source, destination) := StatusFor(p, st.items, ms[0]).value;
      var next := ChangeStatus(st, item, source, destination, ms[0].ref);
      var rest := StatusPassOrder(p, next, ms[1..]);
      added := [StatusChanged(item, ms[0].ref, source.name, destination.name)] + rest;
    }
  }

  lemma {:induction false} MentionPassOrder(p: Project, st: State, ms: seq<Found>, consumed: seq<string>)
    returns (added: seq<Snapshot>)
    requires RunMentions(p, st, ms, consumed).1 == None
    ensures RunMentions(p, st, ms, consumed).0.history == st.history + added
    ensures OfFirstOccurrences(Refs(ms), added)
    ensures forall i :: 0 <= i < |added| ==> added[i].ref !in consumed
    decreases |ms|
  {
    if ms == [] {
      added := [];
    } else {
      hide Lookup;
      assert Refs(ms) == [ms[0].ref] + Refs(ms[1..]);
      if ms[0].ref in consumed {
        added := MentionPassOrder(p, st, ms[1..], consumed);
        LaterOccurrences(ms[0].ref, Refs(ms[1..]), added);
      } else {
        var first := Referenced(Lookup(p, st.items, ms[0].ref).value, ms[0].ref);
        var rest := MentionPassOrder(
          p, st.(history := st.history + [first]), ms[1..], consumed + [ms[0].ref]);
        added := [first] + rest;
        LaterOccurrences(ms[0].ref, Refs(ms[1..]), rest);
        FirstOccurrence(ms[0].ref, Refs(ms[1..]), rest, first);
      }
    }
  }

  lemma {:induction false} LaterOccurrences(first: string, later: seq<string>, rest: seq<Snapshot>)
    requires OfFirstOccurrences(later, rest) && forall i :: 0 <= i < |rest| ==> rest[i].ref != first
    ensures OfFirstOccurrences([first] + later, rest)
  {
    hide IndexOf;
    forall i | 0 <= i < |rest|
      ensures rest[i].ref in [first] + later
      ensures IndexOf([first] + later, rest[i].ref) == 1 + IndexOf(later, rest[i].ref)
    {
      OthersComeLater(first, later, rest[i].ref);
    }
  }

  lemma {:induction false} FirstOccurrence(ref: string, later: seq<string>, rest: seq<Snapshot>, first: Snapshot)
    requires OfFirstOccurrences([ref] + later, rest) && forall i :: 0 <= i < |rest| ==> rest[i].ref != ref
    requires first.Referenced? && first.ref == ref
    ensures OfFirstOccurrences([ref] + later, [first] + rest)
  {
    hide IndexOf;
    var all, snapshots := [ref] + later, [first] + rest;
    FirstIsAtZero(ref, later);
    forall i, j | 0 <= i < j < |snapshots| ensures IndexOf(all, snapshots[i].ref) < IndexOf(all, snapshots[j].ref) {
      assert snapshots[j] == rest[j - 1];
      if i == 0 {
        assert all[IndexOf(all, rest[j - 1].ref)] != all[0];
      } else {
        assert snapshots[i] == rest[i - 1];
      }
    }
  }

  lemma FirstIsAtZero(first: string, later: seq<string>)
    ensures IndexOf([first] + later, first) == 0
  {
  }

  lemma OthersComeLater(first: string, later: seq<string>, ref: string)
    requires ref in later && ref != first
    ensures ref in [first] + later && IndexOf([first] + later, ref) == 1 + IndexOf(later, ref)
  {
    assert ([first] + later)[1..] == later;
  }

  /** The snapshots of a commit are in the order of its message: first the changes, then the mentions. */
  lemma SnapshotsFollowMessage(p: Project, st: State, message: string) returns (added: seq<Snapshot>)
    requires RunCommit(p, st, message).1 == None
    ensures RunCommit(p, st, message).0.history == st.history + added
    ensures InOrder(FindAll(p.cc, StatusChange, message, 0), FindAll(p.cc, Mention, message, 0), added)
  {
    hide Lookup, FindAll, RunStatuses, RunMentions, OfFirstOccurrences, Refs;
    var changes, mentions := FindAll(p.cc, StatusChange, message, 0), FindAll(p.cc, Mention, message, 0);
    var changed := RunStatuses(p, st, changes).0;
    var first := StatusPassOrder(p, st, changes);
    var second := MentionPassOrder(p, changed, mentions, Refs(changes));
    added := first + second;
    assert added[|changes|..] == second;
    assert st.history + first + second == st.history + added;
  }

  // -------------------------------------------------------------------------
  // Whole events
  // -------------------------------------------------------------------------

  /** The status matches of all messages, one after the other. */
  function AllStatusMatches(p: Project, messages: seq<string>): seq<Found> {
    if messages == [] then []
    else FindAll(p.cc, StatusChange, messages[0], 0) + AllStatusMatches(p, messages[1..])
  }

  /** In how many messages the reference is mentioned and has no status match. */
  function BareMentions(p: Project, messages: seq<string>, ref: string): nat {
    if messages == [] then 0
    else
      (if ref in Refs(FindAll(p.cc, Mention, messages[0], 0)) &&
          ref !in Refs(FindAll(p.cc, StatusChange, messages[0], 0))
       then 1 else 0) +
      BareMentions(p, messages[1..], ref)
  }

  lemma {:induction false} FinalStatusOfConcat(
      p: Project, items: Items, after: Items, a: seq<Found>, b: seq<Found>, item: Item)
    requires item in items && items.Keys == after.Keys && after[item] == FinalStatus(p, items, a, item)
    ensures FinalStatus(p, items, a + b, item) == FinalStatus(p, after, b, item)
  {
    if b == [] {
      assert a + b == a;
    } else {
      var last := |b| - 1;
      FinalStatusOfConcat(p, items, after, a, b[..last], item);
      assert (a + b)[..|a + b| - 1] == a + b[..last];
      LookupSeesOnlyKeys(p, items, after, b[last].ref);
    }
  }

  /**
   An event processed without error adds, for every reference, as many status snapshots as it has status matches in all
   messages together, and one mention for each message that mentions it without one; every snapshot is of the item
   named. Items end with the status of the last match of all that names them.
   */
  lemma {:induction false} EventAccounting(p: Project, st: State, messages: seq<string>, ref: string)
    returns (added: seq<Snapshot>)
    requires RunCommits(p, st, messages).1 == None
    ensures
      var after := RunCommits(p, st, messages).0;
      after.history == st.history + added &&
      after.items.Keys == st.items.Keys &&
      forall item <- st.items :: after.items[item] == FinalStatus(p, st.items, AllStatusMatches(p, messages), item)
    ensures SnapshotsFit(p, st.items, added)
    ensures Count(added, IsChangeOf(ref)) == Count(AllStatusMatches(p, messages), MatchesRef(ref))
    ensures Count(added, IsReferenceOf(ref)) == BareMentions(p, messages, ref)
    decreases |messages|
  {
    hide *;
    if messages == [] {
      added := [];
      EmptyEvent(p, st, ref);
    } else {
      EventSplits(p, st, messages);
      var middle := RunCommit(p, st, messages[0]).0;
      var first := CommitAccounting(p, st, messages[0], ref);
      var rest := EventAccounting(p, middle, messages[1..], ref);
      added := first + rest;
      assert st.history + first + rest == st.history + added;
      CountsAddUp(p, messages, first, rest, ref);
      FitsConcat(p, st.items, middle.items, first, rest);
      var changes := FindAll(p.cc, StatusChange, messages[0], 0);
      forall item <- st.items
        ensures FinalStatus(p, st.items, AllStatusMatches(p, messages), item) ==
                FinalStatus(p, middle.items, AllStatusMatches(p, messages[1..]), item)
      {
        FinalStatusOfConcat(p, st.items, middle.items, changes, AllStatusMatches(p, messages[1..]), item);
      }
    }
  }

  lemma EmptyEvent(p: Project, st: State, ref: string)
    ensures RunCommits(p, st, []) == (st, None) && AllStatusMatches(p, []) == []
    ensures SnapshotsFit(p, st.items, []) && st.history + [] == st.history
    ensures forall item <- st.items :: FinalStatus(p, st.items, [], item) == st.items[item]
    ensures Count<Snapshot>([], IsChangeOf(ref)) == Count<Snapshot>([], IsReferenceOf(ref)) == 0
    ensures Count<Found>([], MatchesRef(ref)) == 0 && BareMentions(p, [], ref) == 0
  {
  }

  lemma EventSplits(p: Project, st: State, messages: seq<string>)
    requires messages != [] && RunCommits(p, st, messages).1 == None
    ensures RunCommit(p, st, messages[0]).1 == None
    ensures RunCommits(p, st, messages) == RunCommits(p, RunCommit(p, st, messages[0]).0, messages[1..])
    ensures AllStatusMatches(p, messages) ==
      FindAll(p.cc, StatusChange, messages[0], 0) + AllStatusMatches(p, messages[1..])
  {
    hide RunCommit, FindAll;
  }

  lemma CountsAddUp(p: Project, messages: seq<string>, first: seq<Snapshot>, rest: seq<Snapshot>, ref: string)
    requires messages != []
    requires
      var k := Count(FindAll(p.cc, StatusChange, messages[0], 0), MatchesRef(ref));
      Count(first, IsChangeOf(ref)) == k &&
      Count(first, IsReferenceOf(ref)) ==
        if k == 0 && ref in Refs(FindAll(p.cc, Mention, messages[0], 0)) then 1 else 0
    requires Count(rest, IsChangeOf(ref)) == Count(AllStatusMatches(p, messages[1..]), MatchesRef(ref))
    requires Count(rest, IsReferenceOf(ref)) == BareMentions(p, messages[1..], ref)
    ensures Count(first + rest, IsChangeOf(ref)) == Count(AllStatusMatches(p, messages), MatchesRef(ref))
    ensures Count(first + rest, IsReferenceOf(ref)) == BareMentions(p, messages, ref)
  {
    hide FindAll, Count, Refs;
    var changes := FindAll(p.cc, StatusChange, messages[0], 0);
    CountOfConcat(first, rest, IsChangeOf(ref));
    CountOfConcat(first, rest, IsReferenceOf(ref));
    CountOfConcat(changes, AllStatusMatches(p, messages[1..]), MatchesRef(ref));
    CountIsPositiveIffPresent(changes, ref);
  }

  /** The messages before this one go through, and this one does not. */
  predicate FailsAt(p: Project, st: State, messages: seq<string>, i: nat)
    requires i < |messages|
  {
    RunCommits(p, st, messages[..i]).1 == None &&
    RunCommit(p, RunCommits(p, st, messages[..i]).0, messages[i]).1.Some?
  }

  /** An event that fails ends with its first failing commit: items, history and error are what that commit leaves. */
  lemma {:induction false} EventFailsAtFirst(p: Project, st: State, messages: seq<string>, i: nat)
    requires i < |messages| && FailsAt(p, st, messages, i)
    ensures RunCommits(p, st, messages) == RunCommit(p, RunCommits(p, st, messages[..i]).0, messages[i])
    decreases |messages|
  {
    hide RunCommit;
    if i == 0 {
      assert messages[..0] == [];
    } else {
      assert messages[..i][0] == messages[0] && messages[..i][1..] == messages[1..][..i - 1];
      var middle := RunCommit(p, st, messages[0]).0;
      assert FailsAt(p, middle, messages[1..], i - 1);
      EventFailsAtFirst(p, middle, messages[1..], i - 1);
    }
  }

  /** An event fails iff some message does after all before it have gone through. */
  lemma {:induction false} EventFailsIff(p: Project, st: State, messages: seq<string>)
    ensures RunCommits(p, st, messages).1.Some? <==> exists i :: 0 <= i < |messages| && FailsAt(p, st, messages, i)
  {
    if i :| 0 <= i < |messages| && FailsAt(p, st, messages, i) {
      EventFailsAtFirst(p, st, messages, i);
    } else {
      PrefixesGoThrough(p, st, messages, |messages|);
      assert messages[..|messages|] == messages;
    }
  }

  lemma {:induction false} PrefixesGoThrough(p: Project, st: State, messages: seq<string>, n: nat)
    requires n <= |messages| && forall i :: 0 <= i < |messages| ==> !FailsAt(p, st, messages, i)
    ensures RunCommits(p, st, messages[..n]).1 == None
  {
    hide RunCommit;
    if n > 0 {
      PrefixesGoThrough(p, st, messages, n - 1);
      assert !FailsAt(p, st, messages, n - 1);
      OneCommitMore(p, st, messages[..n]);
      assert messages[..n][..n - 1] == messages[..n - 1];
    }
  }

  lemma {:induction false} OneCommitMore(p: Project, st: State, messages: seq<string>)
    requires messages != []
    ensures
      var last := |messages| - 1;
      var (before, error) := RunCommits(p, st, messages[..last]);
      RunCommits(p, st, messages) == if error.Some? then (before, error) else RunCommit(p, before, messages[last])
    decreases |messages|
  {
    hide RunCommit;
    var last := |messages| - 1;
    if last > 0 {
      assert messages[..last][0] == messages[0] && messages[..last][1..] == messages[1..][..last - 1];
      OneCommitMore(p, RunCommit(p, st, messages[0]).0, messages[1..]);
    }
  }

  lemma {:induction false} StatusesSucceedIff(p: Project, st: State, ms: seq<Found>)
    ensures RunStatuses(p, st, ms).1 == None <==> forall i :: 0 <= i < |ms| ==> StatusFor(p, st.items, ms[i]).Success?
    decreases |ms|
  {
    if ms == [] || StatusFor(p, st.items, ms[0]).Failure? {
    } else {
      hide Lookup;
      var (item, source, destination) := StatusFor(p, st.items, ms[0]).value;
      var next := ChangeStatus(st, item, source, destination, ms[0].ref);
      StatusesSucceedIff(p, next, ms[1..]);
      forall i | 0 < i < |ms|
        ensures StatusFor(p, next.items, ms[1..][i - 1]).Success? <==> StatusFor(p, st.items, ms[i]).Success?
      {
        LookupSeesOnlyKeys(p, next.items, st.items, ms[i].ref);
      }
    }
  }

  lemma {:induction false} MentionsSucceedIff(p: Project, st: State, ms: seq<Found>, consumed: seq<string>)
    requires forall ref <- consumed :: Lookup(p, st.items, ref).Success?
    ensures RunMentions(p, st, ms, consumed).1 == None <==>
      forall i :: 0 <= i < |ms| ==> Lookup(p, st.items, ms[i].ref).Success?
    decreases |ms|
  {
    if ms == [] || Lookup(p, st.items, ms[0].ref).Failure? {
    } else {
      hide Lookup;
      if ms[0].ref in consumed {
        MentionsSucceedIff(p, st, ms[1..], consumed);
      } else {
        var next := st.(history := st.history + [Referenced(Lookup(p, st.items, ms[0].ref).value, ms[0].ref)]);
        MentionsSucceedIff(p, next, ms[1..], consumed + [ms[0].ref]);
      }
    }
  }

  /**
   What a commit needs, said of the items alone: every reference the plain pass finds names an item, and every slug the
   status pass finds is a status of the kind of item named, and that item has a status.
   */
  ghost predicate CommitFits(p: Project, items: Items, message: string) {
    (forall i :: 0 <= i < |FindAll(p.cc, Mention, message, 0)| ==>
      Lookup(p, items, FindAll(p.cc, Mention, message, 0)[i].ref).Success?) &&
    (forall i :: 0 <= i < |FindAll(p.cc, StatusChange, message, 0)| ==>
      var m := FindAll(p.cc, StatusChange, message, 0)[i];
      Lookup(p, items, m.ref).Success? ==>
        var item := Lookup(p, items, m.ref).value;
        (item.kind, m.slug) in p.statuses && items[item].Some?)
  }

  /**
   A commit goes through iff it fits the items. This uses that the plain pass sees every status reference, and that a
   match leaves no item without a status that had one.
   */
  lemma {:induction false} CommitSucceedsIff(p: Project, st: State, message: string)
    requires Sensible(p.cc)
    ensures RunCommit(p, st, message).1 == None <==> CommitFits(p, st.items, message)
  {
    hide Lookup, FindAll;
    var changes, mentions := FindAll(p.cc, StatusChange, message, 0), FindAll(p.cc, Mention, message, 0);
    StatusesSucceedIff(p, st, changes);
    forall k | 0 <= k < |changes| ensures exists l :: 0 <= l < |mentions| && mentions[l].ref == changes[k].ref {
      StatusRefsAreMentioned(p.cc, message, k);
    }
    if RunStatuses(p, st, changes).1 == None {
      var changed := RunStatuses(p, st, changes).0;
      StatusPassItems(p, st, changes);
      forall r: string ensures Lookup(p, changed.items, r) == Lookup(p, st.items, r) {
        LookupSeesOnlyKeys(p, changed.items, st.items, r);
      }
      MentionsSucceedIff(p, changed, mentions, Refs(changes));
    }
  }

  /** An event goes through iff each of its commits could go through on the items as they are before it. */
  lemma {:induction false} EventSucceedsIff(p: Project, st: State, messages: seq<string>)
    requires Sensible(p.cc)
    ensures RunCommits(p, st, messages).1 == None <==>
      forall k :: 0 <= k < |messages| ==> CommitFits(p, st.items, messages[k])
    decreases |messages|
  {
    if messages == [] {
    } else {
      CommitSucceedsIff(p, st, messages[0]);
      hide RunCommit, CommitFits;
      if RunCommit(p, st, messages[0]).1 == None {
        var middle := RunCommit(p, st, messages[0]).0;
        EventSucceedsIff(p, middle, messages[1..]);
        forall k | 0 < k < |messages|
          ensures CommitFits(p, middle.items, messages[1..][k - 1]) <==> CommitFits(p, st.items, messages[k])
        {
          SameNeeds(p, st, messages[0], messages[k]);
        }
        OneAndOthers(p, st, middle, messages);
      }
    }
  }

  lemma OneAndOthers(p: Project, st: State, middle: State, messages: seq<string>)
    requires messages != [] && CommitFits(p, st.items, messages[0])
    requires forall k | 0 < k < |messages| ::
      CommitFits(p, middle.items, messages[1..][k - 1]) <==> CommitFits(p, st.items, messages[k])
    ensures (forall k :: 0 <= k < |messages| ==> CommitFits(p, st.items, messages[k])) <==>
      forall k :: 0 <= k < |messages[1..]| ==> CommitFits(p, middle.items, messages[1..][k])
  {
    hide CommitFits;
    if forall k :: 0 <= k < |messages| ==> CommitFits(p, st.items, messages[k]) {
      forall k | 0 <= k < |messages[1..]| ensures CommitFits(p, middle.items, messages[1..][k]) {
        assert CommitFits(p, st.items, messages[k + 1]);
      }
    }
    if forall k :: 0 <= k < |messages[1..]| ==> CommitFits(p, middle.items, messages[1..][k]) {
      forall k | 0 <= k < |messages| ensures CommitFits(p, st.items, messages[k]) {
        assert k > 0 ==> CommitFits(p, middle.items, messages[1..][k - 1]);
      }
    }
  }

  /** A commit that goes through changes nothing that later commits need. */
  lemma {:induction false} SameNeeds(p: Project, st: State, message: string, later: string)
    requires Sensible(p.cc) && RunCommit(p, st, message).1 == None
    ensures CommitFits(p, RunCommit(p, st, message).0.items, later) <==> CommitFits(p, st.items, later)
  {
    var after := RunCommit(p, st, message).0.items;
    var added := CommitAccounting(p, st, message, "");
    CommitSucceedsIff(p, st, message);
    hide Lookup, FindAll, RunCommit;
    forall ref: string ensures Lookup(p, after, ref) == Lookup(p, st.items, ref) {
      LookupSeesOnlyKeys(p, after, st.items, ref);
    }
    forall item <- st.items ensures after[item].Some? <==> st.items[item].Some? {
      StatusKept(p, st, FindAll(p.cc, StatusChange, message, 0), item);
    }
  }

  /** Items with a status keep having one, and items without one do not get one. */
  lemma {:induction false} StatusKept(p: Project, st: State, ms: seq<Found>, item: Item)
    requires item in st.items
    requires forall i :: 0 <= i < |ms| ==>
      Lookup(p, st.items, ms[i].ref).Success? ==> st.items[Lookup(p, st.items, ms[i].ref).value].Some?
    ensures FinalStatus(p, st.items, ms, item).Some? <==> st.items[item].Some?
  {
    if ms == [] {
    } else {
      hide Lookup;
      StatusKept(p, st, ms[..|ms| - 1], item);
    }
  }

  /** Everything the match names is found, but the item has no status. */
  predicate NamesNullStatus(p: Project, items: Items, m: Found) {
    Lookup(p, items, m.ref).Success? &&
    var item := Lookup(p, items, m.ref).value;
    (item.kind, m.slug) in p.statuses && items[item].None?
  }

  /** The matches before this one all find what they name, with a status. */
  predicate ReachesMatch(p: Project, items: Items, ms: seq<Found>, i: nat)
    requires i < |ms|
  {
    forall k :: 0 <= k < i ==> StatusFor(p, items, ms[k]).Success?
  }

  ghost predicate MeetsNullStatus(p: Project, items: Items, ms: seq<Found>) {
    exists i :: 0 <= i < |ms| && ReachesMatch(p, items, ms, i) && NamesNullStatus(p, items, ms[i])
  }

  lemma {:induction false} StatusesCrashIff(p: Project, st: State, ms: seq<Found>)
    ensures RunStatuses(p, st, ms).1.Some? && RunStatuses(p, st, ms).1.value.NullStatus? <==>
      MeetsNullStatus(p, st.items, ms)
    decreases |ms|
  {
    if ms == [] {
    } else if StatusFor(p, st.items, ms[0]).Failure? {
      if NamesNullStatus(p, st.items, ms[0]) {
        assert ReachesMatch(p, st.items, ms, 0);
      }
    } else {
      hide Lookup;
      var (item, source, destination) := StatusFor(p, st.items, ms[0]).value;
      var next := ChangeStatus(st, item, source, destination, ms[0].ref);
      StatusesCrashIff(p, next, ms[1..]);
      forall i: nat | i < |ms|
        ensures StatusFor(p, next.items, ms[i]).Success? <==> StatusFor(p, st.items, ms[i]).Success?
        ensures NamesNullStatus(p, next.items, ms[i]) <==> NamesNullStatus(p, st.items, ms[i])
      {
        LookupSeesOnlyKeys(p, next.items, st.items, ms[i].ref);
      }
      hide StatusFor, NamesNullStatus;
      forall i: nat | 0 < i < |ms|
        ensures ReachesMatch(p, st.items, ms, i) <==> ReachesMatch(p, next.items, ms[1..], i - 1)
      {
        forall k | 0 < k < i ensures ms[1..][k - 1] == ms[k] {
        }
        if ReachesMatch(p, next.items, ms[1..], i - 1) {
          forall k | 0 < k < i ensures StatusFor(p, st.items, ms[k]).Success? {
            assert StatusFor(p, next.items, ms[1..][k - 1]).Success?;
          }
        }
      }
      ShiftedWitness(p, st, next, ms);
    }
  }

  lemma ShiftedWitness(p: Project, st: State, next: State, ms: seq<Found>)
    requires ms != [] && !NamesNullStatus(p, st.items, ms[0])
    requires forall i: nat | i < |ms| :: NamesNullStatus(p, next.items, ms[i]) <==> NamesNullStatus(p, st.items, ms[i])
    requires forall i: nat | 0 < i < |ms| ::
      ReachesMatch(p, st.items, ms, i) <==> ReachesMatch(p, next.items, ms[1..], i - 1)
    ensures
      (exists i :: 0 <= i < |ms| && ReachesMatch(p, st.items, ms, i) && NamesNullStatus(p, st.items, ms[i])) <==>
      (exists i :: 0 <= i < |ms[1..]| && ReachesMatch(p, next.items, ms[1..], i) &&
                   NamesNullStatus(p, next.items, ms[1..][i]))
  {
    hide NamesNullStatus, ReachesMatch;
    if i :| 0 <= i < |ms| && ReachesMatch(p, st.items, ms, i) && NamesNullStatus(p, st.items, ms[i]) {
      assert ms[1..][i - 1] == ms[i];
    }
    if i :| 0 <= i < |ms[1..]| && ReachesMatch(p, next.items, ms[1..], i) &&
            NamesNullStatus(p, next.items, ms[1..][i])
    {
      assert ms[1..][i] == ms[i + 1];
      assert ReachesMatch(p, st.items, ms, i + 1);
    }
  }

  /** A commit ends in the uncaught error iff its first failing status match finds everything but a status to change. */
  lemma CommitCrashesIff(p: Project, st: State, message: string)
    ensures
      var error := RunCommit(p, st, message).1;
      error.Some? && error.value.NullStatus? <==> MeetsNullStatus(p, st.items, FindAll(p.cc, StatusChange, message, 0))
  {
    hide Lookup, FindAll, RunStatuses, RunMentions, MeetsNullStatus, Refs;
    var changes := FindAll(p.cc, StatusChange, message, 0);
    var changed := RunStatuses(p, st, changes);
    StatusesCrashIff(p, st, changes);
    MentionsNeverCrash(p, changed.0, FindAll(p.cc, Mention, message, 0), Refs(changes));
    assert RunCommit(p, st, message) ==
      if changed.1.Some? then changed
      else RunMentions(p, changed.0, FindAll(p.cc, Mention, message, 0), Refs(changes));
  }

  lemma {:induction false} MentionsNeverCrash(p: Project, st: State, ms: seq<Found>, consumed: seq<string>)
    ensures var error := RunMentions(p, st, ms, consumed).1; error.Some? ==> error.value.NoSuchElement?
    decreases |ms|
  {
    if ms == [] {
    } else if ms[0].ref in consumed {
      MentionsNeverCrash(p, st, ms[1..], consumed);
    } else if Lookup(p, st.items, ms[0].ref).Success? {
      var first := Referenced(Lookup(p, st.items, ms[0].ref).value, ms[0].ref);
      MentionsNeverCrash(p, st.(history := st.history + [first]), ms[1..], consumed + [ms[0].ref]);
    }
  }

  /** Digits and word characters as far as ASCII goes. */
  const ASCII := Classes(
    c => '0' <= c <= '9',
    c => 'a' <= c <= 'z' || 'A' <= c <= 'Z' || '0' <= c <= '9' || c == '_')

  /**
   The last condition matters: "tg-1 #closed" fails on an item without a status although there is such an item and
   such a status.
   */
  lemma NullStatusStopsCommit(number: string -> int, closed: Status)
    requires number("1") == 1
    ensures
      var p := Project(ASCII, number, map[(UserStory, "closed") := closed]);
      var st := State(map[Item(UserStory, 1) := None], []);
      Lookup(p, st.items, "1") == Success(Item(UserStory, 1)) && (UserStory, "closed") in p.statuses &&
      RunCommit(p, st, "tg-1 #closed") == (st, Some(NullStatus("1")))
  {
    var text := "tg-1 #closed";
    ClosingMatch();
    assert FindAll(ASCII, StatusChange, text, 0)[0] == Found(0, 12, "1", "closed");
  }

  lemma ClosingMatch()
    ensures FindAll(ASCII, StatusChange, "tg-1 #closed", 0) == [Found(0, 12, "1", "closed")]
  {
    var text := "tg-1 #closed";
    assert text[0..3] == "tg-";
    assert RunEnd(ASCII.isDigit, text, 3) == 4;
    assert text[3..4] == "1";
    assert RunEnd(IsBlank, text, 4) == 5;
    assert RunEnd(SlugChar(ASCII), text, 6) == 12;
    assert text[6..12] == "closed";
    assert MatchAt(ASCII, StatusChange, text, 0) == Some(Found(0, 12, "1", "closed"));
    assert FindAll(ASCII, StatusChange, text, 12) == [];
  }

  // -------------------------------------------------------------------------
  // The history tells what happened
  // -------------------------------------------------------------------------

  type Names = map<Item, Option<string>>

  function NamesOf(items: Items): Names {
    map item | item in items :: if items[item].Some? then Some(items[item].value.name) else None
  }

  /** Follow the status snapshots from the given names; None if one does not start from the item's current status. */
  function Replay(names: Names, snapshots: seq<Snapshot>): Option<Names> {
    if snapshots == [] then Some(names)
    else
      match snapshots[0]
      case Referenced(_, _) => Replay(names, snapshots[1..])
      case StatusChanged(item, _, source, destination) =>
        if item in names && names[item] == Some(source)
        then Replay(names[item := Some(destination)], snapshots[1..])
        else None
  }

  lemma {:induction false} ReplayOfConcat(names: Names, a: seq<Snapshot>, b: seq<Snapshot>)
    ensures Replay(names, a).Some? ==> Replay(names, a + b) == Replay(Replay(names, a).value, b)
    decreases |a|
  {
    if a == [] {
      assert a + b == b;
    } else {
      assert (a + b)[1..] == a[1..] + b;
      match a[0]
      case Referenced(_, _) => ReplayOfConcat(names, a[1..], b);
      case StatusChanged(item, _, source, destination) => ReplayOfConcat(names[item := Some(destination)], a[1..], b);
    }
  }

  lemma {:induction false} StatusesReplay(p: Project, st: State, ms: seq<Found>) returns (added: seq<Snapshot>)
    ensures var after := RunStatuses(p, st, ms).0;
      after.history == st.history + added && Replay(NamesOf(st.items), added) == Some(NamesOf(after.items))
    decreases |ms|
  {
    if ms == [] || StatusFor(p, st.items, ms[0]).Failure? {
      added := [];
    } else {
      hide Lookup;
      var (item, source, destination) := StatusFor(p, st.items, ms[0]).value;
      var next := ChangeStatus(st, item, source, destination, ms[0].ref);
      var rest := StatusesReplay(p, next, ms[1..]);
      var first := StatusChanged(item, ms[0].ref, source.name, destination.name);
      added := [first] + rest;
      assert added[1..] == rest;
      assert NamesOf(next.items) == NamesOf(st.items)[item := Some(destination.name)];
    }
  }

  lemma {:induction false} MentionsReplay(p: Project, st: State, ms: seq<Found>, consumed: seq<string>)
      returns (added: seq<Snapshot>)
    ensures RunMentions(p, st, ms, consumed).0 == State(st.items, st.history + added)
    ensures Replay(NamesOf(st.items), added) == Some(NamesOf(st.items))
    decreases |ms|
  {
    if ms == [] {
      added := [];
    } else if ms[0].ref in consumed {
      added := MentionsReplay(p, st, ms[1..], consumed);
    } else if Lookup(p, st.items, ms[0].ref).Failure? {
      added := [];
    } else {
      hide Lookup;
      var first := Referenced(Lookup(p, st.items, ms[0].ref).value, ms[0].ref);
      var rest := MentionsReplay(p, st.(history := st.history + [first]), ms[1..], consumed + [ms[0].ref]);
      added := [first] + rest;
      assert added[1..] == rest;
    }
  }

  lemma CommitReplays(p: Project, st: State, message: string) returns (added: seq<Snapshot>)
    ensures var after := RunCommit(p, st, message).0;
      after.history == st.history + added && Replay(NamesOf(st.items), added) == Some(NamesOf(after.items))
  {
    hide RunStatuses, RunMentions, Replay, FindAll, NamesOf;
    var changes := FindAll(p.cc, StatusChange, message, 0);
    added := StatusesReplay(p, st, changes);
    if RunStatuses(p, st, changes).1 == None {
      var changed := RunStatuses(p, st, changes).0;
      var second := MentionsReplay(p, changed, FindAll(p.cc, Mention, message, 0), Refs(changes));
      ReplayOfConcat(NamesOf(st.items), added, second);
      added := added + second;
    }
  }

  /**
   Whatever the commits are, and even if one of them fails halfway, the snapshots an event adds lead,
   step by step, from the statuses the items had to the statuses they have.
   */
  lemma {:induction false} HistoryReplays(p: Project, st: State, messages: seq<string>) returns (added: seq<Snapshot>)
    ensures var after := RunCommits(p, st, messages).0;
      after.history == st.history + added && Replay(NamesOf(st.items), added) == Some(NamesOf(after.items))
    decreases |messages|
  {
    if messages == [] {
      added := [];
    } else {
      hide RunCommit, Replay, NamesOf;
      var first := CommitReplays(p, st, messages[0]);
      var (middle, error) := RunCommit(p, st, messages[0]);
      if error.Some? {
        return first;
      }
      var rest := HistoryReplays(p, middle, messages[1..]);
      ReplayOfConcat(NamesOf(st.items), first, rest);
      added := first + rest;
      assert st.history + first + rest == st.history + added;
      assert RunCommits(p, st, messages) == RunCommits(p, middle, messages[1..]);
    }
  }
}
