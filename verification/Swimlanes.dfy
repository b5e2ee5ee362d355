/**
 Swimlanes, user-story statuses and the grid between them: the post-save handlers of
 taiga/projects/signals.py, the guards of `SwimlaneViewSet` in taiga/projects/api.py and of the
 destroy mixins, and the cascades of taiga/projects/models.py.

 `Apply` is one request on the tables of one project; the class `ProjectBoard` has the handlers'
 loops and is proved to do what `Apply` says.
 */
module Swimlanes {
  import opened Wrappers
  import opened KanbanOrder

  datatype Status = Status(id: int, wipLimit: Option<int>)

  datatype GridRow = GridRow(swimlane: int, status: int, wipLimit: Option<int>)

  /** The tables of one project; swimlanes and statuses are in their display order. */
  datatype Board = Board(
    swimlanes: seq<int>, statuses: seq<Status>, grid: seq<GridRow>,
    stories: Stories, defaultSwimlane: Option<int>, defaultStatus: Option<int>)

  const EMPTY_BOARD := Board([], [], [], map[], None, None)

  /** The `moveTo` parameter of a destroy request: not given, naming nothing, or naming a row, of whatever project. */
  datatype MoveTo = NotGiven | Missing | Target(id: int)

  /**
   A status or swimlane is a default of one project at most; `taken` says whether the target of a deletion, or the
   default asked for, is that of some other project. The stories of the deleted status are `listed` by the database and
   numbered from the time `now` on. Both defaults may be set to any row, of whatever project, or to none.
   */
  datatype Op =
    | CreateSwimlane(id: int)
    | CreateStatus(status: Status)
    | DeleteSwimlane(id: int, moveTo: MoveTo)
    | DeleteStatus(id: int, moveTo: MoveTo, taken: bool, listed: seq<StoryId>, now: int)
    | SaveStory(story: StoryId, saved: Story)
    | SetDefaultStatus(chosen: Option<int>, taken: bool)
    | SetDefaultSwimlane(chosen: Option<int>, taken: bool)
    | SetStatusLimit(id: int, limit: Option<int>)
    | SetGridLimit(swimlane: int, id: int, limit: Option<int>)

  datatype Error =
    | NotFound | TargetOfOtherProject | MoveToRequired | CannotUnsetSwimlane | DefaultCannotBeDeleted | DefaultTaken

  // -------------------------------------------------------------------------
  // Requests as functions
  // -------------------------------------------------------------------------

  function SwimlaneRows(swimlane: int, statuses: seq<Status>, copyLimits: bool): seq<GridRow> {
    if statuses == [] then []
    else
      var last := statuses[|statuses| - 1];
      SwimlaneRows(swimlane, statuses[..|statuses| - 1], copyLimits) +
      [GridRow(swimlane, last.id, if copyLimits then last.wipLimit else None)]
  }

  function StatusRows(status: Status, swimlanes: seq<int>, copyLimits: bool): seq<GridRow> {
    if swimlanes == [] then []
    else
      StatusRows(status, swimlanes[..|swimlanes| - 1], copyLimits) +
      [GridRow(swimlanes[|swimlanes| - 1], status.id, if copyLimits then status.wipLimit else None)]
  }

  function Keep<T>(xs: seq<T>, p: T -> bool): seq<T> {
    if xs == [] then [] else (if p(xs[0]) then [xs[0]] else []) + Keep(xs[1..], p)
  }

  predicate HasStatus(statuses: seq<Status>, id: int) {
    exists i :: 0 <= i < |statuses| && statuses[i].id == id
  }

  function WithoutLane(stories: Stories, deleted: int): Stories {
    map id | id in stories ::
      if stories[id].swimlane == Some(deleted) then stories[id].(swimlane := None) else stories[id]
  }

  /**
   Stories of a deleted swimlane go to the target; without one, or if the target is deleted with it, they lose
   their swimlane.
   */
  function Rehome(stories: Stories, swimlanes: seq<int>, deleted: int, moveTo: MoveTo): Stories {
    WithoutLane(if moveTo.Target? then Moved(stories, swimlanes, deleted, moveTo.id) else stories, deleted)
  }

  /** What takes the place of a deleted status: the target, unless that is the deleted status itself. */
  function NewStatus(status: Option<int>, deleted: int, target: int): Option<int> {
    if status != Some(deleted) then status else if target == deleted then None else Some(target)
  }

  function Restatus(stories: Stories, deleted: int, target: int): Stories {
    map id | id in stories :: stories[id].(status := NewStatus(stories[id].status, deleted, target))
  }

  function Replace(stories: Stories, deleted: int, status: Option<int>): Stories {
    map id | id in stories ::
      if stories[id].status == Some(deleted) then stories[id].(status := status) else stories[id]
  }

  lemma ReplacedTwice(stories: Stories, deleted: int, target: int)
    ensures Replace(Replace(stories, deleted, Some(target)), deleted, None) == Restatus(stories, deleted, target)
  {
  }

  predicate HasRow(grid: seq<GridRow>, swimlane: int, status: int) {
    exists i :: 0 <= i < |grid| && grid[i].swimlane == swimlane && grid[i].status == status
  }

  function EditStatuses(statuses: seq<Status>, id: int, limit: Option<int>): (edited: seq<Status>)
    ensures |edited| == |statuses|
    ensures forall i :: 0 <= i < |statuses| ==>
      edited[i] == if statuses[i].id == id then Status(id, limit) else statuses[i]
  {
    seq(|statuses|, i requires 0 <= i < |statuses| => if statuses[i].id == id then Status(id, limit) else statuses[i])
  }

  function EditRows(grid: seq<GridRow>, swimlane: int, status: int, limit: Option<int>): (edited: seq<GridRow>)
    ensures |edited| == |grid|
    ensures forall i :: 0 <= i < |grid| ==>
      edited[i] ==
        if grid[i].swimlane == swimlane && grid[i].status == status then GridRow(swimlane, status, limit) else grid[i]
  {
    seq(|grid|, i requires 0 <= i < |grid| =>
      if grid[i].swimlane == swimlane && grid[i].status == status then GridRow(swimlane, status, limit) else grid[i])
  }

  /** A story saved without a status gets the project's default one. */
  function WithStatus(story: Story, defaultStatus: Option<int>): Story {
    if story.status.None? then story.(status := defaultStatus) else story
  }

  function Apply(b: Board, op: Op): Result<Board, Error> {
    match op
    case CreateSwimlane(id) =>
      var only := b.swimlanes == [];
      Success(b.(swimlanes := b.swimlanes + [id],
                 grid := b.grid + SwimlaneRows(id, b.statuses, only),
                 stories := if only then (map story | story in b.stories :: b.stories[story].(swimlane := Some(id)))
                            else b.stories,
                 defaultSwimlane := if only then Some(id) else b.defaultSwimlane))
    case CreateStatus(status) =>
      Success(b.(statuses := b.statuses + [status],
                 grid := b.grid + StatusRows(status, b.swimlanes, |b.swimlanes| == 1)))
    case DeleteSwimlane(id, moveTo) =>
      if id !in b.swimlanes then Failure(NotFound)
      else if moveTo == NotGiven && |b.swimlanes| > 1 then Failure(CannotUnsetSwimlane)
      else if moveTo == Missing then Failure(NotFound)
      else if moveTo.Target? && moveTo.id !in b.swimlanes then Failure(TargetOfOtherProject)
      else if b.defaultSwimlane == Some(id) && |b.swimlanes| > 1 then Failure(DefaultCannotBeDeleted)
      else
        Success(b.(swimlanes := Keep(b.swimlanes, s => s != id),
                   grid := Keep(b.grid, (r: GridRow) => r.swimlane != id),
                   stories := Rehome(b.stories, b.swimlanes, id, moveTo),
                   defaultSwimlane := if b.defaultSwimlane == Some(id) then None else b.defaultSwimlane))
    case DeleteStatus(id, moveTo, taken, listed, now) =>
      if moveTo == NotGiven then Failure(MoveToRequired)
      else if moveTo == Missing || !HasStatus(b.statuses, id) then Failure(NotFound)
      else if b.defaultStatus == Some(id) && taken then Failure(DefaultTaken)
      else
        Success(b.(statuses := Keep(b.statuses, (s: Status) => s.id != id),
                   grid := Keep(b.grid, (r: GridRow) => r.status != id),
                   stories := Restatus(Renumbered(b.stories, listed, now), id, moveTo.id),
                   defaultStatus := NewStatus(b.defaultStatus, id, moveTo.id)))
    case SaveStory(story, saved) => Success(b.(stories := b.stories[story := WithStatus(saved, b.defaultStatus)]))
    case SetDefaultStatus(chosen, taken) =>
      if chosen.Some? && taken then Failure(DefaultTaken) else Success(b.(defaultStatus := chosen))
    case SetDefaultSwimlane(chosen, taken) =>
      if chosen.Some? && taken then Failure(DefaultTaken) else Success(b.(defaultSwimlane := chosen))
    case SetStatusLimit(id, limit) =>
      if !HasStatus(b.statuses, id) then Failure(NotFound)
      else Success(b.(statuses := EditStatuses(b.statuses, id, limit)))
    case SetGridLimit(swimlane, id, limit) =>
      if !HasRow(b.grid, swimlane, id) then Failure(NotFound)
      else Success(b.(grid := EditRows(b.grid, swimlane, id, limit)))
  }

  /**
   Identifiers come from a sequence, so a new row never takes the id of a stored one; stories are put in
   swimlanes and statuses of the project, as is checked when they are saved; the database lists what it is asked for.
   */
  ghost predicate Feasible(b: Board, op: Op) {
    match op
    case CreateSwimlane(id) => id !in b.swimlanes
    case CreateStatus(status) => !HasStatus(b.statuses, status.id)
    case SaveStory(_, saved) =>
      (saved.swimlane.Some? ==> saved.swimlane.value in b.swimlanes) &&
      (saved.status.Some? ==> HasStatus(b.statuses, saved.status.value))
    case DeleteStatus(id, _, _, listed, _) => IsReading(b.stories, b.swimlanes, id, listed)
    case _ => true
  }

  // -------------------------------------------------------------------------
  // The handlers
  // -------------------------------------------------------------------------

  class ProjectBoard {
    var swimlanes: seq<int>
    var statuses: seq<Status>
    var grid: seq<GridRow>
    var stories: Stories
    var defaultSwimlane: Option<int>
    var defaultStatus: Option<int>

    function Contents(): Board
      reads this
    {
      Board(swimlanes, statuses, grid, stories, defaultSwimlane, defaultStatus)
    }

    constructor ()
      ensures Contents() == EMPTY_BOARD
    {
      swimlanes, statuses, grid, stories, defaultSwimlane, defaultStatus := [], [], [], map[], None, None;
    }

    method CreateSwimlaneStatuses(swimlane: int)
      modifies this`grid
      ensures grid == old(grid) + SwimlaneRows(swimlane, statuses, |swimlanes| == 1)
    {
      var copyFromMainStatus := |swimlanes| == 1;
      var objects: seq<GridRow> := [];
      for i := 0 to |statuses|
        invariant objects == SwimlaneRows(swimlane, statuses[..i], copyFromMainStatus)
      {
        assert statuses[..i + 1][..i] == statuses[..i];
        var wipLimit := if copyFromMainStatus then statuses[i].wipLimit else None;
        objects := objects + [GridRow(swimlane, statuses[i].id, wipLimit)];
      }
      assert statuses[..|statuses|] == statuses;
      grid := grid + objects;
    }

    method CreateStatusSwimlanes(status: Status)
      modifies this`grid
      ensures grid == old(grid) + StatusRows(status, swimlanes, |swimlanes| == 1)
    {
      var copyFromMainStatus := |swimlanes| == 1;
      var objects: seq<GridRow> := [];
      for i := 0 to |swimlanes|
        invariant objects == StatusRows(status, swimlanes[..i], copyFromMainStatus)
      {
        assert swimlanes[..i + 1][..i] == swimlanes[..i];
        var wipLimit := if copyFromMainStatus then status.wipLimit else None;
        objects := objects + [GridRow(swimlanes[i], status.id, wipLimit)];
      }
      assert swimlanes[..|swimlanes|] == swimlanes;
      grid := grid + objects;
    }

    method SaveNewSwimlane(id: int)
      modifies this
      ensures Apply(old(Contents()), CreateSwimlane(id)) == Success(Contents())
    {
      swimlanes := swimlanes + [id];
      CreateSwimlaneStatuses(id);
      if |swimlanes| == 1 {
        defaultSwimlane := Some(id);
      }
      if |swimlanes| == 1 {
        stories := map story | story in stories :: stories[story].(swimlane := Some(id));
      }
    }

    method SaveNewStatus(status: Status)
      modifies this
      ensures Apply(old(Contents()), CreateStatus(status)) == Success(Contents())
    {
      statuses := statuses + [status];
      CreateStatusSwimlanes(status);
    }

    method DestroySwimlane(id: int, moveTo: MoveTo) returns (error: Option<Error>)
      modifies this
      ensures Apply(old(Contents()), DeleteSwimlane(id, moveTo)) ==
              if error.Some? then Failure(error.value) else Success(Contents())
      ensures error.Some? ==> Contents() == old(Contents())
    {
      hide Keep, Moved, WithoutLane;
      if id !in swimlanes {
        return Some(NotFound);
      }
      if moveTo == NotGiven && |swimlanes| > 1 {
        return Some(CannotUnsetSwimlane);
      }
      if moveTo == Missing {
        return Some(NotFound);
      }
      if moveTo.Target? && moveTo.id !in swimlanes {
        return Some(TargetOfOtherProject);
      }
      if defaultSwimlane == Some(id) && |swimlanes| > 1 {
        return Some(DefaultCannotBeDeleted);
      }
      if moveTo.Target? {
        stories := UpdateOrderAndSwimlane(stories, swimlanes, id, moveTo.id);
      }
      stories := WithoutLane(stories, id);
      swimlanes := Keep(swimlanes, s => s != id);
      grid := Keep(grid, (r: GridRow) => r.swimlane != id);
      if defaultSwimlane == Some(id) {
        defaultSwimlane := None;
      }
      return None;
    }

    /** Stories and default go to the target first; what has gone to the deleted status itself is then left without. */
    method DestroyStatus(id: int, moveTo: MoveTo, taken: bool, listed: seq<StoryId>, now: int)
      returns (error: Option<Error>)
      requires Distinct(listed)
      modifies this
      ensures Apply(old(Contents()), DeleteStatus(id, moveTo, taken, listed, now)) ==
              if error.Some? then Failure(error.value) else Success(Contents())
      ensures error.Some? ==> Contents() == old(Contents())
    {
      if moveTo == NotGiven {
        return Some(MoveToRequired);
      }
      if moveTo == Missing || !HasStatus(statuses, id) {
        return Some(NotFound);
      }
      if defaultStatus == Some(id) && taken {
        return Some(DefaultTaken);
      }
      hide Keep, HasStatus, Replace, Restatus, Renumbered;
      stories := ResetKanbanOrder(stories, listed, now);
      ReplacedTwice(stories, id, moveTo.id);
      stories := Replace(stories, id, Some(moveTo.id));
      if defaultStatus == Some(id) {
        defaultStatus := Some(moveTo.id);
      }
      statuses := Keep(statuses, (s: Status) => s.id != id);
      grid := Keep(grid, (r: GridRow) => r.status != id);
      stories := Replace(stories, id, None);
      if defaultStatus == Some(id) {
        defaultStatus := None;
      }
      return None;
    }
  }

  // -------------------------------------------------------------------------
  // Counting rows
  // -------------------------------------------------------------------------

  function RowCount(grid: seq<GridRow>, swimlane: int, status: int): nat {
    if grid == [] then 0
    else
      (if grid[0].swimlane == swimlane && grid[0].status == status then 1 else 0) +
      RowCount(grid[1..], swimlane, status)
  }

  lemma {:induction false} RowCountOfConcat(a: seq<GridRow>, b: seq<GridRow>, swimlane: int, status: int)
    ensures RowCount(a + b, swimlane, status) == RowCount(a, swimlane, status) + RowCount(b, swimlane, status)
  {
    if a == [] {
      assert a + b == b;
    } else {
      assert (a + b)[1..] == a[1..] + b;
      RowCountOfConcat(a[1..], b, swimlane, status);
    }
  }

  /** Dropping rows loses all of one column or row of the grid and nothing else. */
  lemma {:induction false} RowCountOfKeep(grid: seq<GridRow>, p: GridRow -> bool, swimlane: int, status: int)
    requires forall r: GridRow, s: GridRow :: r.swimlane == s.swimlane && r.status == s.status ==> p(r) == p(s)
    ensures RowCount(Keep(grid, p), swimlane, status) ==
            if p(GridRow(swimlane, status, None)) then RowCount(grid, swimlane, status) else 0
  {
    if grid == [] {
    } else {
      RowCountOfKeep(grid[1..], p, swimlane, status);
      RowCountOfConcat(if p(grid[0]) then [grid[0]] else [], Keep(grid[1..], p), swimlane, status);
      assert grid[0].swimlane == swimlane && grid[0].status == status ==>
        p(grid[0]) == p(GridRow(swimlane, status, None));
    }
  }

  predicate DistinctStatuses(statuses: seq<Status>) {
    forall i, j :: 0 <= i < j < |statuses| ==> statuses[i].id != statuses[j].id
  }

  lemma {:induction false} RowsOfNewSwimlane(
      id: int, statuses: seq<Status>, copyLimits: bool, swimlane: int, status: int)
    requires DistinctStatuses(statuses)
    ensures RowCount(SwimlaneRows(id, statuses, copyLimits), swimlane, status) ==
            if swimlane == id && HasStatus(statuses, status) then 1 else 0
  {
    if statuses == [] {
    } else {
      var last := |statuses| - 1;
      RowsOfNewSwimlane(id, statuses[..last], copyLimits, swimlane, status);
      RowCountOfConcat(SwimlaneRows(id, statuses[..last], copyLimits),
                       [GridRow(id, statuses[last].id, if copyLimits then statuses[last].wipLimit else None)],
                       swimlane, status);
      assert HasStatus(statuses, status) <==> HasStatus(statuses[..last], status) || statuses[last].id == status;
    }
  }

  lemma {:induction false} RowsOfNewStatus(
      added: Status, swimlanes: seq<int>, copyLimits: bool, swimlane: int, status: int)
    requires Distinct(swimlanes)
    ensures RowCount(StatusRows(added, swimlanes, copyLimits), swimlane, status) ==
            if status == added.id && swimlane in swimlanes then 1 else 0
  {
    if swimlanes == [] {
    } else {
      var last := |swimlanes| - 1;
      RowsOfNewStatus(added, swimlanes[..last], copyLimits, swimlane, status);
      RowCountOfConcat(StatusRows(added, swimlanes[..last], copyLimits),
                       [GridRow(swimlanes[last], added.id, if copyLimits then added.wipLimit else None)],
                       swimlane, status);
      assert swimlane in swimlanes <==> swimlane in swimlanes[..last] || swimlane == swimlanes[last];
    }
  }

  lemma {:induction false} KeepIds<T>(xs: seq<T>, p: T -> bool)
    ensures forall x :: x in Keep(xs, p) <==> x in xs && p(x)
    ensures |Keep(xs, p)| <= |xs|
  {
    if xs == [] {
    } else {
      KeepIds(xs[1..], p);
      assert forall x :: x in xs <==> x == xs[0] || x in xs[1..];
    }
  }

  lemma {:induction false} KeepDistinct(swimlanes: seq<int>, p: int -> bool)
    requires Distinct(swimlanes)
    ensures Distinct(Keep(swimlanes, p))
  {
    if swimlanes == [] {
    } else {
      KeepDistinct(swimlanes[1..], p);
      KeepIds(swimlanes[1..], p);
    }
  }

  lemma {:induction false} KeepDistinctStatuses(statuses: seq<Status>, p: Status -> bool)
    requires DistinctStatuses(statuses)
    ensures DistinctStatuses(Keep(statuses, p))
  {
    if statuses == [] {
    } else {
      KeepDistinctStatuses(statuses[1..], p);
      KeepIds(statuses[1..], p);
      forall s | s in statuses[1..] ensures s.id != statuses[0].id {
        var j :| 0 < j < |statuses| && statuses[j] == s;
      }
    }
  }

  // -------------------------------------------------------------------------
  // What each request leaves
  // -------------------------------------------------------------------------

  lemma {:induction false} SwimlaneRowsAt(swimlane: int, statuses: seq<Status>, copyLimits: bool)
    ensures |SwimlaneRows(swimlane, statuses, copyLimits)| == |statuses|
    ensures forall i :: 0 <= i < |statuses| ==>
      SwimlaneRows(swimlane, statuses, copyLimits)[i] ==
      GridRow(swimlane, statuses[i].id, if copyLimits then statuses[i].wipLimit else None)
  {
    if statuses == [] {
    } else {
      SwimlaneRowsAt(swimlane, statuses[..|statuses| - 1], copyLimits);
    }
  }

  lemma {:induction false} StatusRowsAt(status: Status, swimlanes: seq<int>, copyLimits: bool)
    ensures |StatusRows(status, swimlanes, copyLimits)| == |swimlanes|
    ensures forall i :: 0 <= i < |swimlanes| ==>
      StatusRows(status, swimlanes, copyLimits)[i] ==
      GridRow(swimlanes[i], status.id, if copyLimits then status.wipLimit else None)
  {
    if swimlanes == [] {
    } else {
      StatusRowsAt(status, swimlanes[..|swimlanes| - 1], copyLimits);
    }
  }

  /**
   A project's first swimlane gets a row with each status's limit, takes all stories and becomes the default; a further
   one gets rows without limits, and neither stories nor default change.
   */
  lemma {:induction false} NewSwimlaneLeaves(b: Board, id: int)
    ensures
      var result := Apply(b, CreateSwimlane(id));
      result.Success? &&
      var after := result.value;
      after.swimlanes == b.swimlanes + [id] && after.statuses == b.statuses && after.defaultStatus == b.defaultStatus &&
      |after.grid| == |b.grid| + |b.statuses| && b.grid <= after.grid &&
      (forall i :: 0 <= i < |b.statuses| ==>
        var row := after.grid[|b.grid| + i];
        row.swimlane == id && row.status == b.statuses[i].id &&
        row.wipLimit == if b.swimlanes == [] then b.statuses[i].wipLimit else None) &&
      after.stories.Keys == b.stories.Keys &&
      (b.swimlanes == [] ==>
        after.defaultSwimlane == Some(id) &&
        forall story <- b.stories :: after.stories[story] == b.stories[story].(swimlane := Some(id))) &&
      (b.swimlanes != [] ==> after.defaultSwimlane == b.defaultSwimlane && after.stories == b.stories)
  {
    SwimlaneRowsAt(id, b.statuses, b.swimlanes == []);
  }

  /** A new status gets a row per swimlane, with its limit iff there is exactly one swimlane. */
  lemma NewStatusLeaves(b: Board, status: Status)
    ensures
      var result := Apply(b, CreateStatus(status));
      result.Success? &&
      var after := result.value;
      after == b.(statuses := b.statuses + [status], grid := after.grid) &&
      |after.grid| == |b.grid| + |b.swimlanes| && b.grid <= after.grid &&
      forall i :: 0 <= i < |b.swimlanes| ==>
        var row := after.grid[|b.grid| + i];
        row.swimlane == b.swimlanes[i] && row.status == status.id &&
        row.wipLimit == if |b.swimlanes| == 1 then status.wipLimit else None
  {
    StatusRowsAt(status, b.swimlanes, |b.swimlanes| == 1);
  }

  /** A swimlane can be deleted iff its stories have somewhere to go, and it is not the default of several. */
  lemma SwimlaneDeletionSucceedsIff(b: Board, id: int, moveTo: MoveTo)
    ensures
      var result := Apply(b, DeleteSwimlane(id, moveTo));
      (result.Success? <==>
        id in b.swimlanes && moveTo != Missing && (moveTo == NotGiven ==> |b.swimlanes| == 1) &&
        (moveTo.Target? ==> moveTo.id in b.swimlanes) &&
        (b.defaultSwimlane == Some(id) ==> |b.swimlanes| == 1)) &&
      (result == Failure(NotFound) <==> id !in b.swimlanes || moveTo == Missing) &&
      (result == Failure(CannotUnsetSwimlane) <==> id in b.swimlanes && moveTo == NotGiven && |b.swimlanes| != 1) &&
      (result == Failure(TargetOfOtherProject) <==>
        id in b.swimlanes && moveTo.Target? && moveTo.id !in b.swimlanes) &&
      (result == Failure(DefaultCannotBeDeleted) <==>
        id in b.swimlanes && moveTo.Target? && moveTo.id in b.swimlanes &&
        b.defaultSwimlane == Some(id) && |b.swimlanes| != 1)
  {
  }

  /** What is kept of a list is determined from its other end as well: contents and order are those of the list. */
  lemma {:induction false} KeepOneMore<T>(xs: seq<T>, x: T, p: T -> bool)
    ensures Keep([], p) == []
    ensures Keep(xs + [x], p) == if p(x) then Keep(xs, p) + [x] else Keep(xs, p)
  {
    if xs == [] {
      assert ([] + [x])[1..] == [];
    } else {
      KeepOneMore(xs[1..], x, p);
      KeepUnfolds(xs, p);
      KeepUnfolds(xs + [x], p);
      assert (xs + [x])[1..] == xs[1..] + [x];
      hide Keep;
      var first := if p(xs[0]) then [xs[0]] else [];
      assert first + (Keep(xs[1..], p) + [x]) == (first + Keep(xs[1..], p)) + [x];
    }
  }

  lemma KeepUnfolds<T>(xs: seq<T>, p: T -> bool)
    requires xs != []
    ensures Keep(xs, p) == (if p(xs[0]) then [xs[0]] else []) + Keep(xs[1..], p)
  {
  }

  /** A deleted swimlane goes with its rows, and from the default; the other rows and all statuses stay as they are. */
  lemma DeletedSwimlaneLeaves(b: Board, id: int, moveTo: MoveTo)
    requires Apply(b, DeleteSwimlane(id, moveTo)).Success?
    ensures
      var after := Apply(b, DeleteSwimlane(id, moveTo)).value;
      after.swimlanes == Keep(b.swimlanes, s => s != id) &&
      after.grid == Keep(b.grid, (r: GridRow) => r.swimlane != id) &&
      after.statuses == b.statuses && after.defaultStatus == b.defaultStatus &&
      after.defaultSwimlane == (if b.defaultSwimlane == Some(id) then None else b.defaultSwimlane) &&
      after.stories.Keys == b.stories.Keys &&
      (forall story <- b.stories :: after.stories[story].status == b.stories[story].status) &&
      (moveTo == NotGiven ==>
        forall story <- b.stories ::
          after.stories[story].kanbanOrder == b.stories[story].kanbanOrder &&
          after.stories[story].swimlane ==
            if b.stories[story].swimlane == Some(id) then None else b.stories[story].swimlane)
  {
    hide Arranged, Keep;
  }

  /** Who is ahead of whom after a swimlane has been deleted: its stories come behind those of the target. */
  lemma DeletedSwimlaneOrder(b: Board, id: int, target: int, x: StoryId, y: StoryId)
    requires Distinct(b.swimlanes) && OnBoard(b.stories, b.swimlanes)
    requires Apply(b, DeleteSwimlane(id, Target(target))).Success? && target != id
    requires x in b.stories && y in b.stories
    ensures
      var after := Apply(b, DeleteSwimlane(id, Target(target))).value.stories;
      after.Keys == b.stories.Keys && 0 <= after[x].kanbanOrder < |b.stories| &&
      (x != y ==> after[x].kanbanOrder != after[y].kanbanOrder) &&
      (after[x].kanbanOrder < after[y].kanbanOrder <==> Ahead(b.stories, b.swimlanes, id, target, x, y))
  {
    hide Moved, Ahead, Keep;
    MovedOrder(b.stories, b.swimlanes, id, target, x, y);
  }

  /** When a status can be deleted, and what is said otherwise. */
  lemma StatusDeletionSucceedsIff(b: Board, op: Op)
    requires op.DeleteStatus?
    ensures
      var result := Apply(b, op);
      (result.Success? <==>
        op.moveTo.Target? && HasStatus(b.statuses, op.id) && !(b.defaultStatus == Some(op.id) && op.taken)) &&
      (result == Failure(MoveToRequired) <==> op.moveTo == NotGiven) &&
      (result == Failure(NotFound) <==> op.moveTo == Missing || (op.moveTo.Target? && !HasStatus(b.statuses, op.id))) &&
      (result == Failure(DefaultTaken) <==>
        op.moveTo.Target? && HasStatus(b.statuses, op.id) && b.defaultStatus == Some(op.id) && op.taken)
  {
    hide HasStatus;
  }

  /** A deleted status goes with its rows; the target takes its place as the default, or none if that is the status. */
  lemma DeletedStatusLeaves(b: Board, op: Op)
    requires op.DeleteStatus? && Apply(b, op).Success?
    ensures
      var after := Apply(b, op).value;
      after.statuses == Keep(b.statuses, (s: Status) => s.id != op.id) &&
      after.grid == Keep(b.grid, (r: GridRow) => r.status != op.id) &&
      after.swimlanes == b.swimlanes && after.defaultSwimlane == b.defaultSwimlane &&
      after.defaultStatus ==
        if b.defaultStatus != Some(op.id) then b.defaultStatus
        else if op.moveTo.id == op.id then None
        else Some(op.moveTo.id)
  {
    hide HasStatus, Keep;
  }

  // -------------------------------------------------------------------------
  // The invariant
  // -------------------------------------------------------------------------

  /** Exactly one grid row for each pair of a swimlane and a status of the project, and no other row. */
  ghost predicate GridIsComplete(b: Board) {
    forall swimlane, status ::
      RowCount(b.grid, swimlane, status) == if swimlane in b.swimlanes && HasStatus(b.statuses, status) then 1 else 0
  }

  /** The project has a default swimlane iff it has any, and it is one of its own. */
  predicate DefaultIsOwn(b: Board) {
    (b.defaultSwimlane.Some? <==> b.swimlanes != []) &&
    (b.defaultSwimlane.Some? ==> b.defaultSwimlane.value in b.swimlanes)
  }

  ghost predicate Valid(b: Board) {
    Distinct(b.swimlanes) && DistinctStatuses(b.statuses) && GridIsComplete(b) && OnBoard(b.stories, b.swimlanes)
  }

  lemma CreateSwimlaneKeepsGrid(b: Board, id: int)
    requires Valid(b) && id !in b.swimlanes
    ensures Valid(Apply(b, CreateSwimlane(id)).value)
  {
    var b' := Apply(b, CreateSwimlane(id)).value;
    var added := SwimlaneRows(id, b.statuses, |b'.swimlanes| == 1);
    forall swimlane, status
      ensures RowCount(b'.grid, swimlane, status) ==
        if swimlane in b'.swimlanes && HasStatus(b'.statuses, status) then 1 else 0
    {
      RowsOfNewSwimlane(id, b.statuses, |b'.swimlanes| == 1, swimlane, status);
      RowCountOfConcat(b.grid, added, swimlane, status);
    }
  }

  lemma CreateStatusKeepsGrid(b: Board, status: Status)
    requires Valid(b) && !HasStatus(b.statuses, status.id)
    ensures Valid(Apply(b, CreateStatus(status)).value)
  {
    var b' := Apply(b, CreateStatus(status)).value;
    var added := StatusRows(status, b.swimlanes, |b.swimlanes| == 1);
    forall swimlane, id
      ensures RowCount(b'.grid, swimlane, id) == if swimlane in b'.swimlanes && HasStatus(b'.statuses, id) then 1 else 0
    {
      RowsOfNewStatus(status, b.swimlanes, |b.swimlanes| == 1, swimlane, id);
      RowCountOfConcat(b.grid, added, swimlane, id);
      assert b'.statuses[|b.statuses|] == status;
      assert HasStatus(b'.statuses, id) <==> HasStatus(b.statuses, id) || id == status.id by {
        if HasStatus(b.statuses, id) {
          var i :| 0 <= i < |b.statuses| && b.statuses[i].id == id;
          assert b'.statuses[i].id == id;
        }
      }
    }
  }

  lemma DeleteSwimlaneKeepsGrid(b: Board, id: int, moveTo: MoveTo)
    requires Valid(b) && Apply(b, DeleteSwimlane(id, moveTo)).Success?
    ensures Valid(Apply(b, DeleteSwimlane(id, moveTo)).value)
  {
    var b' := Apply(b, DeleteSwimlane(id, moveTo)).value;
    KeepIds(b.swimlanes, s => s != id);
    KeepDistinct(b.swimlanes, s => s != id);
    forall swimlane, status
      ensures RowCount(b'.grid, swimlane, status) ==
        if swimlane in b'.swimlanes && HasStatus(b'.statuses, status) then 1 else 0
    {
      RowCountOfKeep(b.grid, (r: GridRow) => r.swimlane != id, swimlane, status);
    }
    RehomedAreOnBoard(b, id, moveTo);
  }

  /** Every story of a deleted swimlane is in the target's afterwards, or in none; the others stay where they are. */
  lemma Rehomed(b: Board, id: int, moveTo: MoveTo, story: StoryId)
    requires Valid(b) && Apply(b, DeleteSwimlane(id, moveTo)).Success? && story in b.stories
    ensures
      var after := Rehome(b.stories, b.swimlanes, id, moveTo);
      after.Keys == b.stories.Keys &&
      after[story].status == b.stories[story].status &&
      after[story].swimlane ==
        if b.stories[story].swimlane != Some(id) then b.stories[story].swimlane else LaneFor(DeleteSwimlane(id, moveTo))
  {
    hide Moved, GridIsComplete, Keep;
    if moveTo.Target? {
      MovedStory(b.stories, b.swimlanes, id, moveTo.id, story);
    }
  }

  lemma RehomeKeepsStatuses(b: Board, id: int, moveTo: MoveTo)
    ensures
      var after := Rehome(b.stories, b.swimlanes, id, moveTo);
      after.Keys == b.stories.Keys && forall story <- after :: after[story].status == b.stories[story].status
  {
    hide Arranged;
  }

  lemma RehomedAreOnBoard(b: Board, id: int, moveTo: MoveTo)
    requires Valid(b) && Apply(b, DeleteSwimlane(id, moveTo)).Success?
    ensures var after := Apply(b, DeleteSwimlane(id, moveTo)).value; OnBoard(after.stories, after.swimlanes)
  {
    hide Rehome, Keep, GridIsComplete;
    var after := Apply(b, DeleteSwimlane(id, moveTo)).value;
    KeepIds(b.swimlanes, s => s != id);
    forall story <- after.stories
      ensures after.stories[story].swimlane.Some? ==> after.stories[story].swimlane.value in after.swimlanes
    {
      assert story in b.stories by { RehomeKeepsStatuses(b, id, moveTo); }
      Rehomed(b, id, moveTo, story);
    }
  }

  lemma DeleteStatusKeepsGrid(b: Board, op: Op)
    requires Valid(b) && op.DeleteStatus? && Apply(b, op).Success?
    ensures Valid(Apply(b, op).value)
  {
    var b', id := Apply(b, op).value, op.id;
    var p := (s: Status) => s.id != id;
    hide Keep, HasStatus;
    KeepIds(b.statuses, p);
    KeepDistinctStatuses(b.statuses, p);
    forall swimlane, status
      ensures RowCount(b'.grid, swimlane, status) ==
        if swimlane in b'.swimlanes && HasStatus(b'.statuses, status) then 1 else 0
    {
      RowCountOfKeep(b.grid, (r: GridRow) => r.status != id, swimlane, status);
      KeepHasStatus(b.statuses, id, status);
    }
  }

  lemma EditedStatuses(statuses: seq<Status>, id: int, limit: Option<int>, status: int)
    ensures HasStatus(EditStatuses(statuses, id, limit), status) <==> HasStatus(statuses, status)
  {
    var edited := EditStatuses(statuses, id, limit);
    assert forall i :: 0 <= i < |statuses| ==> edited[i].id == statuses[i].id;
  }

  lemma {:induction false} SameCells(grid: seq<GridRow>, edited: seq<GridRow>, swimlane: int, status: int)
    requires |edited| == |grid|
    requires forall i :: 0 <= i < |grid| ==>
      edited[i].swimlane == grid[i].swimlane && edited[i].status == grid[i].status
    ensures RowCount(edited, swimlane, status) == RowCount(grid, swimlane, status)
  {
    if grid == [] {
    } else {
      SameCells(grid[1..], edited[1..], swimlane, status);
    }
  }

  lemma EditKeepsGrid(b: Board, op: Op)
    requires Valid(b) && (op.SetStatusLimit? || op.SetGridLimit?) && Apply(b, op).Success?
    ensures Valid(Apply(b, op).value)
  {
    var b' := Apply(b, op).value;
    hide HasStatus, EditStatuses, EditRows;
    forall lane, status
      ensures RowCount(b'.grid, lane, status) == if lane in b'.swimlanes && HasStatus(b'.statuses, status) then 1 else 0
    {
      if op.SetStatusLimit? {
        EditedStatuses(b.statuses, op.id, op.limit, status);
      } else {
        SameCells(b.grid, b'.grid, lane, status);
      }
    }
  }

  lemma StoryOrDefaultKeepsGrid(b: Board, op: Op)
    requires Valid(b) && Feasible(b, op) && (op.SaveStory? || op.SetDefaultStatus? || op.SetDefaultSwimlane?)
    requires Apply(b, op).Success?
    ensures Valid(Apply(b, op).value)
  {
    var b' := Apply(b, op).value;
    forall lane, status
      ensures RowCount(b'.grid, lane, status) == if lane in b'.swimlanes && HasStatus(b'.statuses, status) then 1 else 0
    {
    }
  }

  lemma KeepHasStatus(statuses: seq<Status>, id: int, status: int)
    ensures HasStatus(Keep(statuses, (s: Status) => s.id != id), status) <==>
      HasStatus(statuses, status) && status != id
  {
    var p := (s: Status) => s.id != id;
    var kept := Keep(statuses, p);
    KeepIds(statuses, p);
    if HasStatus(statuses, status) && status != id {
      var i :| 0 <= i < |statuses| && statuses[i].id == status;
      assert statuses[i] in kept;
    }
    if HasStatus(kept, status) {
      var i :| 0 <= i < |kept| && kept[i].id == status;
      assert kept[i] in statuses;
    }
  }

  // -------------------------------------------------------------------------
  // Theorems
  // -------------------------------------------------------------------------

  /** A request that fails changes nothing. */
  function After(b: Board, ops: seq<Op>): Board {
    if ops == [] then b
    else
      var before := After(b, ops[..|ops| - 1]);
      match Apply(before, ops[|ops| - 1])
      case Failure(_) => before
      case Success(after) => after
  }

  ghost predicate FeasibleRun(b: Board, ops: seq<Op>) {
    ops != [] ==> FeasibleRun(b, ops[..|ops| - 1]) && Feasible(After(b, ops[..|ops| - 1]), ops[|ops| - 1])
  }

  /**
   Over every run the grid has exactly one row per pair of a swimlane and a status, and no story lies in a swimlane that
   is gone.
   */
  lemma {:induction false} GridStaysComplete(ops: seq<Op>)
    requires FeasibleRun(EMPTY_BOARD, ops)
    ensures Valid(After(EMPTY_BOARD, ops))
  {
    if ops == [] {
    } else {
      hide Valid, Apply;
      GridStaysComplete(ops[..|ops| - 1]);
      var before, op := After(EMPTY_BOARD, ops[..|ops| - 1]), ops[|ops| - 1];
      if Apply(before, op).Success? {
        match op
        case CreateSwimlane(id) => CreateSwimlaneKeepsGrid(before, id);
        case CreateStatus(status) => CreateStatusKeepsGrid(before, status);
        case DeleteSwimlane(id, moveTo) => DeleteSwimlaneKeepsGrid(before, id, moveTo);
        case DeleteStatus(_, _, _, _, _) => DeleteStatusKeepsGrid(before, op);
        case SaveStory(_, _) => StoryOrDefaultKeepsGrid(before, op);
        case SetDefaultStatus(_, _) => StoryOrDefaultKeepsGrid(before, op);
        case SetDefaultSwimlane(_, _) => StoryOrDefaultKeepsGrid(before, op);
        case SetStatusLimit(_, _) => EditKeepsGrid(before, op);
        case SetGridLimit(_, _, _) => EditKeepsGrid(before, op);
      }
      assert Valid(After(EMPTY_BOARD, ops));
    }
  }

  /** An edit takes the default away from a project with swimlanes, or makes a foreign swimlane the default. */
  predicate MisplacesDefault(b: Board, op: Op) {
    op.SetDefaultSwimlane? && if op.chosen.Some? then op.chosen.value !in b.swimlanes else b.swimlanes != []
  }

  /** A step keeps the default swimlane in order iff it is not such an edit. */
  lemma DefaultStaysOwnIff(b: Board, op: Op)
    requires DefaultIsOwn(b) && Distinct(b.swimlanes) && Apply(b, op).Success?
    ensures DefaultIsOwn(Apply(b, op).value) <==> !MisplacesDefault(b, op)
  {
    hide SwimlaneRows, StatusRows, Rehome, Restatus, HasStatus, HasRow, EditStatuses, EditRows;
    if op.DeleteSwimlane? {
      KeepIds(b.swimlanes, s => s != op.id);
      if b.defaultSwimlane == Some(op.id) {
        assert b.swimlanes == [op.id];
      } else {
        assert b.defaultSwimlane.value in Apply(b, op).value.swimlanes;
      }
    }
  }

  /**
   So over every run without such an edit a project has a default swimlane, one of its own, iff it has any. In
   particular creating and deleting swimlanes and statuses keeps it so.
   */
  lemma {:induction false} DefaultStaysOwn(ops: seq<Op>)
    requires FeasibleRun(EMPTY_BOARD, ops)
    requires forall k :: 0 <= k < |ops| ==> !MisplacesDefault(After(EMPTY_BOARD, ops[..k]), ops[k])
    ensures DefaultIsOwn(After(EMPTY_BOARD, ops))
  {
    if ops == [] {
    } else {
      hide Apply, DefaultIsOwn, MisplacesDefault, Valid;
      var last := |ops| - 1;
      forall k | 0 <= k < last ensures ops[..last][..k] == ops[..k] {
      }
      DefaultStaysOwn(ops[..last]);
      var before := After(EMPTY_BOARD, ops[..last]);
      if Apply(before, ops[last]).Success? {
        assert Distinct(before.swimlanes) by { SwimlanesAreDistinct(ops[..last]); }
        DefaultStaysOwnIff(before, ops[last]);
      }
      assert DefaultIsOwn(After(EMPTY_BOARD, ops));
    }
  }

  lemma SwimlanesAreDistinct(ops: seq<Op>)
    requires FeasibleRun(EMPTY_BOARD, ops)
    ensures Distinct(After(EMPTY_BOARD, ops).swimlanes)
  {
    GridStaysComplete(ops);
  }

  /**
   The default swimlane can be deleted iff it is the only one, and then nothing of the grid is left and no
   story is in a swimlane.
   */
  lemma DefaultGoesLast(b: Board, moveTo: MoveTo)
    requires Valid(b) && b.defaultSwimlane.Some? && b.defaultSwimlane.value in b.swimlanes
    requires moveTo != Missing && (moveTo.Target? ==> moveTo.id in b.swimlanes)
    ensures
      var result := Apply(b, DeleteSwimlane(b.defaultSwimlane.value, moveTo));
      (result.Success? <==> |b.swimlanes| == 1) &&
      (result.Success? ==>
        var after := result.value;
        after.swimlanes == [] && after.grid == [] && after.defaultSwimlane == None &&
        after.statuses == b.statuses && after.stories.Keys == b.stories.Keys &&
        forall story <- after.stories :: after.stories[story].swimlane == None)
  {
    if |b.swimlanes| == 1 {
      var id := b.defaultSwimlane.value;
      assert b.swimlanes == [id];
      forall i | 0 <= i < |b.grid| ensures b.grid[i].swimlane == id {
        RowIsCounted(b.grid, i);
      }
      NothingKept(b.grid, id);
      assert Keep(b.swimlanes, s => s != id) == [];
      RehomeKeepsStatuses(b, id, moveTo);
      hide Keep, GridIsComplete, Rehome;
      forall story <- b.stories ensures Rehome(b.stories, b.swimlanes, id, moveTo)[story].swimlane == None {
        Rehomed(b, id, moveTo, story);
      }
    }
  }

  lemma {:induction false} RowIsCounted(grid: seq<GridRow>, i: nat)
    requires i < |grid|
    ensures RowCount(grid, grid[i].swimlane, grid[i].status) >= 1
  {
    if i == 0 {
    } else {
      RowIsCounted(grid[1..], i - 1);
    }
  }

  lemma {:induction false} NothingKept(grid: seq<GridRow>, id: int)
    requires forall i :: 0 <= i < |grid| ==> grid[i].swimlane == id
    ensures Keep(grid, (r: GridRow) => r.swimlane != id) == []
  {
    if grid == [] {
    } else {
      NothingKept(grid[1..], id);
    }
  }

  /** Every grid row carries the limit of its status. */
  predicate Mirrors(b: Board) {
    forall r, s | r in b.grid && s in b.statuses :: r.status == s.id ==> r.wipLimit == s.wipLimit
  }

  lemma {:induction false} NewSwimlaneMirrors(id: int, statuses: seq<Status>)
    requires DistinctStatuses(statuses)
    ensures forall r, s | r in SwimlaneRows(id, statuses, true) && s in statuses ::
      r.status == s.id ==> r.wipLimit == s.wipLimit
    ensures forall r <- SwimlaneRows(id, statuses, true) :: HasStatus(statuses, r.status)
  {
    if statuses == [] {
    } else {
      var last := |statuses| - 1;
      var earlier := statuses[..last];
      NewSwimlaneMirrors(id, earlier);
      forall i | 0 <= i < last ensures HasStatus(statuses, earlier[i].id) && earlier[i].id != statuses[last].id {
        assert statuses[i].id == earlier[i].id;
      }
      assert HasStatus(statuses, statuses[last].id);
      assert forall s :: s in statuses <==> s in earlier || s == statuses[last];
    }
  }

  lemma {:induction false} NewStatusMirrors(status: Status, swimlanes: seq<int>)
    ensures forall r <- StatusRows(status, swimlanes, true) :: r.status == status.id && r.wipLimit == status.wipLimit
  {
    if swimlanes == [] {
    } else {
      NewStatusMirrors(status, swimlanes[..|swimlanes| - 1]);
    }
  }

  /** An edit gives a status, or its row in the one swimlane, a limit that differs from the other's. */
  ghost predicate BreaksMirror(b: Board, op: Op) {
    match op
    case SetStatusLimit(id, limit) => b.swimlanes != [] && exists s <- b.statuses :: s.id == id && s.wipLimit != limit
    case SetGridLimit(swimlane, id, limit) =>
      HasRow(b.grid, swimlane, id) && exists s <- b.statuses :: s.id == id && s.wipLimit != limit
    case _ => false
  }

  lemma RowsAreOnBoard(b: Board)
    requires Valid(b)
    ensures forall r <- b.grid :: r.swimlane in b.swimlanes && HasStatus(b.statuses, r.status)
  {
    forall r | r in b.grid ensures r.swimlane in b.swimlanes && HasStatus(b.statuses, r.status) {
      var i :| 0 <= i < |b.grid| && b.grid[i] == r;
      RowIsCounted(b.grid, i);
    }
  }

  lemma {:induction false} CountedRowExists(grid: seq<GridRow>, swimlane: int, status: int) returns (i: nat)
    requires RowCount(grid, swimlane, status) >= 1
    ensures i < |grid| && grid[i].swimlane == swimlane && grid[i].status == status
  {
    if grid[0].swimlane == swimlane && grid[0].status == status {
      i := 0;
    } else {
      i := CountedRowExists(grid[1..], swimlane, status);
      i := i + 1;
    }
  }

  lemma SameIdSameStatus(statuses: seq<Status>, s: Status, t: Status)
    requires DistinctStatuses(statuses) && s in statuses && t in statuses && s.id == t.id
    ensures s == t
  {
    var i :| 0 <= i < |statuses| && statuses[i] == s;
    var j :| 0 <= j < |statuses| && statuses[j] == t;
  }

  lemma StatusLimitMirrorsIff(b: Board, op: Op)
    requires Valid(b) && Mirrors(b) && op.SetStatusLimit? && Apply(b, op).Success?
    ensures Mirrors(Apply(b, op).value) <==> !BreaksMirror(b, op)
  {
    var after := Apply(b, op).value;
    RowsAreOnBoard(b);
    if BreaksMirror(b, op) {
      var s :| s in b.statuses && s.id == op.id && s.wipLimit != op.limit;
      StatusIsThere(b.statuses, s);
      var i := CountedRowExists(b.grid, b.swimlanes[0], op.id);
      var k :| 0 <= k < |b.statuses| && b.statuses[k] == s;
      assert b.grid[i] in after.grid && after.statuses[k] in after.statuses;
      assert b.grid[i].wipLimit == s.wipLimit;
    } else {
      forall r, t | r in after.grid && t in after.statuses && r.status == t.id ensures r.wipLimit == t.wipLimit {
        var k :| 0 <= k < |after.statuses| && after.statuses[k] == t;
        assert b.statuses[k] in b.statuses && b.statuses[k].id == t.id;
      }
    }
  }

  lemma GridLimitMirrorsIff(b: Board, op: Op)
    requires Valid(b) && Mirrors(b) && op.SetGridLimit? && Apply(b, op).Success?
    ensures Mirrors(Apply(b, op).value) <==> !BreaksMirror(b, op)
  {
    var after := Apply(b, op).value;
    var i :| 0 <= i < |b.grid| && b.grid[i].swimlane == op.swimlane && b.grid[i].status == op.id;
    assert after.grid[i] == GridRow(op.swimlane, op.id, op.limit) && after.grid[i] in after.grid;
    if !BreaksMirror(b, op) {
      forall r, t | r in after.grid && t in after.statuses && r.status == t.id ensures r.wipLimit == t.wipLimit {
        var k :| 0 <= k < |after.grid| && after.grid[k] == r;
        assert b.grid[k] in b.grid;
      }
    }
  }

  /** With at most one swimlane, a step keeps every row at its status's limit iff it is not such an edit. */
  lemma StepMirrorsIff(b: Board, op: Op)
    requires Valid(b) && Mirrors(b) && Feasible(b, op) && Apply(b, op).Success?
    requires |b.swimlanes| <= 1 && |Apply(b, op).value.swimlanes| <= 1
    ensures Mirrors(Apply(b, op).value) <==> !BreaksMirror(b, op)
  {
    RowsAreOnBoard(b);
    match op
    case CreateSwimlane(id) => NewSwimlaneMirrors(id, b.statuses);
    case CreateStatus(status) =>
      hide HasStatus;
      NewStatusMirrors(status, b.swimlanes);
      forall s | s in b.statuses ensures s.id != status.id {
        StatusIsThere(b.statuses, s);
      }
      assert b.swimlanes == [] ==> StatusRows(status, b.swimlanes, false) == [];
    case DeleteSwimlane(id, _) => KeepIds(b.grid, (r: GridRow) => r.swimlane != id);
    case DeleteStatus(id, _, _, _, _) =>
      KeepIds(b.grid, (r: GridRow) => r.status != id);
      KeepIds(b.statuses, (s: Status) => s.id != id);
    case SaveStory(_, _) =>
    case SetDefaultStatus(_, _) =>
    case SetDefaultSwimlane(_, _) =>
    case SetStatusLimit(_, _) => StatusLimitMirrorsIff(b, op);
    case SetGridLimit(_, _, _) => GridLimitMirrorsIff(b, op);
  }

  lemma StatusIsThere(statuses: seq<Status>, s: Status)
    requires s in statuses
    ensures HasStatus(statuses, s.id)
  {
    var i :| 0 <= i < |statuses| && statuses[i] == s;
  }

  /** As long as a project has had no second swimlane and no such edit, its grid shows each status's own limit. */
  lemma {:induction false} SoleSwimlaneMirrorsStatuses(ops: seq<Op>)
    requires FeasibleRun(EMPTY_BOARD, ops)
    requires forall k :: 0 <= k <= |ops| ==> |After(EMPTY_BOARD, ops[..k]).swimlanes| <= 1
    requires forall k :: 0 <= k < |ops| ==> !BreaksMirror(After(EMPTY_BOARD, ops[..k]), ops[k])
    ensures Mirrors(After(EMPTY_BOARD, ops))
  {
    if ops == [] {
    } else {
      hide Apply, Mirrors, Valid, BreaksMirror;
      var last := |ops| - 1;
      forall k | 0 <= k <= last ensures ops[..last][..k] == ops[..k] {
      }
      SoleSwimlaneMirrorsStatuses(ops[..last]);
      GridStaysComplete(ops[..last]);
      assert ops[..|ops|] == ops;
      var before := After(EMPTY_BOARD, ops[..last]);
      if Apply(before, ops[last]).Success? {
        StepMirrorsIff(before, ops[last]);
      }
      assert Mirrors(After(EMPTY_BOARD, ops));
    }
  }

  // -------------------------------------------------------------------------
  // Where stories are
  // -------------------------------------------------------------------------

  /** The request puts the story in a swimlane, or takes it out of the one it is in. */
  predicate MovesLane(b: Board, op: Op, story: StoryId) {
    Apply(b, op).Success? &&
    match op
    case CreateSwimlane(_) => b.swimlanes == [] && story in b.stories
    case DeleteSwimlane(id, _) => story in b.stories && b.stories[story].swimlane == Some(id)
    case SaveStory(saved, _) => saved == story
    case _ => false
  }

  /** Where it puts it. */
  function LaneFor(op: Op): Option<int> {
    match op
    case CreateSwimlane(id) => Some(id)
    case DeleteSwimlane(id, moveTo) => if moveTo.Target? && moveTo.id != id then Some(moveTo.id) else None
    case SaveStory(_, saved) => saved.swimlane
    case _ => None
  }

  /** The request gives the story a status, or takes away the one it has. */
  predicate MovesStatus(b: Board, op: Op, story: StoryId) {
    Apply(b, op).Success? &&
    match op
    case DeleteStatus(id, _, _, _, _) => story in b.stories && b.stories[story].status == Some(id)
    case SaveStory(saved, _) => saved == story
    case _ => false
  }

  function StatusFor(b: Board, op: Op): Option<int> {
    match op
    case DeleteStatus(id, moveTo, _, _, _) => if moveTo.Target? && moveTo.id != id then Some(moveTo.id) else None
    case SaveStory(_, saved) => if saved.status.Some? then saved.status else b.defaultStatus
    case _ => None
  }

  lemma StepMovesStory(b: Board, op: Op, story: StoryId)
    requires Valid(b) && Apply(b, op).Success? && (story in b.stories || MovesLane(b, op, story))
    ensures
      var after := Apply(b, op).value.stories;
      story in after &&
      after[story].swimlane == (if MovesLane(b, op, story) then LaneFor(op) else b.stories[story].swimlane) &&
      after[story].status == (if MovesStatus(b, op, story) then StatusFor(b, op) else b.stories[story].status)
  {
    hide Keep, GridIsComplete, SwimlaneRows, StatusRows, Rehome;
    if op.DeleteSwimlane? {
      Rehomed(b, op.id, op.moveTo, story);
    }
  }

  /**
   Over every run, a story is in the swimlane where the last request that moved it put it: its own saving, the creation
   of the project's first swimlane, or the deletion of the swimlane it was in.
   */
  lemma {:induction false} StoriesFollowSwimlanes(ops: seq<Op>, k: nat, story: StoryId)
    requires FeasibleRun(EMPTY_BOARD, ops) && k < |ops| && MovesLane(After(EMPTY_BOARD, ops[..k]), ops[k], story)
    requires forall l :: k < l < |ops| ==> !MovesLane(After(EMPTY_BOARD, ops[..l]), ops[l], story)
    ensures
      var stories := After(EMPTY_BOARD, ops).stories;
      story in stories && stories[story].swimlane == LaneFor(ops[k])
  {
    hide Apply, Valid, MovesLane, MovesStatus, LaneFor;
    var last := |ops| - 1;
    var before := After(EMPTY_BOARD, ops[..last]);
    GridStaysComplete(ops[..last]);
    if k < last {
      forall l | k <= l < last ensures ops[..last][..l] == ops[..l] {
      }
      StoriesFollowSwimlanes(ops[..last], k, story);
    } else {
      MovesOnlyOnSuccess(before, ops[last], story);
    }
    if Apply(before, ops[last]).Success? {
      StepMovesStory(before, ops[last], story);
    }
  }

  lemma MovesOnlyOnSuccess(b: Board, op: Op, story: StoryId)
    ensures MovesLane(b, op, story) || MovesStatus(b, op, story) ==> Apply(b, op).Success?
    ensures MovesStatus(b, op, story) ==> story in b.stories || MovesLane(b, op, story)
  {
  }

  /** Likewise it has the status that its last saving or the last deletion of its status gave it. */
  lemma {:induction false} StoriesFollowStatuses(ops: seq<Op>, k: nat, story: StoryId)
    requires FeasibleRun(EMPTY_BOARD, ops) && k < |ops| && MovesStatus(After(EMPTY_BOARD, ops[..k]), ops[k], story)
    requires forall l :: k < l < |ops| ==> !MovesStatus(After(EMPTY_BOARD, ops[..l]), ops[l], story)
    ensures
      var stories := After(EMPTY_BOARD, ops).stories;
      story in stories && stories[story].status == StatusFor(After(EMPTY_BOARD, ops[..k]), ops[k])
  {
    hide Apply, Valid, MovesLane, MovesStatus, StatusFor;
    var last := |ops| - 1;
    var before := After(EMPTY_BOARD, ops[..last]);
    GridStaysComplete(ops[..last]);
    if k < last {
      forall l | k <= l < last ensures ops[..last][..l] == ops[..l] {
      }
      StoriesFollowStatuses(ops[..last], k, story);
    } else {
      MovesOnlyOnSuccess(before, ops[last], story);
    }
    if Apply(before, ops[last]).Success? {
      StepMovesStory(before, ops[last], story);
    }
  }

  /** The statuses that the project's stories have, and its default status, are its own. */
  ghost predicate StatusesAreOwn(b: Board) {
    (forall story <- b.stories ::
      b.stories[story].status.Some? ==> HasStatus(b.statuses, b.stories[story].status.value)) &&
    (b.defaultStatus.Some? ==> HasStatus(b.statuses, b.defaultStatus.value))
  }

  /**
   A status of some other project takes the place of a deleted one that something has, or is made the default.
   Nothing guards against either.
   */
  ghost predicate Expatriates(b: Board, op: Op) {
    Apply(b, op).Success? &&
    match op
    case DeleteStatus(id, moveTo, _, _, _) =>
      !HasStatus(b.statuses, moveTo.id) &&
      (b.defaultStatus == Some(id) || exists story <- b.stories :: b.stories[story].status == Some(id))
    case SetDefaultStatus(chosen, _) => chosen.Some? && !HasStatus(b.statuses, chosen.value)
    case _ => false
  }

  /** A step keeps all statuses the project's own iff it is none of these. */
  lemma StatusesStayOwnIff(b: Board, op: Op)
    requires StatusesAreOwn(b) && Feasible(b, op) && Apply(b, op).Success?
    ensures StatusesAreOwn(Apply(b, op).value) <==> !Expatriates(b, op)
  {
    hide Keep, SwimlaneRows, StatusRows, Moved, Rehome, EditStatuses, EditRows;
    match op
    case CreateStatus(status) => AddedStatus(b.statuses, status);
    case DeleteSwimlane(id, moveTo) => RehomeKeepsStatuses(b, id, moveTo);
    case DeleteStatus(_, _, _, _, _) => DeletedStatusStaysOwnIff(b, op);
    case SetStatusLimit(id, limit) =>
      forall status {
        EditedStatuses(b.statuses, id, limit, status);
      }
    case _ =>
  }

  lemma AddedStatus(statuses: seq<Status>, added: Status)
    ensures forall id :: HasStatus(statuses + [added], id) <==> HasStatus(statuses, id) || id == added.id
  {
    assert (statuses + [added])[|statuses|] == added;
    forall id | HasStatus(statuses, id) ensures HasStatus(statuses + [added], id) {
      var i :| 0 <= i < |statuses| && statuses[i].id == id;
      assert (statuses + [added])[i].id == id;
    }
  }

  lemma DeletedStatusStaysOwnIff(b: Board, op: Op)
    requires StatusesAreOwn(b) && op.DeleteStatus? && Apply(b, op).Success?
    ensures StatusesAreOwn(Apply(b, op).value) <==> !Expatriates(b, op)
  {
    hide Keep, HasStatus;
    var after := Apply(b, op).value;
    forall status ensures HasStatus(after.statuses, status) <==> HasStatus(b.statuses, status) && status != op.id {
      KeepHasStatus(b.statuses, op.id, status);
    }
    if story :| story in b.stories && b.stories[story].status == Some(op.id) {
      assert after.stories[story].status == NewStatus(Some(op.id), op.id, op.moveTo.id);
    }
  }

  /** A default status deleted in favour of another project's: story and default have that one, with one's own left. */
  lemma ForeignTargetIsAccepted()
    ensures
      var b := EMPTY_BOARD.(statuses := [Status(1, None), Status(3, None)], defaultStatus := Some(1),
                            stories := map[StoryId(1) := Story(None, Some(1), 0)]);
      var op := DeleteStatus(1, Target(2), false, [StoryId(1)], 0);
      Valid(b) && StatusesAreOwn(b) && Feasible(b, op) && Apply(b, op).Success? &&
      var after := Apply(b, op).value;
      after.statuses == [Status(3, None)] && after.defaultStatus == Some(2) &&
      after.stories[StoryId(1)].status == Some(2) && !StatusesAreOwn(after)
  {
    var b := EMPTY_BOARD.(statuses := [Status(1, None), Status(3, None)], defaultStatus := Some(1),
                          stories := map[StoryId(1) := Story(None, Some(1), 0)]);
    var op := DeleteStatus(1, Target(2), false, [StoryId(1)], 0);
    assert b.statuses[0].id == 1;
    assert b.stories[StoryId(1)].status == Some(1);
    assert b.statuses[1..] == [Status(3, None)];
    StatusesStayOwnIff(b, op);
  }

  /**
   The stories of a deleted status get new and different orders from the time of the request on, by swimlane, the
   unclassified ones last, and then by their old order; nothing else about them but their status changes, and nothing
   at all about the other stories.
   */
  lemma StatusStoriesGoLast(b: Board, op: Op, x: StoryId, y: StoryId)
    requires Feasible(b, op) && op.DeleteStatus? && Apply(b, op).Success? && x in b.stories && y in b.stories
    ensures
      var after := Apply(b, op).value.stories;
      after.Keys == b.stories.Keys &&
      after[x].swimlane == b.stories[x].swimlane &&
      (b.stories[x].status != Some(op.id) ==> after[x] == b.stories[x]) &&
      (b.stories[x].status == Some(op.id) ==> op.now <= after[x].kanbanOrder < op.now + |b.stories|) &&
      (b.stories[x].status == b.stories[y].status == Some(op.id) ==>
        (x != y ==> after[x].kanbanOrder != after[y].kanbanOrder) &&
        (Earlier(b.stories, b.swimlanes, x, y) ==> after[x].kanbanOrder < after[y].kanbanOrder))
  {
    hide Renumbered, Earlier, IsReading, Keep;
    RenumberedOrder(b.stories, b.swimlanes, op.id, op.listed, op.now, x, y);
  }
}
