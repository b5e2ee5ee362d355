/**
 The kanban orders that stories get when what they are in is deleted: `update_order_and_swimlane` of
 taiga/projects/services/bulk_update_order.py for swimlanes, whose stories go behind those of another swimlane, and
 `reset_userstories_kanban_order_in_bulk` of taiga/projects/userstories/services.py for statuses.
 */
module KanbanOrder {
  import opened Wrappers

  datatype Story = Story(swimlane: Option<int>, status: Option<int>, kanbanOrder: int)

  type Stories = map<StoryId, Story>

  /** The order in which stories are read: by kanban order, then by id. */
  predicate Precedes(stories: Stories, a: StoryId, b: StoryId)
    requires a in stories && b in stories
  {
    stories[a].kanbanOrder < stories[b].kanbanOrder ||
    (stories[a].kanbanOrder == stories[b].kanbanOrder && a.n < b.n)
  }

  predicate IsFirst(stories: Stories, keys: set<StoryId>, id: StoryId)
    requires keys <= stories.Keys
  {
    id in keys && forall other <- keys :: other == id || Precedes(stories, id, other)
  }

  lemma {:induction false} FirstOf(stories: Stories, keys: set<StoryId>) returns (first: StoryId)
    requires keys != {} && keys <= stories.Keys
    ensures IsFirst(stories, keys, first)
    decreases keys
  {
    var some :| some in keys;
    var rest := keys - {some};
    first := some;
    if rest == {} {
    } else {
      var rival := FirstOf(stories, rest);
      assert rival.n != some.n;
      first := if Precedes(stories, rival, some) then rival else some;
    }
    forall other <- keys ensures other == first || Precedes(stories, first, other) {
      assert other == some || other in rest;
    }
  }

  function InOrder(stories: Stories, keys: set<StoryId>): (ids: seq<StoryId>)
    requires keys <= stories.Keys
    ensures |ids| == |keys|
    ensures forall id :: id in ids <==> id in keys
    ensures forall i, j :: 0 <= i < j < |ids| ==> Precedes(stories, ids[i], ids[j])
    decreases keys
  {
    if keys == {} then []
    else
      assert exists id :: IsFirst(stories, keys, id) by {
        var first := FirstOf(stories, keys);
      }
      var first :| first in keys && IsFirst(stories, keys, first);
      [first] + InOrder(stories, keys - {first})
  }

  function StoriesIn(stories: Stories, lane: Option<int>): set<StoryId> {
    set id | id in stories && stories[id].swimlane == lane
  }

  function Queue(stories: Stories, lane: Option<int>): (ids: seq<StoryId>)
    ensures forall id :: id in ids <==> id in stories && stories[id].swimlane == lane
    ensures forall i :: 0 <= i < |ids| ==> ids[i] in stories && stories[ids[i]].swimlane == lane
    ensures forall i, j :: 0 <= i < j < |ids| ==> Precedes(stories, ids[i], ids[j])
  {
    var ids := InOrder(stories, StoriesIn(stories, lane));
    assert forall i :: 0 <= i < |ids| ==> ids[i] in StoriesIn(stories, lane);
    ids
  }

  /** A swimlane's stories as they are to follow each other: the target's own ones first, then the deleted one's. */
  function NewQueue(stories: Stories, lane: int, deleted: int, target: int): seq<StoryId> {
    if lane == deleted then []
    else Queue(stories, Some(lane)) + if lane == target then Queue(stories, Some(deleted)) else []
  }

  function NewQueues(stories: Stories, swimlanes: seq<int>, deleted: int, target: int): seq<StoryId> {
    if swimlanes == [] then []
    else
      var last := |swimlanes| - 1;
      NewQueues(stories, swimlanes[..last], deleted, target) + NewQueue(stories, swimlanes[last], deleted, target)
  }

  /** All stories in their new order, the unclassified ones first. */
  function Arranged(stories: Stories, swimlanes: seq<int>, deleted: int, target: int): seq<StoryId> {
    Queue(stories, None) + NewQueues(stories, swimlanes, deleted, target)
  }

  function NewLane(lane: Option<int>, deleted: int, target: int): Option<int> {
    if lane == Some(deleted) then Some(target) else lane
  }

  function Moved(stories: Stories, swimlanes: seq<int>, deleted: int, target: int): Stories {
    var arranged := Arranged(stories, swimlanes, deleted, target);
    map id | id in stories ::
      if id in arranged
      then
        stories[id]
          .(swimlane := NewLane(stories[id].swimlane, deleted, target))
          .(kanbanOrder := IndexOf(arranged, id))
      else stories[id]
  }

  lemma IndexIs<T>(xs: seq<T>, i: nat)
    requires Distinct(xs) && i < |xs|
    ensures IndexOf(xs, xs[i]) == i
  {
  }

  // -------------------------------------------------------------------------
  // The service as the source has it
  // -------------------------------------------------------------------------

  datatype Line = Line(stories: seq<StoryId>, lanes: seq<Option<int>>)

  /** The new swimlanes of the listed stories, one for one. */
  predicate LanesFit(stories: Stories, line: Line, deleted: int, target: int) {
    |line.lanes| == |line.stories| &&
    forall k :: 0 <= k < |line.stories| ==>
      line.stories[k] in stories && line.lanes[k] == NewLane(stories[line.stories[k]].swimlane, deleted, target)
  }

  ghost predicate LineOf(stories: Stories, line: Line, ids: seq<StoryId>, deleted: int, target: int) {
    line.stories == ids && LanesFit(stories, line, deleted, target)
  }

  /** One line per swimlane, in which the stories of the one to be deleted already have their new swimlane. */
  method ReadLines(stories: Stories, swimlanes: seq<int>, deleted: int, target: int) returns (lines: map<int, Line>)
    ensures lines.Keys == set lane | lane in swimlanes
    ensures forall lane <- lines :: LineOf(stories, lines[lane], Queue(stories, Some(lane)), deleted, target)
  {
    lines := map[];
    for i := 0 to |swimlanes|
      invariant lines.Keys == set lane | lane in swimlanes[..i]
      invariant forall lane <- lines :: LineOf(stories, lines[lane], Queue(stories, Some(lane)), deleted, target)
    {
      hide Queue, LineOf;
      var line := ReadLine(stories, swimlanes[i], deleted, target);
      lines := lines[swimlanes[i] := line];
    }
    assert swimlanes[..|swimlanes|] == swimlanes;
  }

  method ReadLine(stories: Stories, lane: int, deleted: int, target: int) returns (line: Line)
    ensures LineOf(stories, line, Queue(stories, Some(lane)), deleted, target)
  {
    hide InOrder;
    var ids := Queue(stories, Some(lane));
    line := Line(ids, seq(|ids|, _ => Some(if lane == deleted then target else lane)));
  }

  /** The unclassified stories and the remaining lines, one after the other. */
  method Flatten(stories: Stories, swimlanes: seq<int>, lines: map<int, Line>, deleted: int, target: int)
    returns (flat: Line)
    requires lines.Keys == (set lane | lane in swimlanes) - {deleted}
    requires forall lane <- lines ::
      LineOf(stories, lines[lane], NewQueue(stories, lane, deleted, target), deleted, target)
    ensures LineOf(stories, flat, Arranged(stories, swimlanes, deleted, target), deleted, target)
  {
    hide NewQueue, Arranged, LineOf;
    flat := Unclassified(stories, deleted, target);
    for i := 0 to |swimlanes|
      invariant LineOf(stories, flat, Arranged(stories, swimlanes[..i], deleted, target), deleted, target)
    {
      var lane := swimlanes[i];
      OneMoreQueue(stories, swimlanes, deleted, target, i);
      if lane in lines {
        LinesConcat(stories, flat, lines[lane], Arranged(stories, swimlanes[..i], deleted, target),
                    NewQueue(stories, lane, deleted, target), deleted, target);
        flat := Line(flat.stories + lines[lane].stories, flat.lanes + lines[lane].lanes);
      }
    }
    assert swimlanes[..|swimlanes|] == swimlanes;
  }

  method Unclassified(stories: Stories, deleted: int, target: int) returns (line: Line)
    ensures LineOf(stories, line, Arranged(stories, [], deleted, target), deleted, target)
  {
    hide InOrder;
    var ids := Queue(stories, None);
    line := Line(ids, seq(|ids|, _ => None));
  }

  lemma OneMoreQueue(stories: Stories, swimlanes: seq<int>, deleted: int, target: int, i: nat)
    requires i < |swimlanes|
    ensures Arranged(stories, swimlanes[..i + 1], deleted, target) ==
      Arranged(stories, swimlanes[..i], deleted, target) + NewQueue(stories, swimlanes[i], deleted, target)
    ensures swimlanes[i] == deleted ==>
      Arranged(stories, swimlanes[..i + 1], deleted, target) == Arranged(stories, swimlanes[..i], deleted, target)
  {
    hide Queue;
    assert swimlanes[..i + 1][..i] == swimlanes[..i];
  }

  lemma LinesConcat(
      stories: Stories, a: Line, b: Line, aIds: seq<StoryId>, bIds: seq<StoryId>, deleted: int, target: int)
    requires LineOf(stories, a, aIds, deleted, target) && LineOf(stories, b, bIds, deleted, target)
    ensures LineOf(stories, Line(a.stories + b.stories, a.lanes + b.lanes), aIds + bIds, deleted, target)
  {
  }

  method UpdateOrderAndSwimlane(stories: Stories, swimlanes: seq<int>, deleted: int, target: int) returns (r: Stories)
    requires deleted in swimlanes && target in swimlanes
    ensures r == Moved(stories, swimlanes, deleted, target)
  {
    hide Queue, Arranged;
    var lines := ReadLines(stories, swimlanes, deleted, target);
    var own, moving := lines[target], lines[deleted];
    lines := lines[target := Line(own.stories + moving.stories, own.lanes + moving.lanes)];
    lines := lines - {deleted};
    var flat := Flatten(stories, swimlanes, lines, deleted, target);
    r := map id | id in stories ::
      if id in flat.stories
      then
        var place := IndexOf(flat.stories, id);
        stories[id].(swimlane := flat.lanes[place], kanbanOrder := place)
      else stories[id];
  }

  // -------------------------------------------------------------------------
  // What the new order is
  // -------------------------------------------------------------------------

  predicate OnBoard(stories: Stories, swimlanes: seq<int>) {
    forall id <- stories :: stories[id].swimlane.Some? ==> stories[id].swimlane.value in swimlanes
  }

  /** Where a story's swimlane stands on the board; the unclassified stories come before all swimlanes. */
  function Position(swimlanes: seq<int>, lane: Option<int>): nat {
    if lane.Some? && lane.value in swimlanes then 1 + IndexOf(swimlanes, lane.value) else 0
  }

  /**
   The order without any lists: by the position of the new swimlane, then the stories that were there before those that
   are moved there, then as before.
   */
  predicate Ahead(stories: Stories, swimlanes: seq<int>, deleted: int, target: int, a: StoryId, b: StoryId)
    requires a in stories && b in stories
  {
    var aMoves, bMoves := stories[a].swimlane == Some(deleted), stories[b].swimlane == Some(deleted);
    var p := Position(swimlanes, if aMoves then Some(target) else stories[a].swimlane);
    var q := Position(swimlanes, if bMoves then Some(target) else stories[b].swimlane);
    var m, n := stories[a].kanbanOrder, stories[b].kanbanOrder;
    p < q || (p == q && ((!aMoves && bMoves) || (aMoves == bMoves && (m < n || (m == n && a.n < b.n)))))
  }

  /** A target that is itself deleted leaves the stories of the deleted swimlane out. */
  predicate TakesPart(stories: Stories, deleted: int, target: int, id: StoryId)
    requires id in stories
  {
    target != deleted || stories[id].swimlane != Some(deleted)
  }

  ghost predicate Marshalled(stories: Stories, swimlanes: seq<int>, deleted: int, target: int, ids: seq<StoryId>) {
    (forall i :: 0 <= i < |ids| ==> ids[i] in stories) &&
    (forall i, j :: 0 <= i < j < |ids| ==> Ahead(stories, swimlanes, deleted, target, ids[i], ids[j]))
  }

  /** The queue of a swimlane is in order, and holds the stories whose new swimlane it is. */
  lemma QueueIsMarshalled(stories: Stories, swimlanes: seq<int>, deleted: int, target: int, i: nat)
    requires Distinct(swimlanes) && i < |swimlanes| && target in swimlanes
    ensures
      var queue := NewQueue(stories, swimlanes[i], deleted, target);
      Marshalled(stories, swimlanes, deleted, target, queue) &&
      forall id <- stories ::
        id in queue <==>
        TakesPart(stories, deleted, target, id) &&
        Position(swimlanes, NewLane(stories[id].swimlane, deleted, target)) == i + 1
  {
    hide Queue, IndexOf;
    IndexIs(swimlanes, i);
    var own, queue := Queue(stories, Some(swimlanes[i])), NewQueue(stories, swimlanes[i], deleted, target);
    forall k | 0 <= k < |queue|
      ensures queue[k] in stories &&
        stories[queue[k]].swimlane == if k < |own| then Some(swimlanes[i]) else Some(deleted)
    {
    }
  }

  /** The unclassified stories and those of the first few swimlanes are in order, and no others are among them. */
  lemma {:induction false} QueuesAreMarshalled(
      stories: Stories, swimlanes: seq<int>, deleted: int, target: int, n: nat)
    requires Distinct(swimlanes) && n <= |swimlanes| && target in swimlanes
    requires OnBoard(stories, swimlanes)
    ensures
      var ids := Queue(stories, None) + NewQueues(stories, swimlanes[..n], deleted, target);
      Marshalled(stories, swimlanes, deleted, target, ids) &&
      forall id <- stories ::
        id in ids <==>
        TakesPart(stories, deleted, target, id) &&
        Position(swimlanes, NewLane(stories[id].swimlane, deleted, target)) <= n
  {
    hide Queue, NewQueue, IndexOf, Ahead;
    if n == 0 {
      UnclassifiedComeFirst(stories, swimlanes, deleted, target);
    } else {
      QueuesAreMarshalled(stories, swimlanes, deleted, target, n - 1);
      QueueIsMarshalled(stories, swimlanes, deleted, target, n - 1);
      assert swimlanes[..n][..n - 1] == swimlanes[..n - 1];
      var earlier := Queue(stories, None) + NewQueues(stories, swimlanes[..n - 1], deleted, target);
      var queue := NewQueue(stories, swimlanes[n - 1], deleted, target);
      assert Queue(stories, None) + NewQueues(stories, swimlanes[..n], deleted, target) == earlier + queue;
      MarshalledConcat(stories, swimlanes, deleted, target, n - 1, earlier, queue);
    }
  }

  lemma UnclassifiedComeFirst(stories: Stories, swimlanes: seq<int>, deleted: int, target: int)
    requires target in swimlanes && OnBoard(stories, swimlanes)
    ensures Marshalled(stories, swimlanes, deleted, target, Queue(stories, None))
    ensures forall id <- stories ::
      id in Queue(stories, None) <==> Position(swimlanes, NewLane(stories[id].swimlane, deleted, target)) <= 0
  {
    hide Queue, IndexOf;
  }

  lemma MarshalledConcat(
      stories: Stories, swimlanes: seq<int>, deleted: int, target: int, n: nat, a: seq<StoryId>, b: seq<StoryId>)
    requires Marshalled(stories, swimlanes, deleted, target, a) && Marshalled(stories, swimlanes, deleted, target, b)
    requires forall id <- stories ::
      id in a ==> Position(swimlanes, NewLane(stories[id].swimlane, deleted, target)) <= n
    requires forall id <- stories ::
      id in b ==> Position(swimlanes, NewLane(stories[id].swimlane, deleted, target)) > n
    ensures Marshalled(stories, swimlanes, deleted, target, a + b)
  {
    hide Position;
    forall i, j | 0 <= i < |a| && 0 <= j < |b| ensures Ahead(stories, swimlanes, deleted, target, a[i], b[j]) {
      assert a[i] in a && b[j] in b;
    }
  }

  lemma {:induction false} FewerThan(ids: seq<StoryId>, keys: set<StoryId>)
    requires forall i :: 0 <= i < |ids| ==> ids[i] in keys
    requires forall i, j :: 0 <= i < j < |ids| ==> ids[i] != ids[j]
    ensures |ids| <= |keys|
  {
    if ids == [] {
    } else {
      FewerThan(ids[1..], keys - {ids[0]});
    }
  }

  lemma AheadIsStrict(stories: Stories, swimlanes: seq<int>, deleted: int, target: int, a: StoryId, b: StoryId)
    requires a in stories && b in stories && Ahead(stories, swimlanes, deleted, target, a, b)
    ensures a != b && !Ahead(stories, swimlanes, deleted, target, b, a)
  {
  }

  lemma NeverAheadOfItself(stories: Stories, swimlanes: seq<int>, deleted: int, target: int, a: StoryId)
    requires a in stories
    ensures !Ahead(stories, swimlanes, deleted, target, a, a)
  {
  }

  lemma AllAreArranged(stories: Stories, swimlanes: seq<int>, deleted: int, target: int)
    requires Distinct(swimlanes) && target in swimlanes && OnBoard(stories, swimlanes)
    ensures
      var ids := Arranged(stories, swimlanes, deleted, target);
      Marshalled(stories, swimlanes, deleted, target, ids) && |ids| <= |stories| &&
      forall id <- stories :: id in ids <==> TakesPart(stories, deleted, target, id)
  {
    hide Queue, NewQueues, Ahead, TakesPart;
    var ids := Arranged(stories, swimlanes, deleted, target);
    QueuesAreMarshalled(stories, swimlanes, deleted, target, |swimlanes|);
    assert swimlanes[..|swimlanes|] == swimlanes;
    forall i, j | 0 <= i < j < |ids| ensures ids[i] != ids[j] {
      AheadIsStrict(stories, swimlanes, deleted, target, ids[i], ids[j]);
    }
    FewerThan(ids, stories.Keys);
    assert |stories.Keys| == |stories|;
  }

  /**
   All stories of the project get different new orders, from zero up to their number: swimlane by swimlane as they
   stand on the board, the moved stories behind those that were there, and otherwise as before; nothing but order and
   swimlane changes. Only when the deleted swimlane is its own target are its stories left as they are.
   */
  lemma MovedOrder(stories: Stories, swimlanes: seq<int>, deleted: int, target: int, x: StoryId, y: StoryId)
    requires Distinct(swimlanes) && deleted in swimlanes && target in swimlanes
    requires OnBoard(stories, swimlanes) && x in stories && y in stories
    ensures
      var after := Moved(stories, swimlanes, deleted, target);
      after.Keys == stories.Keys &&
      (TakesPart(stories, deleted, target, x) ==>
        0 <= after[x].kanbanOrder < |stories| &&
        after[x].status == stories[x].status &&
        after[x].swimlane == if stories[x].swimlane == Some(deleted) then Some(target) else stories[x].swimlane) &&
      (TakesPart(stories, deleted, target, x) && TakesPart(stories, deleted, target, y) ==>
        (x != y ==> after[x].kanbanOrder != after[y].kanbanOrder) &&
        (after[x].kanbanOrder < after[y].kanbanOrder <==> Ahead(stories, swimlanes, deleted, target, x, y))) &&
      (!TakesPart(stories, deleted, target, x) ==> after[x] == stories[x])
  {
    hide Arranged, Ahead, TakesPart;
    var ids := Arranged(stories, swimlanes, deleted, target);
    AllAreArranged(stories, swimlanes, deleted, target);
    if x in ids && y in ids {
      var i, j := IndexOf(ids, x), IndexOf(ids, y);
      if j < i {
        AheadIsStrict(stories, swimlanes, deleted, target, y, x);
      } else if i == j {
        NeverAheadOfItself(stories, swimlanes, deleted, target, x);
      }
    }
  }

  /** What becomes of one story. */
  lemma MovedStory(stories: Stories, swimlanes: seq<int>, deleted: int, target: int, x: StoryId)
    requires Distinct(swimlanes) && target in swimlanes && OnBoard(stories, swimlanes) && x in stories
    ensures
      var after := Moved(stories, swimlanes, deleted, target);
      after.Keys == stories.Keys && after[x].status == stories[x].status &&
      after[x].swimlane == NewLane(stories[x].swimlane, deleted, target)
  {
    hide Arranged;
    AllAreArranged(stories, swimlanes, deleted, target);
  }

  // -------------------------------------------------------------------------
  // Stories of a deleted status
  // -------------------------------------------------------------------------

  /** The listed stories get the numbers from `base` on. */
  function Renumbered(stories: Stories, listed: seq<StoryId>, base: int): Stories {
    map id | id in stories ::
      if id in listed then stories[id].(kanbanOrder := base + IndexOf(listed, id)) else stories[id]
  }

  /** The pairs of the update statement are enumerated first. */
  method ResetKanbanOrder(stories: Stories, listed: seq<StoryId>, base: int) returns (r: Stories)
    requires Distinct(listed)
    ensures r == Renumbered(stories, listed, base)
  {
    var data: map<StoryId, int> := map[];
    for i := 0 to |listed|
      invariant data.Keys == set id | id in listed[..i]
      invariant forall id <- data :: data[id] == base + IndexOf(listed, id)
    {
      hide IndexOf, Distinct;
      IndexIs(listed, i);
      data := data[listed[i] := base + i];
    }
    assert listed[..|listed|] == listed;
    r := map id | id in stories :: if id in data then stories[id].(kanbanOrder := data[id]) else stories[id];
  }

  /** Sorting by the swimlane's order puts null last. */
  function PositionNullsLast(swimlanes: seq<int>, lane: Option<int>): nat {
    if lane.Some? && lane.value in swimlanes then IndexOf(swimlanes, lane.value) else |swimlanes|
  }

  predicate Earlier(stories: Stories, swimlanes: seq<int>, a: StoryId, b: StoryId)
    requires a in stories && b in stories
  {
    var p := PositionNullsLast(swimlanes, stories[a].swimlane);
    var q := PositionNullsLast(swimlanes, stories[b].swimlane);
    p < q || (p == q && stories[a].kanbanOrder < stories[b].kanbanOrder)
  }

  function StoriesWith(stories: Stories, status: int): set<StoryId> {
    set id | id in stories && stories[id].status == Some(status)
  }

  /** What the database may answer when asked for a status's stories sorted by swimlane and order; ties are free. */
  ghost predicate IsReading(stories: Stories, swimlanes: seq<int>, status: int, listed: seq<StoryId>) {
    Distinct(listed) &&
    (forall id :: id in listed <==> id in StoriesWith(stories, status)) &&
    forall i, j :: 0 <= i < j < |listed| ==>
      listed[i] in stories && listed[j] in stories && !Earlier(stories, swimlanes, listed[j], listed[i])
  }

  /**
   Whatever the database makes of ties, the stories of the status get different numbers from `base` on and stay in
   the order of swimlanes and of their old numbers; all other stories stay as they are.
   */
  lemma RenumberedOrder(
      stories: Stories, swimlanes: seq<int>, status: int, listed: seq<StoryId>, base: int, x: StoryId, y: StoryId)
    requires IsReading(stories, swimlanes, status, listed) && x in stories && y in stories
    ensures
      var after := Renumbered(stories, listed, base);
      after.Keys == stories.Keys &&
      after[x].swimlane == stories[x].swimlane && after[x].status == stories[x].status &&
      (stories[x].status != Some(status) ==> after[x] == stories[x]) &&
      (stories[x].status == Some(status) ==> base <= after[x].kanbanOrder < base + |stories|) &&
      (stories[x].status == stories[y].status == Some(status) ==>
        (x != y ==> after[x].kanbanOrder != after[y].kanbanOrder) &&
        (Earlier(stories, swimlanes, x, y) ==> after[x].kanbanOrder < after[y].kanbanOrder))
  {
    hide Earlier;
    assert x in listed <==> x in StoriesWith(stories, status);
    assert y in listed <==> y in StoriesWith(stories, status);
    forall i | 0 <= i < |listed| ensures listed[i] in stories.Keys {
      assert listed[i] in listed;
    }
    FewerThan(listed, stories.Keys);
    assert |stories.Keys| == |stories|;
    if x in listed && y in listed && x == y {
      NeverEarlierThanItself(stories, swimlanes, x);
    }
  }

  lemma NeverEarlierThanItself(stories: Stories, swimlanes: seq<int>, a: StoryId)
    requires a in stories
    ensures !Earlier(stories, swimlanes, a, a)
  {
  }
}
