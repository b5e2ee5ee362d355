/**
 `Project.update_role_points` of taiga/projects/models.py: one row of points per user story and
 computable role, created and deleted so that a project's rows match its roles.
 */
module RolePoints {
  import opened Wrappers

  datatype RoleId = RoleId(n: int)

  datatype Role = Role(project: int, computable: bool)

  datatype Points = Points(id: int, project: int, value: Option<real>)

  /** Stories map to their project; the schema allows one row per story and role; points are in display order. */
  datatype Tables = Tables(roles: map<RoleId, Role>, stories: map<StoryId, int>, points: seq<Points>, rolePoints: Rows)

  type Rows = map<(StoryId, RoleId), Option<int>>

  function ComputableRoles(t: Tables, project: int): set<RoleId> {
    set role | role in t.roles && t.roles[role].project == project && t.roles[role].computable
  }

  function StoriesOf(t: Tables, project: int): set<StoryId> {
    set story | story in t.stories && t.stories[story] == project
  }

  predicate IsNullOf(p: Points, project: int) {
    p.project == project && p.value == None
  }

  /** The first null value of the project, if it has one. */
  function FirstNull(points: seq<Points>, project: int): (r: Option<int>)
    ensures r.Some? ==> exists i :: 0 <= i < |points| && IsFirstNull(points, project, i) && points[i].id == r.value
    ensures r.None? ==> forall p <- points :: !IsNullOf(p, project)
  {
    if points == [] then None
    else if IsNullOf(points[0], project) then
      assert IsFirstNull(points, project, 0);
      Some(points[0].id)
    else
      var r := FirstNull(points[1..], project);
      assert forall p <- points :: p == points[0] || p in points[1..];
      assert forall i :: 0 <= i < |points| - 1 && IsFirstNull(points[1..], project, i) ==>
        IsFirstNull(points, project, i + 1);
      r
  }

  predicate IsFirstNull(points: seq<Points>, project: int, i: nat)
    requires i < |points|
  {
    IsNullOf(points[i], project) && forall k :: 0 <= k < i ==> !IsNullOf(points[k], project)
  }

  function WithNull(points: seq<Points>, project: int, newId: int): (seq<Points>, int) {
    match FirstNull(points, project)
    case Some(id) => (points, id)
    case None => (points + [Points(newId, project, None)], newId)
  }

  function Pairs(stories: set<StoryId>, roles: set<RoleId>): (pairs: set<(StoryId, RoleId)>)
    ensures forall key :: key in pairs <==> key.0 in stories && key.1 in roles
  {
    var pairs := set story, role | story in stories && role in roles :: (story, role);
    assert forall key: (StoryId, RoleId) :: key.0 in stories && key.1 in roles ==> (key.0, key.1) in pairs;
    pairs
  }

  function WithMissing(rows: Rows, pairs: set<(StoryId, RoleId)>, nullId: int): Rows {
    map key | key in rows.Keys + pairs :: if key in rows then rows[key] else Some(nullId)
  }

  function WithoutStale(rows: Rows, stories: set<StoryId>, roles: set<RoleId>): Rows {
    map key | key in rows && (key.0 in stories ==> key.1 in roles) :: rows[key]
  }

  /**
   Rows for the missing roles of the given stories, then away with the rows of the project's stories whose role
   does not count.
   */
  function Reconcile(t: Tables, project: int, stories: set<StoryId>, newId: int): Tables {
    var roles := ComputableRoles(t, project);
    if roles == {} then t
    else
      var (points, nullId) := WithNull(t.points, project, newId);
      var rows := WithMissing(t.rolePoints, Pairs(stories, roles), nullId);
      t.(points := points, rolePoints := WithoutStale(rows, StoriesOf(t, project), roles))
  }

  class ProjectStore {
    var roles: map<RoleId, Role>
    var stories: map<StoryId, int>
    var points: seq<Points>
    var rolePoints: Rows

    function Contents(): Tables
      reads this
    {
      Tables(roles, stories, points, rolePoints)
    }

    constructor (t: Tables)
      ensures Contents() == t
    {
      roles, stories, points, rolePoints := t.roles, t.stories, t.points, t.rolePoints;
    }

    method UpdateRolePoints(project: int, userStories: Option<set<StoryId>>, newId: int)
      modifies this`points, this`rolePoints
      ensures Contents() ==
        Reconcile(old(Contents()), project,
                  if userStories.Some? then userStories.value else StoriesOf(old(Contents()), project), newId)
      ensures (forall role :: !Counts(old(Contents()), project, role)) ==> Contents() == old(Contents())
    {
      var counted := ComputableRoles(Contents(), project);
      assert forall role :: Counts(Contents(), project, role) <==> role in counted;
      if counted == {} {
        return;
      }
      var chosen := if userStories.Some? then userStories.value else StoriesOf(Contents(), project);
      var (newPoints, nullId) := WithNull(points, project, newId);
      points := newPoints;
      CreateMissing(chosen, counted, nullId);
      rolePoints := WithoutStale(rolePoints, StoriesOf(Contents(), project), counted);
    }

    /** The loop over stories: each turn creates the rows of one story for the roles it has none for. */
    method CreateMissing(chosen: set<StoryId>, counted: set<RoleId>, nullId: int)
      modifies this`rolePoints
      ensures rolePoints == WithMissing(old(rolePoints), Pairs(chosen, counted), nullId)
    {
      var rest := chosen;
      while rest != {}
        invariant rest <= chosen
        invariant rolePoints == WithMissing(old(rolePoints), Pairs(chosen - rest, counted), nullId)
        decreases rest
      {
        var story :| story in rest;
        var newRoles := set role | role in counted && (story, role) !in rolePoints;
        ghost var before := rolePoints;
        rolePoints := WithMissing(rolePoints, Pairs({story}, newRoles), nullId);
        assert rolePoints == WithMissing(before, Pairs({story}, counted), nullId);
        MissingOneMore(old(rolePoints), chosen - rest, story, counted, nullId);
        assert chosen - (rest - {story}) == chosen - rest + {story};
        rest := rest - {story};
      }
      assert chosen - rest == chosen;
    }
  }

  lemma MissingOneMore(rows: Rows, done: set<StoryId>, story: StoryId, roles: set<RoleId>, nullId: int)
    ensures WithMissing(WithMissing(rows, Pairs(done, roles), nullId), Pairs({story}, roles), nullId) ==
            WithMissing(rows, Pairs(done + {story}, roles), nullId)
  {
    hide Pairs;
  }

  // -------------------------------------------------------------------------
  // Theorems
  // -------------------------------------------------------------------------

  /** The role counts in the project. */
  predicate Counts(t: Tables, project: int, role: RoleId) {
    role in t.roles && t.roles[role].project == project && t.roles[role].computable
  }

  predicate IsStoryOf(t: Tables, project: int, story: StoryId) {
    story in t.stories && t.stories[story] == project
  }

  /**
   With a computable role, a story of the project has afterwards rows for computable roles only: one for each if it
   is among the chosen stories, and those it had otherwise. Rows that survive keep their points, new ones have the
   project's first null value, which is created iff there was none. Other projects' stories lose no rows, and get
   some only if they are chosen.
   */
  lemma ReconcileMatchesRoles(t: Tables, project: int, chosen: set<StoryId>, newId: int)
    requires exists role :: Counts(t, project, role)
    ensures
      var after := Reconcile(t, project, chosen, newId);
      after.roles == t.roles && after.stories == t.stories &&
      (forall story, role | IsStoryOf(t, project, story) ::
        (story, role) in after.rolePoints <==>
        Counts(t, project, role) && (story in chosen || (story, role) in t.rolePoints)) &&
      (forall key | key in after.rolePoints && key in t.rolePoints :: after.rolePoints[key] == t.rolePoints[key]) &&
      (forall key | key in after.rolePoints && key !in t.rolePoints ::
        exists i :: 0 <= i < |after.points| && IsFirstNull(after.points, project, i) &&
                    after.rolePoints[key] == Some(after.points[i].id)) &&
      (forall key: (StoryId, RoleId) | !IsStoryOf(t, project, key.0) ::
        key in after.rolePoints <==>
        key in t.rolePoints || (key.0 in chosen && Counts(t, project, key.1))) &&
      after.points ==
        if exists p <- t.points :: IsNullOf(p, project) then t.points else t.points + [Points(newId, project, None)]
  {
    var role :| Counts(t, project, role);
    assert role in ComputableRoles(t, project);
    var (points, nullId) := WithNull(t.points, project, newId);
    assert exists i :: 0 <= i < |points| && IsFirstNull(points, project, i) && points[i].id == nullId by {
      if FirstNull(t.points, project).None? {
        assert IsFirstNull(points, project, |t.points|);
      }
    }
  }

  /** Without a computable role nothing changes. */
  lemma NothingToReconcile(t: Tables, project: int, chosen: set<StoryId>, newId: int)
    requires forall role :: !Counts(t, project, role)
    ensures Reconcile(t, project, chosen, newId) == t
  {
    forall role ensures role !in ComputableRoles(t, project) {
      assert !Counts(t, project, role);
    }
  }

  /** A second call changes nothing, and a full call makes up for any partial one before it. */
  lemma ReconcileTwice(t: Tables, project: int, some: set<StoryId>, newId: int, otherId: int)
    requires some <= StoriesOf(t, project)
    ensures
      var all := StoriesOf(t, project);
      Reconcile(Reconcile(t, project, some, newId), project, all, otherId) == Reconcile(t, project, all, newId)
  {
    hide WithMissing, WithoutStale, Pairs, WithNull;
    var all, roles := StoriesOf(t, project), ComputableRoles(t, project);
    if roles != {} {
      var (points, nullId) := WithNull(t.points, project, newId);
      NullIsFoundAgain(t.points, project, newId, otherId);
      RowsTwice(t.rolePoints, some, all, roles, nullId);
    }
  }

  lemma RowsTwice(rows: Rows, some: set<StoryId>, all: set<StoryId>, roles: set<RoleId>, nullId: int)
    requires some <= all
    ensures
      var once := WithoutStale(WithMissing(rows, Pairs(some, roles), nullId), all, roles);
      WithoutStale(WithMissing(once, Pairs(all, roles), nullId), all, roles) ==
      WithoutStale(WithMissing(rows, Pairs(all, roles), nullId), all, roles)
  {
    hide Pairs;
  }

  lemma {:induction false} NullIsFoundAgain(points: seq<Points>, project: int, newId: int, otherId: int)
    ensures var (found, id) := WithNull(points, project, newId); WithNull(found, project, otherId) == (found, id)
  {
    if points == [] || IsNullOf(points[0], project) {
    } else {
      NullIsFoundAgain(points[1..], project, newId, otherId);
      var (found, _) := WithNull(points, project, newId);
      var (rest, _) := WithNull(points[1..], project, newId);
      assert found[1..] == rest;
    }
  }
}
