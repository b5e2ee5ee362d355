/**
 `filter_timeline_for_user` of taiga/timeline/service.py: one disjunction of clauses, accumulated in
 loops over content types and memberships, that selects the timeline rows a user may see; within a
 namespace, a query takes away the rows about related user stories the user may not see.
 */
module Timeline {
  import opened Wrappers
  import opened Permissions

  datatype Content =
    | ProjectContent | MilestoneContent | EpicContent | UserStoryContent | TaskContent | IssueContent
    | WikiPageContent | WikiLinkContent | MembershipContent | OtherContent(name: string)

  const CONTENT_TYPES: map<Permission, Content> := map[
    "view_project" := ProjectContent,
    "view_milestones" := MilestoneContent,
    "view_epics" := EpicContent,
    "view_us" := UserStoryContent,
    "view_tasks" := TaskContent,
    "view_issues" := IssueContent,
    "view_wiki_pages" := WikiPageContent,
    "view_wiki_links" := WikiLinkContent
  ]

  /** Rows about an epic's related user story name the project of that story, which may be any. */
  datatype Row = Row(
    id: int, project: Option<int>, content: Content,
    namespace: string, eventType: string, relatedStoryProject: Option<int>)

  const RELATED_STORY_EVENT := "epics.relateduserstory.create"

  datatype Clause =
    | InPublicProject
    | WithoutProject
    | InPrivateProjectHolding(perm: Permission, content: Content)
    | OfProject(project: int)
    | OfProjectWithContent(project: int, contents: set<Content>)

  /** Iterating over a role's null permission list is not caught. */
  datatype Crash = NullRolePermissions

  ghost predicate ForeignKeysHold(world: World, rows: set<Row>) {
    forall row <- rows :: row.project.Some? ==> row.project.value in world.projects
  }

  predicate Matches(world: World, clause: Clause, row: Row)
    requires row.project.Some? ==> row.project.value in world.projects
  {
    match clause
    case InPublicProject => row.project.Some? && !world.projects[row.project.value].isPrivate
    case WithoutProject => row.project.None?
    case InPrivateProjectHolding(perm, content) =>
      row.project.Some? && world.projects[row.project.value].isPrivate &&
      Holds(world.projects[row.project.value].anonPermissions, perm) && row.content == content
    case OfProject(project) => row.project == Some(project)
    case OfProjectWithContent(project, contents) => row.project == Some(project) && row.content in contents
  }

  predicate Selected(world: World, clauses: set<Clause>, row: Row)
    requires row.project.Some? ==> row.project.value in world.projects
  {
    exists clause <- clauses :: Matches(world, clause, row)
  }

  function ContentsFor(permissions: set<Permission>): set<Content> {
    (set perm | perm in permissions && perm in CONTENT_TYPES :: CONTENT_TYPES[perm]) + {MembershipContent}
  }

  /** The keys of a user's memberships. */
  function KeysOf(memberships: Memberships, userId: int): set<(int, int)> {
    set key | key in memberships && key.0 == userId
  }

  function MembershipClause(project: int, membership: Membership): Clause
    requires membership.isAdmin || membership.rolePermissions.Some?
  {
    if membership.isAdmin then OfProject(project)
    else OfProjectWithContent(project, ContentsFor(membership.rolePermissions.value))
  }

  predicate Readable(memberships: Memberships, userId: int) {
    forall key <- KeysOf(memberships, userId) :: memberships[key].isAdmin || memberships[key].rolePermissions.Some?
  }

  /** The query: what anyone may see, what anonymous permissions open up, and what each membership opens up. */
  function Query(world: World, viewer: Viewer): set<Clause>
    requires viewer.User? ==> Readable(world.memberships, viewer.id)
  {
    {InPublicProject, WithoutProject} +
    (set perm | perm in CONTENT_TYPES :: InPrivateProjectHolding(perm, CONTENT_TYPES[perm])) +
    {InPrivateProjectHolding("view_project", MembershipContent)} +
    (if viewer.Anonymous? then {}
     else set key | key in KeysOf(world.memberships, viewer.id) :: MembershipClause(key.1, world.memberships[key]))
  }

  // -------------------------------------------------------------------------
  // The query for rows about related user stories
  // -------------------------------------------------------------------------

  /** The truth values of SQL; a comparison with a null column is neither true nor false. */
  datatype Truth = Yes | No | Unknown {
    function Or(other: Truth): Truth {
      if this == Yes || other == Yes then Yes else if this == No && other == No then No else Unknown
    }

    function And(other: Truth): Truth {
      if this == No || other == No then No else if this == Yes && other == Yes then Yes else Unknown
    }

    function Not(): Truth {
      match this case Yes => No case No => Yes case Unknown => Unknown
    }
  }

  function TruthOf(b: bool): Truth {
    if b then Yes else No
  }

  /** `perm = ANY(column)` */
  function Any(column: Option<set<Permission>>, perm: Permission): Truth {
    if column.None? then Unknown else TruthOf(perm in column.value)
  }

  /** The id the query is asked for; -1 stands for nobody. */
  function AccessingId(viewer: Viewer): int {
    if viewer.User? && viewer.id != 0 then viewer.id else -1
  }

  function Allowed(world: World, viewer: Viewer, project: int): Truth
    requires project in world.projects
  {
    var id, columns := AccessingId(viewer), world.projects[project];
    var member :=
      (id, project) in world.memberships && Holds(world.memberships[(id, project)].rolePermissions, "view_us");
    Any(columns.anonPermissions, "view_us")
      .Or(Any(columns.publicPermissions, "view_us").And(TruthOf(id != -1)))
      .Or(TruthOf(member))
  }

  predicate Excluded(world: World, viewer: Viewer, namespace: string, row: Row) {
    row.namespace == namespace && row.eventType == RELATED_STORY_EVENT &&
    row.relatedStoryProject.Some? && row.relatedStoryProject.value in world.projects &&
    Allowed(world, viewer, row.relatedStoryProject.value).Not() == Yes
  }

  /** An empty namespace is no namespace. */
  predicate Kept(world: World, viewer: Viewer, namespace: Option<string>, row: Row) {
    namespace.Some? && namespace.value != "" ==> !Excluded(world, viewer, namespace.value, row)
  }

  // -------------------------------------------------------------------------
  // The filter as the source has it
  // -------------------------------------------------------------------------

  /** The loop over the user's memberships, which are iterated in no particular order. */
  method AddMembershipClauses(memberships: Memberships, userId: int, base: set<Clause>)
    returns (r: Result<set<Clause>, Crash>)
    ensures
      if Readable(memberships, userId)
      then
        r == Success(base + set key | key in KeysOf(memberships, userId) :: MembershipClause(key.1, memberships[key]))
      else r == Failure(NullRolePermissions)
  {
    var all := KeysOf(memberships, userId);
    var query, rest := base, all;
    while rest != {}
      invariant rest <= all
      invariant forall key <- all - rest :: memberships[key].isAdmin || memberships[key].rolePermissions.Some?
      invariant query == base + set key | key in all - rest :: MembershipClause(key.1, memberships[key])
      decreases rest
    {
      var key :| key in rest;
      var membership := memberships[key];
      if membership.isAdmin {
        query := query + {OfProject(key.1)};
      } else if membership.rolePermissions.None? {
        return Failure(NullRolePermissions);
      } else {
        query := query + {OfProjectWithContent(key.1, ContentsFor(membership.rolePermissions.value))};
      }
      rest := rest - {key};
    }
    assert all - rest == all;
    return Success(query);
  }

  method FilterTimelineForUser(world: World, viewer: Viewer, timeline: set<Row>, namespace: Option<string>)
    returns (r: Result<set<Row>, Crash>)
    requires ForeignKeysHold(world, timeline)
    ensures
      if viewer.Superuser() then r == Success(timeline)
      else if viewer.User? && !Readable(world.memberships, viewer.id) then r == Failure(NullRolePermissions)
      else
        r == Success(set row |
          row in timeline && Selected(world, Query(world, viewer), row) && Kept(world, viewer, namespace, row))
  {
    if viewer.Superuser() {
      return Success(timeline);
    }
    var query := {InPublicProject, WithoutProject};
    var perms := CONTENT_TYPES.Keys;
    while perms != {}
      invariant perms <= CONTENT_TYPES.Keys
      invariant query == {InPublicProject, WithoutProject} +
        set perm | perm in CONTENT_TYPES.Keys - perms :: InPrivateProjectHolding(perm, CONTENT_TYPES[perm])
      decreases perms
    {
      hide CONTENT_TYPES;
      var perm :| perm in perms;
      query := query + {InPrivateProjectHolding(perm, CONTENT_TYPES[perm])};
      perms := perms - {perm};
    }
    query := query + {InPrivateProjectHolding("view_project", MembershipContent)};
    if viewer.User? {
      var extended := AddMembershipClauses(world.memberships, viewer.id, query);
      if extended.Failure? {
        return Failure(extended.error);
      }
      query := extended.value;
    }
    assert query == Query(world, viewer);
    hide Query, Selected, Excluded;
    var shown := set row | row in timeline && Selected(world, query, row);
    if namespace.Some? && namespace.value != "" {
      shown := set row | row in shown && !Excluded(world, viewer, namespace.value, row);
    }
    assert shown == set row |
      row in timeline && Selected(world, Query(world, viewer), row) && Kept(world, viewer, namespace, row);
    return Success(shown);
  }

  // -------------------------------------------------------------------------
  // Theorems
  // -------------------------------------------------------------------------

  /** The permission that stands for a kind of content, if any does. */
  function ViewPermission(content: Content): Option<Permission> {
    match content
    case ProjectContent => Some("view_project")
    case MilestoneContent => Some("view_milestones")
    case EpicContent => Some("view_epics")
    case UserStoryContent => Some("view_us")
    case TaskContent => Some("view_tasks")
    case IssueContent => Some("view_issues")
    case WikiPageContent => Some("view_wiki_pages")
    case WikiLinkContent => Some("view_wiki_links")
    case MembershipContent => None
    case OtherContent(_) => None
  }

  predicate Guards(perm: Permission, content: Content) {
    ViewPermission(content) == Some(perm)
  }

  /** The table says the same, the other way round. */
  lemma TableIsViewPermission(perm: Permission, content: Content)
    ensures perm in CONTENT_TYPES && CONTENT_TYPES[perm] == content <==> Guards(perm, content)
  {
  }

  lemma MappedPermissionsAreBasic(perm: Permission, content: Content)
    requires Guards(perm, content)
    ensures perm in ANON_PERMISSIONS && perm in MEMBERS_PERMISSIONS && content != MembershipContent
    ensures perm in CONTENT_TYPES && CONTENT_TYPES[perm] == content
    ensures forall other <- CONTENT_TYPES :: CONTENT_TYPES[other] == content ==> other == perm
  {
    forall other <- CONTENT_TYPES {
      TableIsViewPermission(other, content);
    }
    TableIsViewPermission(perm, content);
  }

  lemma ContentsForGuarded(permissions: set<Permission>, perm: Permission, content: Content)
    requires Guards(perm, content)
    ensures content in ContentsFor(permissions) <==> perm in permissions
  {
    MappedPermissionsAreBasic(perm, content);
    hide CONTENT_TYPES;
    if perm in permissions {
      assert CONTENT_TYPES[perm] in ContentsFor(permissions);
    }
    if content in ContentsFor(permissions) {
      var other :| other in permissions && other in CONTENT_TYPES && CONTENT_TYPES[other] == content;
    }
  }

  /** Whether the timeline shows the row, for a viewer whose memberships can be read. */
  predicate Shown(world: World, viewer: Viewer, row: Row)
    requires row.project.Some? ==> row.project.value in world.projects
    requires viewer.User? ==> Readable(world.memberships, viewer.id)
  {
    viewer.Superuser() || Selected(world, Query(world, viewer), row)
  }

  /** What the loops' disjunction comes to on a row of a private project with mapped content. */
  lemma SelectedIff(world: World, viewer: Viewer, row: Row, perm: Permission)
    requires row.project.Some? && row.project.value in world.projects && world.projects[row.project.value].isPrivate
    requires Guards(perm, row.content) && (viewer.User? ==> Readable(world.memberships, viewer.id))
    ensures
      var membership := MembershipOf(world.memberships, viewer, row.project.value);
      Selected(world, Query(world, viewer), row) <==>
      Holds(world.projects[row.project.value].anonPermissions, perm) ||
      (membership.Some? && (membership.value.isAdmin || Holds(membership.value.rolePermissions, perm)))
  {
    MappedPermissionsAreBasic(perm, row.content);
    hide CONTENT_TYPES, ContentsFor, ANON_PERMISSIONS, MEMBERS_PERMISSIONS;
    var project := row.project.value;
    var query := Query(world, viewer);
    if Holds(world.projects[project].anonPermissions, perm) {
      assert InPrivateProjectHolding(perm, row.content) in query;
    }
    if viewer.User? && (viewer.id, project) in world.memberships {
      var membership := world.memberships[(viewer.id, project)];
      assert (viewer.id, project) in KeysOf(world.memberships, viewer.id);
      assert MembershipClause(project, membership) in query;
      if !membership.isAdmin {
        ContentsForGuarded(membership.rolePermissions.value, perm, row.content);
      }
    }
    forall clause <- query | Matches(world, clause, row)
      ensures clause == InPrivateProjectHolding(perm, row.content) ||
              (viewer.User? && (viewer.id, project) in world.memberships &&
               clause == MembershipClause(project, world.memberships[(viewer.id, project)]))
    {
      if clause.InPrivateProjectHolding? {
        assert clause.content == row.content && CONTENT_TYPES[clause.perm] == row.content;
      }
    }
  }

  /**
   On a row of a private project whose content has a permission of its own, the timeline shows the row iff
   the object check grants that permission, except to users who have it from public permissions alone.
   In particular it never shows a row that the object check would refuse.
   */
  lemma TimelineIsSound(world: World, viewer: Viewer, row: Row, perm: Permission)
    requires row.project.Some? && row.project.value in world.projects && world.projects[row.project.value].isPrivate
    requires Guards(perm, row.content) && (viewer.User? ==> Readable(world.memberships, viewer.id))
    ensures
      var project := world.projects[row.project.value];
      var membership := MembershipOf(world.memberships, viewer, row.project.value);
      var onlyPublicly :=
        viewer.User? && !viewer.isSuperuser &&
        Holds(project.publicPermissions, perm) && !Holds(project.anonPermissions, perm) &&
        !(membership.Some? && (membership.value.isAdmin || Holds(membership.value.rolePermissions, perm)));
      Shown(world, viewer, row) <==> UserHasPerm(world, viewer, perm, row.project) && !onlyPublicly
  {
    MappedPermissionsAreBasic(perm, row.content);
    SelectedIff(world, viewer, row, perm);
    hide CONTENT_TYPES, ANON_PERMISSIONS, MEMBERS_PERMISSIONS, ADMINS_PERMISSIONS, Selected, Query, Readable;
  }

  ghost predicate ShownAsPermitted(world: World, viewer: Viewer, row: Row, perm: Permission)
    requires row.project.Some? && row.project.value in world.projects
  {
    (viewer.User? ==> Readable(world.memberships, viewer.id)) ==>
    (Shown(world, viewer, row) <==> UserHasPerm(world, viewer, perm, row.project))
  }

  /**
   For a private project, timeline and object check agree for every viewer and every readable membership table
   iff the permission is not granted to registered users only: the mirror image of the condition for lists.
   */
  lemma TimelineIsExactIff(projects: map<int, Project>, row: Row, perm: Permission)
    requires row.project.Some? && row.project.value in projects && projects[row.project.value].isPrivate
    requires Guards(perm, row.content)
    ensures
      var project := projects[row.project.value];
      (forall memberships: Memberships, viewer: Viewer ::
        ShownAsPermitted(World(projects, memberships), viewer, row, perm)) <==>
      (Holds(project.publicPermissions, perm) ==> Holds(project.anonPermissions, perm))
  {
    hide Shown, UserHasPerm, Readable, CONTENT_TYPES;
    var project := projects[row.project.value];
    forall memberships: Memberships, viewer: Viewer
      ensures (Holds(project.publicPermissions, perm) ==> Holds(project.anonPermissions, perm)) ==>
        ShownAsPermitted(World(projects, memberships), viewer, row, perm)
    {
      if viewer.User? ==> Readable(memberships, viewer.id) {
        TimelineIsSound(World(projects, memberships), viewer, row, perm);
      }
    }
    if Holds(project.publicPermissions, perm) && !Holds(project.anonPermissions, perm) {
      var world, stranger := World(projects, map[]), User(0, false);
      StrangersReadNothing(stranger.id);
      TimelineIsSound(world, stranger, row, perm);
      PublicGrantReachesStrangers(world, stranger, perm, row.project.value);
      assert !ShownAsPermitted(World(projects, map[]), stranger, row, perm);
    }
  }

  lemma StrangersReadNothing(userId: int)
    ensures Readable(map[], userId)
  {
  }

  lemma PublicGrantReachesStrangers(world: World, viewer: Viewer, perm: Permission, project: int)
    requires project in world.projects && Holds(world.projects[project].publicPermissions, perm)
    requires viewer.User? && !viewer.isSuperuser && (viewer.id, project) !in world.memberships
    ensures UserHasPerm(world, viewer, perm, Some(project))
  {
  }

  /** A private project has no base permissions once they have been set, so its timeline is exact. */
  lemma BasePermissionsMakeTimelineExact(world: World, viewer: Viewer, row: Row, perm: Permission, before: Project)
    requires row.project.Some? && row.project.value in world.projects && before.isPrivate
    requires world.projects[row.project.value] == WithBasePermissions(before)
    requires Guards(perm, row.content) && (viewer.User? ==> Readable(world.memberships, viewer.id))
    ensures Shown(world, viewer, row) <==> UserHasPerm(world, viewer, perm, row.project)
  {
    hide Shown, UserHasPerm, Readable, CONTENT_TYPES, ANON_PERMISSIONS;
    TimelineIsSound(world, viewer, row, perm);
  }

  /**
   The rows without a permission of their own: everyone sees what belongs to no project or a public one; in a private
   project new memberships are for its members and for whoever may view the project anonymously, and any other
   content is for its administrators.
   */
  lemma OtherRowsShownIff(world: World, viewer: Viewer, row: Row)
    requires row.project.Some? ==> row.project.value in world.projects
    requires viewer.User? ==> Readable(world.memberships, viewer.id)
    ensures row.project.None? || !world.projects[row.project.value].isPrivate ==> Shown(world, viewer, row)
    ensures row.project.Some? && world.projects[row.project.value].isPrivate && row.content == MembershipContent ==>
      (Shown(world, viewer, row) <==>
        viewer.Superuser() || Holds(world.projects[row.project.value].anonPermissions, "view_project") ||
        MembershipOf(world.memberships, viewer, row.project.value).Some?)
    ensures row.project.Some? && world.projects[row.project.value].isPrivate && row.content.OtherContent? ==>
      (Shown(world, viewer, row) <==>
        viewer.Superuser() ||
        var membership := MembershipOf(world.memberships, viewer, row.project.value);
        membership.Some? && membership.value.isAdmin)
  {
    MappedContents();
    hide CONTENT_TYPES;
    var query := Query(world, viewer);
    assert InPublicProject in query && WithoutProject in query;
    assert InPrivateProjectHolding("view_project", MembershipContent) in query;
    if row.project.Some? && viewer.User? && (viewer.id, row.project.value) in world.memberships {
      var key := (viewer.id, row.project.value);
      assert key in KeysOf(world.memberships, viewer.id);
      assert MembershipClause(key.1, world.memberships[key]) in query;
    }
  }

  /** Anonymous, public or role permissions let the viewer see the stories of the project. */
  predicate StoriesGranted(world: World, viewer: Viewer, project: int)
    requires project in world.projects
  {
    var columns, membership := world.projects[project], MembershipOf(world.memberships, viewer, project);
    Holds(columns.anonPermissions, "view_us") || (viewer.User? && Holds(columns.publicPermissions, "view_us")) ||
    (membership.Some? && Holds(membership.value.rolePermissions, "view_us"))
  }

  /** No permission column that matters for the viewer is null. */
  predicate ColumnsSet(world: World, viewer: Viewer, project: int)
    requires project in world.projects
  {
    world.projects[project].anonPermissions.Some? &&
    (viewer.User? ==> world.projects[project].publicPermissions.Some?)
  }

  predicate Administers(world: World, viewer: Viewer, project: int) {
    var membership := MembershipOf(world.memberships, viewer, project);
    membership.Some? && membership.value.isAdmin
  }

  /** A row about a related story of a project that exists, in the namespace asked for. */
  predicate RelatedStoryRow(world: World, namespace: string, row: Row) {
    row.namespace == namespace && row.eventType == "epics.relateduserstory.create" &&
    row.relatedStoryProject.Some? && row.relatedStoryProject.value in world.projects
  }

  /** Ids come from a sequence that starts at 1; superusers never get as far as the query. */
  ghost predicate OrdinaryIds(world: World, viewer: Viewer) {
    !viewer.Superuser() && (viewer.User? ==> viewer.id > 0) && forall key <- world.memberships :: key.0 > 0
  }

  /**
   A row about a related story is taken away iff its project's permission columns are set and nothing grants viewing
   stories there. The object check besides lets administrators see them, and does not mind null columns.
   */
  lemma ExcludedIff(world: World, viewer: Viewer, namespace: string, row: Row)
    requires RelatedStoryRow(world, namespace, row) && OrdinaryIds(world, viewer)
    ensures
      var project := row.relatedStoryProject.value;
      (Excluded(world, viewer, namespace, row) <==>
        ColumnsSet(world, viewer, project) && !StoriesGranted(world, viewer, project)) &&
      (UserHasPerm(world, viewer, "view_us", Some(project)) <==>
        StoriesGranted(world, viewer, project) || Administers(world, viewer, project))
  {
    assert "view_us" in MEMBERS_PERMISSIONS;
    hide ANON_PERMISSIONS, MEMBERS_PERMISSIONS, ADMINS_PERMISSIONS;
    assert (-1, row.relatedStoryProject.value) !in world.memberships;
  }

  /** Nothing else is taken away, and nothing at all without a namespace or with an empty one. */
  lemma KeptIff(world: World, viewer: Viewer, namespace: Option<string>, row: Row)
    requires OrdinaryIds(world, viewer)
    ensures Kept(world, viewer, namespace, row) <==>
      (namespace.Some? && namespace.value != "" && RelatedStoryRow(world, namespace.value, row) ==>
        var project := row.relatedStoryProject.value;
        !ColumnsSet(world, viewer, project) || StoriesGranted(world, viewer, project))
  {
    hide Allowed, StoriesGranted, ColumnsSet;
    if namespace.Some? && RelatedStoryRow(world, namespace.value, row) {
      ExcludedIff(world, viewer, namespace.value, row);
    }
  }

  /**
   So the query takes away just what the object check refuses iff something grants viewing stories, or the viewer is
   an administrator of the project exactly when one of its columns is null.
   */
  lemma ExclusionIsExactIff(world: World, viewer: Viewer, namespace: string, row: Row)
    requires RelatedStoryRow(world, namespace, row) && OrdinaryIds(world, viewer)
    ensures
      var project := row.relatedStoryProject.value;
      (Excluded(world, viewer, namespace, row) <==> !UserHasPerm(world, viewer, "view_us", Some(project))) <==>
      (StoriesGranted(world, viewer, project) ||
       (Administers(world, viewer, project) <==> !ColumnsSet(world, viewer, project)))
  {
    hide *;
    ExcludedIff(world, viewer, namespace, row);
  }

  /** An administrator whose role cannot view stories loses a row that the object check would show. */
  lemma AdministratorLosesRow(namespace: string)
    ensures
      var world := World(map[1 := Project(true, Some({}), Some({}))], map[(1, 1) := Membership(true, Some({}))]);
      var row := Row(1, Some(1), EpicContent, namespace, "epics.relateduserstory.create", Some(1));
      Excluded(world, User(1, false), namespace, row) && UserHasPerm(world, User(1, false), "view_us", Some(1))
  {
    var world := World(map[1 := Project(true, Some({}), Some({}))], map[(1, 1) := Membership(true, Some({}))]);
    var row := Row(1, Some(1), EpicContent, namespace, "epics.relateduserstory.create", Some(1));
    ExcludedIff(world, User(1, false), namespace, row);
  }

  /** With null columns a stranger keeps a row that the object check would refuse. */
  lemma NullColumnsKeepRow(namespace: string)
    ensures
      var world := World(map[1 := Project(true, None, None)], map[]);
      var row := Row(1, Some(1), EpicContent, namespace, "epics.relateduserstory.create", Some(1));
      !Excluded(world, User(1, false), namespace, row) && !UserHasPerm(world, User(1, false), "view_us", Some(1))
  {
    var world := World(map[1 := Project(true, None, None)], map[]);
    var row := Row(1, Some(1), EpicContent, namespace, "epics.relateduserstory.create", Some(1));
    ExcludedIff(world, User(1, false), namespace, row);
  }

  lemma MappedContents()
    ensures forall perm <- CONTENT_TYPES ::
      !CONTENT_TYPES[perm].OtherContent? && CONTENT_TYPES[perm] != MembershipContent
  {
  }
}
