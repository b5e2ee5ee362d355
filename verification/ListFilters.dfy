/**
 `PermissionBasedFilterBackend.filter_queryset` of taiga/base/filters.py: the set of rows a list
 endpoint shows, built from memberships in one query, against the check made on a single object.
 */
module ListFilters {
  import opened Wrappers
  import opened Permissions

  datatype Row = Row(id: int, project: int)

  /** The `project` query parameter of a view that filters by it. */
  datatype ProjectParam = Absent | Integer(n: int) | NotAnInteger

  datatype BadRequest = ProjectMustBeAnInteger

  ghost predicate ForeignKeysHold(world: World, rows: set<Row>) {
    forall row <- rows :: row.project in world.projects
  }

  /** The projects in which the viewer's own membership grants the permission; zero does not narrow the query. */
  function GrantingProjects(world: World, userId: int, perm: Permission, narrowTo: Option<int>): set<int> {
    set key |
      key in world.memberships && key.0 == userId &&
      (narrowTo.Some? && narrowTo.value != 0 ==> key.1 == narrowTo.value) &&
      (Holds(world.memberships[key].rolePermissions, perm) || world.memberships[key].isAdmin) :: key.1
  }

  function PermissionFilter(world: World, viewer: Viewer, perm: Permission, narrowTo: Option<int>, rows: set<Row>)
    : set<Row>
    requires ForeignKeysHold(world, rows)
  {
    match viewer
    case Anonymous => set row | row in rows && Holds(world.projects[row.project].anonPermissions, perm)
    case User(id, isSuperuser) =>
      if isSuperuser then rows
      else
        var granting := GrantingProjects(world, id, perm, narrowTo);
        set row | row in rows && (row.project in granting || Holds(world.projects[row.project].publicPermissions, perm))
  }

  /**
   The permission filter, then the parameter filters: by project if asked for, and by whatever else the view
   filters on.
   */
  function FilterQueryset(world: World, viewer: Viewer, perm: Permission, param: ProjectParam, rest: Row -> bool,
      rows: set<Row>): Result<set<Row>, BadRequest>
    requires ForeignKeysHold(world, rows)
  {
    match param
    case NotAnInteger => Failure(ProjectMustBeAnInteger)
    case Absent => Success(set row | row in PermissionFilter(world, viewer, perm, None, rows) && rest(row))
    case Integer(n) =>
      Success(set row | row in PermissionFilter(world, viewer, perm, Some(n), rows) && row.project == n && rest(row))
  }

  // -------------------------------------------------------------------------
  // Theorems
  // -------------------------------------------------------------------------

  /** A user has the permission in the project from its anonymous permissions and from nothing else. */
  predicate OnlyAnonymously(world: World, viewer: Viewer, perm: Permission, project: int)
    requires project in world.projects
  {
    var columns, membership := world.projects[project], MembershipOf(world.memberships, viewer, project);
    viewer.User? && !viewer.isSuperuser &&
    Holds(columns.anonPermissions, perm) && !Holds(columns.publicPermissions, perm) &&
    !(membership.Some? && (membership.value.isAdmin || Holds(membership.value.rolePermissions, perm)))
  }

  /**
   The permissions of the filter classes are permissions to view something. Which viewers see a row, in one formula:
   the object check, less what an authenticated viewer would get from anonymous permissions alone.
   */
  lemma ShownIff(world: World, viewer: Viewer, perm: Permission, rows: set<Row>, row: Row)
    requires ForeignKeysHold(world, rows) && row in rows && IsView(perm)
    ensures
      row in PermissionFilter(world, viewer, perm, None, rows) <==>
      UserHasPerm(world, viewer, perm, Some(row.project)) && !OnlyAnonymously(world, viewer, perm, row.project)
  {
    PermissionLists(perm);
    hide IsView, ANON_PERMISSIONS, MEMBERS_PERMISSIONS, ADMINS_PERMISSIONS;
    assert perm in ANON_PERMISSIONS && perm in MEMBERS_PERMISSIONS;
    if viewer.User? {
      var key := (viewer.id, row.project);
      var granting := GrantingProjects(world, viewer.id, perm, None);
      if
        key in world.memberships &&
        (Holds(world.memberships[key].rolePermissions, perm) || world.memberships[key].isAdmin)
      {
        assert key.1 in granting;
      }
    }
  }

  /** Narrowing the memberships to the requested project never changes what is listed. */
  lemma NarrowingIsHarmless(world: World, viewer: Viewer, perm: Permission, n: int, rest: Row -> bool, rows: set<Row>)
    requires ForeignKeysHold(world, rows)
    ensures
      FilterQueryset(world, viewer, perm, Integer(n), rest, rows) ==
      Success(set row | row in FilterQueryset(world, viewer, perm, Absent, rest, rows).value && row.project == n)
  {
    var narrow := PermissionFilter(world, viewer, perm, Some(n), rows);
    var wide := PermissionFilter(world, viewer, perm, None, rows);
    forall row: Row | row.project == n ensures row in narrow <==> row in wide {
      if viewer.User? && row in rows {
        var key := (viewer.id, n);
        assert key in world.memberships ==> key.1 == n;
        var narrowed := GrantingProjects(world, viewer.id, perm, Some(n));
        assert n in narrowed <==> n in GrantingProjects(world, viewer.id, perm, None);
      }
    }
    var shown := FilterQueryset(world, viewer, perm, Integer(n), rest, rows).value;
    assert shown == set row | row in FilterQueryset(world, viewer, perm, Absent, rest, rows).value && row.project == n;
  }

  /** Nothing is listed that the viewer may not see one by one, and the parameters only ever take rows away. */
  lemma ListingIsSound(
      world: World, viewer: Viewer, perm: Permission, param: ProjectParam, rest: Row -> bool, rows: set<Row>)
    requires ForeignKeysHold(world, rows) && IsView(perm)
    ensures FilterQueryset(world, viewer, perm, param, rest, rows).Failure? <==> param == NotAnInteger
    ensures param != NotAnInteger ==>
      forall row <- FilterQueryset(world, viewer, perm, param, rest, rows).value ::
        row in rows && rest(row) && UserHasPerm(world, viewer, perm, Some(row.project)) &&
        (param.Integer? ==> row.project == param.n)
  {
    hide IsView, UserHasPerm;
    if param.Integer? {
      NarrowingIsHarmless(world, viewer, perm, param.n, rest, rows);
    }
    forall row <- rows {
      ShownIff(world, viewer, perm, rows, row);
    }
  }

  /** A row is listed iff it passes the parameters and that formula. */
  lemma ListedIff(
      world: World, viewer: Viewer, perm: Permission, param: ProjectParam, rest: Row -> bool, rows: set<Row>, row: Row)
    requires ForeignKeysHold(world, rows) && IsView(perm) && row in rows && param != NotAnInteger
    ensures row in FilterQueryset(world, viewer, perm, param, rest, rows).value <==>
      rest(row) && (param.Integer? ==> row.project == param.n) &&
      UserHasPerm(world, viewer, perm, Some(row.project)) && !OnlyAnonymously(world, viewer, perm, row.project)
  {
    hide IsView, UserHasPerm, OnlyAnonymously;
    ShownIff(world, viewer, perm, rows, row);
    if param.Integer? {
      NarrowingIsHarmless(world, viewer, perm, param.n, rest, rows);
    }
  }

  ghost predicate ShownAsPermitted(world: World, viewer: Viewer, perm: Permission, rows: set<Row>, row: Row)
    requires ForeignKeysHold(world, rows) && row in rows
  {
    row in PermissionFilter(world, viewer, perm, None, rows) <==> UserHasPerm(world, viewer, perm, Some(row.project))
  }

  /**
   For a row of a given project, list and object check agree for every viewer and every membership table
   iff the permission is not granted to anonymous users only.
   */
  lemma ListingIsExactIff(projects: map<int, Project>, perm: Permission, rows: set<Row>, row: Row)
    requires ForeignKeysHold(World(projects, map[]), rows) && row in rows && IsView(perm)
    ensures
      (forall memberships: Memberships, viewer: Viewer ::
        ShownAsPermitted(World(projects, memberships), viewer, perm, rows, row)) <==>
      (Holds(projects[row.project].anonPermissions, perm) ==> Holds(projects[row.project].publicPermissions, perm))
  {
    hide IsView, PermissionFilter, UserHasPerm;
    forall memberships: Memberships, viewer: Viewer
      ensures
        (Holds(projects[row.project].anonPermissions, perm) ==>
         Holds(projects[row.project].publicPermissions, perm)) ==>
        ShownAsPermitted(World(projects, memberships), viewer, perm, rows, row)
    {
      ShownIff(World(projects, memberships), viewer, perm, rows, row);
    }
    var stranger := User(0, false);
    var world := World(projects, map[]);
    if Holds(projects[row.project].anonPermissions, perm) && !Holds(projects[row.project].publicPermissions, perm) {
      ShownIff(world, stranger, perm, rows, row);
      AnonymousGrantReachesStrangers(world, stranger, perm, row.project);
      assert !ShownAsPermitted(World(projects, map[]), stranger, perm, rows, row);
    }
  }

  lemma AnonymousGrantReachesStrangers(world: World, viewer: Viewer, perm: Permission, project: int)
    requires project in world.projects && Holds(world.projects[project].anonPermissions, perm)
    requires viewer.User? && !viewer.isSuperuser && (viewer.id, project) !in world.memberships
    ensures UserHasPerm(world, viewer, perm, Some(project))
  {
  }

  /**
   Once every project has had its base permissions set, a list shows exactly the rows the viewer has the
   permission for.
   */
  lemma BasePermissionsMakeListingExact(
      world: World, viewer: Viewer, perm: Permission, rest: Row -> bool, rows: set<Row>, before: map<int, Project>)
    requires ForeignKeysHold(world, rows) && IsView(perm)
    requires before.Keys == world.projects.Keys
    requires forall p <- before :: world.projects[p] == WithBasePermissions(before[p])
    ensures
      FilterQueryset(world, viewer, perm, Absent, rest, rows) ==
      Success(set row | row in rows && UserHasPerm(world, viewer, perm, Some(row.project)) && rest(row))
  {
    assert perm in ANON_PERMISSIONS by { PermissionLists(perm); }
    hide IsView, ANON_PERMISSIONS, UserHasPerm, PermissionFilter;
    forall row <- rows
      ensures row in PermissionFilter(world, viewer, perm, None, rows) <==>
        UserHasPerm(world, viewer, perm, Some(row.project))
    {
      ShownIff(world, viewer, perm, rows, row);
      assert world.projects[row.project] == WithBasePermissions(before[row.project]);
    }
    FilteredAreRows(world, viewer, perm, rows);
    assert FilterQueryset(world, viewer, perm, Absent, rest, rows).value ==
      set row | row in rows && UserHasPerm(world, viewer, perm, Some(row.project)) && rest(row);
  }

  lemma FilteredAreRows(world: World, viewer: Viewer, perm: Permission, rows: set<Row>)
    requires ForeignKeysHold(world, rows)
    ensures PermissionFilter(world, viewer, perm, None, rows) <= rows
  {
  }
}
