/** Who may do what in a project: taiga/permissions/services.py and taiga/permissions/choices.py. */
module Permissions {
  import opened Wrappers

  type Permission = string

  const ANON_PERMISSIONS: set<Permission> := {
    "view_project", "view_milestones", "view_epics", "view_us", "view_tasks", "view_issues",
    "view_schedule", "view_gantt", "view_wiki_pages", "view_wiki_links"
  }

  const MEMBERS_PERMISSIONS: set<Permission> := {
    "view_project",
    "view_milestones", "add_milestone", "modify_milestone", "delete_milestone",
    "view_epics", "add_epic", "modify_epic", "comment_epic", "delete_epic",
    "view_us", "add_us", "modify_us", "comment_us", "delete_us",
    "view_tasks", "add_task", "modify_task", "comment_task", "delete_task",
    "view_issues", "add_issue", "modify_issue", "comment_issue", "delete_issue",
    "view_schedule", "view_gantt", "modify_schedule_links", "modify_schedule_dates",
    "modify_schedule_color", "modify_gantt_list_order",
    "view_wiki_pages", "add_wiki_page", "modify_wiki_page", "comment_wiki_page", "delete_wiki_page",
    "view_wiki_links", "add_wiki_link", "modify_wiki_link", "delete_wiki_link"
  }

  const ADMINS_PERMISSIONS: set<Permission> := {
    "modify_project", "delete_project", "add_member", "remove_member", "admin_project_values", "admin_roles"
  }

  datatype Viewer = Anonymous | User(id: int, isSuperuser: bool) {
    predicate Superuser() { User? && isSuperuser }
  }

  /** The permission columns may be null. */
  datatype Project = Project(
    isPrivate: bool, anonPermissions: Option<set<Permission>>, publicPermissions: Option<set<Permission>>)

  datatype Membership = Membership(isAdmin: bool, rolePermissions: Option<set<Permission>>)

  /** Memberships are unique per user and project. */
  type Memberships = map<(int, int), Membership>

  datatype World = World(projects: map<int, Project>, memberships: Memberships)

  function OrEmpty(permissions: Option<set<Permission>>): set<Permission> {
    if permissions.Some? then permissions.value else {}
  }

  /** A `__contains` lookup on a null column matches nothing. */
  predicate Holds(column: Option<set<Permission>>, perm: Permission) {
    column.Some? && perm in column.value
  }

  function CalculatePermissions(isAuthenticated: bool, isSuperuser: bool, isMember: bool, isAdmin: bool,
      rolePermissions: set<Permission>, anon: Option<set<Permission>>, public: Option<set<Permission>>)
    : set<Permission>
  {
    if isSuperuser then ADMINS_PERMISSIONS + MEMBERS_PERMISSIONS + ANON_PERMISSIONS
    else if isMember then
      (if isAdmin then ADMINS_PERMISSIONS + MEMBERS_PERMISSIONS else {}) +
      rolePermissions + OrEmpty(public) + OrEmpty(anon)
    else if isAuthenticated then OrEmpty(public) + OrEmpty(anon)
    else OrEmpty(anon)
  }

  function MembershipOf(memberships: Memberships, viewer: Viewer, project: int): Option<Membership> {
    if viewer.User? && (viewer.id, project) in memberships then Some(memberships[(viewer.id, project)]) else None
  }

  function UserProjectPermissions(world: World, viewer: Viewer, project: int): set<Permission>
    requires project in world.projects
  {
    var membership := MembershipOf(world.memberships, viewer, project);
    CalculatePermissions(
      viewer.User?, viewer.Superuser(), membership.Some?, membership.Some? && membership.value.isAdmin,
      if membership.Some? then OrEmpty(membership.value.rolePermissions) else {},
      world.projects[project].anonPermissions, world.projects[project].publicPermissions)
  }

  predicate UserHasPerm(world: World, viewer: Viewer, perm: Permission, project: Option<int>)
    requires project.Some? ==> project.value in world.projects
  {
    project.Some? && perm in UserProjectPermissions(world, viewer, project.value)
  }

  /**
   Private projects lose all base permissions; public ones keep theirs and gain the anonymous ones in both
   columns.
   */
  function WithBasePermissions(project: Project): Project {
    if project.isPrivate then Project(true, Some({}), Some({}))
    else Project(false, Some(OrEmpty(project.anonPermissions) + ANON_PERMISSIONS),
                        Some(OrEmpty(project.publicPermissions) + ANON_PERMISSIONS))
  }

  class ProjectRecord {
    var isPrivate: bool
    var anonPermissions: Option<set<Permission>>
    var publicPermissions: Option<set<Permission>>

    function Contents(): Project
      reads this
    {
      Project(isPrivate, anonPermissions, publicPermissions)
    }

    constructor (project: Project)
      ensures Contents() == project
    {
      isPrivate := project.isPrivate;
      anonPermissions, publicPermissions := project.anonPermissions, project.publicPermissions;
    }

    method SetBasePermissions()
      modifies this
      ensures Contents() == WithBasePermissions(old(Contents()))
      ensures isPrivate == old(isPrivate) && anonPermissions.Some? && publicPermissions.Some?
      ensures isPrivate ==> anonPermissions.value == publicPermissions.value == {}
      ensures !isPrivate ==> forall perm ::
        (Holds(anonPermissions, perm) <==> Holds(old(anonPermissions), perm) || perm in ANON_PERMISSIONS) &&
        (Holds(publicPermissions, perm) <==> Holds(old(publicPermissions), perm) || perm in ANON_PERMISSIONS)
    {
      hide ANON_PERMISSIONS;
      if isPrivate {
        anonPermissions := Some({});
        publicPermissions := Some({});
      } else {
        anonPermissions := Some(OrEmpty(anonPermissions) + ANON_PERMISSIONS);
        publicPermissions := Some(OrEmpty(publicPermissions) + ANON_PERMISSIONS);
      }
    }
  }

  // -------------------------------------------------------------------------
  // Theorems
  // -------------------------------------------------------------------------

  /** What a membership alone grants. */
  predicate MembershipGrants(membership: Option<Membership>, perm: Permission) {
    membership.Some? &&
    (Holds(membership.value.rolePermissions, perm) ||
     (membership.value.isAdmin && perm in ADMINS_PERMISSIONS + MEMBERS_PERMISSIONS))
  }

  /** The object check for every viewer and permission, said of the columns and the membership. */
  lemma HasPermIff(world: World, viewer: Viewer, perm: Permission, project: int)
    requires project in world.projects
    ensures UserHasPerm(world, viewer, perm, Some(project)) <==>
      if viewer.Superuser() then perm in ADMINS_PERMISSIONS + MEMBERS_PERMISSIONS + ANON_PERMISSIONS
      else
        Holds(world.projects[project].anonPermissions, perm) ||
        (viewer.User? && Holds(world.projects[project].publicPermissions, perm)) ||
        MembershipGrants(MembershipOf(world.memberships, viewer, project), perm)
    ensures !UserHasPerm(world, viewer, perm, None)
  {
    hide ANON_PERMISSIONS, MEMBERS_PERMISSIONS, ADMINS_PERMISSIONS;
  }

  /** What anyone may be let do: look. */
  predicate IsView(perm: Permission) {
    perm in ["view_project", "view_milestones", "view_epics", "view_us", "view_tasks", "view_issues",
             "view_schedule", "view_gantt", "view_wiki_pages", "view_wiki_links"]
  }

  /** What members may be let do besides. */
  predicate IsWork(perm: Permission) {
    perm in ["add_milestone", "modify_milestone", "delete_milestone"] ||
    perm in ["add_epic", "modify_epic", "comment_epic", "delete_epic"] ||
    perm in ["add_us", "modify_us", "comment_us", "delete_us"] ||
    perm in ["add_task", "modify_task", "comment_task", "delete_task"] ||
    perm in ["add_issue", "modify_issue", "comment_issue", "delete_issue"] ||
    perm in ["add_wiki_page", "modify_wiki_page", "comment_wiki_page", "delete_wiki_page"] ||
    perm in ["add_wiki_link", "modify_wiki_link", "delete_wiki_link"] ||
    perm in ["modify_schedule_links", "modify_schedule_dates", "modify_schedule_color", "modify_gantt_list_order"]
  }

  /** What only administrators and superusers may do. */
  predicate IsAdministration(perm: Permission) {
    perm in ["modify_project", "delete_project", "add_member", "remove_member", "admin_project_values", "admin_roles"]
  }

  lemma PermissionLists(perm: Permission)
    ensures perm in ANON_PERMISSIONS <==> IsView(perm)
    ensures perm in MEMBERS_PERMISSIONS <==> IsView(perm) || IsWork(perm)
    ensures perm in ADMINS_PERMISSIONS <==> IsAdministration(perm)
  {
  }

  /** Superusers may look, work and administrate everywhere, and nothing else that a column or role may hold. */
  lemma SuperuserHasPermIff(world: World, viewer: Viewer, perm: Permission, project: int)
    requires project in world.projects && viewer.Superuser()
    ensures UserHasPerm(world, viewer, perm, Some(project)) <==> IsView(perm) || IsWork(perm) || IsAdministration(perm)
  {
    PermissionLists(perm);
    HasPermIff(world, viewer, perm, project);
    hide *;
  }

  /** Administrators may do all that besides what columns and role grant. */
  lemma AdministratorHasPermIff(world: World, viewer: Viewer, perm: Permission, project: int)
    requires project in world.projects && viewer.User? && !viewer.isSuperuser
    requires (viewer.id, project) in world.memberships && world.memberships[(viewer.id, project)].isAdmin
    ensures UserHasPerm(world, viewer, perm, Some(project)) <==>
      IsView(perm) || IsWork(perm) || IsAdministration(perm) ||
      Holds(world.projects[project].anonPermissions, perm) || Holds(world.projects[project].publicPermissions, perm) ||
      Holds(world.memberships[(viewer.id, project)].rolePermissions, perm)
  {
    PermissionLists(perm);
    HasPermIff(world, viewer, perm, project);
    hide IsView, IsWork, IsAdministration, ANON_PERMISSIONS, MEMBERS_PERMISSIONS, ADMINS_PERMISSIONS, UserHasPerm;
  }

  /**
   What setting the base permissions of a project does to the object check, for every viewer and permission: a public
   project opens all anonymous permissions to everyone and takes nothing from anyone; a private one leaves everyone
   with what their own membership grants and superusers with everything.
   */
  lemma BasePermissionsDecide(
      before: World, after: World, viewer: Viewer, perm: Permission, project: int, columns: Project)
    requires before.memberships == after.memberships && project in before.projects && project in after.projects
    requires before.projects[project] == columns && after.projects[project] == WithBasePermissions(columns)
    ensures !columns.isPrivate ==>
      (UserHasPerm(after, viewer, perm, Some(project)) <==>
       UserHasPerm(before, viewer, perm, Some(project)) || perm in ANON_PERMISSIONS)
    ensures columns.isPrivate ==>
      (UserHasPerm(after, viewer, perm, Some(project)) <==>
       if viewer.Superuser() then UserHasPerm(before, viewer, perm, Some(project))
       else MembershipGrants(MembershipOf(before.memberships, viewer, project), perm))
  {
    hide ANON_PERMISSIONS, MEMBERS_PERMISSIONS, ADMINS_PERMISSIONS;
  }
}
