/**
 Making a template from a project and a project from a template: `load_data_from_project` and
 `apply_to_project` of taiga/projects/models.py, and `project_post_save` of taiga/projects/signals.py.

 Each choice list of a project is one family of rows. Reading a list sorts it as the model's Meta
 says; saving a status computes its slug anew. The database's collation of names and the slug
 generator are parameters.
 */
module ProjectTemplates {
  import opened Wrappers

  datatype Family =
    | EpicStatuses | UsStatuses | UsDuedates | PointValues | TaskStatuses | TaskDuedates
    | IssueStatuses | IssueTypes | IssueDuedates | Priorities | Severities | Roles
    | EpicAttributes | UsAttributes | TaskAttributes | IssueAttributes

  const CHOICES: seq<Family> := [
    EpicStatuses, UsStatuses, UsDuedates, PointValues, TaskStatuses, TaskDuedates,
    IssueStatuses, IssueTypes, IssueDuedates, Priorities, Severities, Roles
  ]

  const ATTRIBUTES: seq<Family> := [EpicAttributes, UsAttributes, TaskAttributes, IssueAttributes]

  /** The families a project has a default in, in the order in which defaults are looked up. */
  const DEFAULTED: seq<Family> := [
    EpicStatuses, UsStatuses, PointValues, TaskStatuses, IssueStatuses, IssueTypes, Priorities, Severities
  ]

  datatype Choice =
    | Status(name: string, slug: string, order: int, isClosed: bool, color: string)
    | StoryStatus(name: string, slug: string, order: int, isClosed: bool, color: string,
                  isArchived: bool, wipLimit: Option<int>)
    | DueDate(name: string, order: int, byDefault: bool, color: string, daysToDue: Option<int>)
    | PointValue(name: string, order: int, points: Option<real>)
    | Label(name: string, order: int, color: string)
    | Role(name: string, slug: string, order: int, permissions: Option<seq<string>>, computable: bool)
    | Attribute(name: string, order: int, description: string, kind: string)

  datatype Modules = Modules(
    isContactActivated: bool, isEpicsActivated: bool, isBacklogActivated: bool, isKanbanActivated: bool,
    isScheduleActivated: bool, isWikiActivated: bool, isIssuesActivated: bool,
    videoconferences: Option<string>, videoconferencesExtraData: Option<string>)

  datatype Profile = Profile(
    tags: seq<string>, tagsColors: seq<(string, string)>, isLookingForPeople: bool, lookingForPeopleNote: string)

  type Lists = map<Family, seq<Choice>>

  type Defaults = map<Family, Option<string>>

  /**
   A project's rows in the order they were created. Defaults are the names of the rows they point to, which may be
   rows of another project; names are unique within a list. `ownerRole` is the slug of the role in the owner's
   membership, if there is one; it may belong to another project as well.
   */
  datatype Project = Project(
    modules: Modules, profile: Profile, lists: Lists, defaults: Defaults,
    creationTemplate: Option<int>, ownerRole: Option<string>)

  datatype Template = Template(
    modules: Modules, profile: Profile, lists: Lists, defaultOptions: Defaults, defaultOwnerRole: string)

  /** Two failures are not caught: taking the first of no roles, and looking up a default by a name no row has. */
  datatype Crash = NoRoles | DoesNotExist(family: Family)

  datatype Site = Site(collates: (string, string) -> bool, slugify: (string, seq<string>) -> string)

  ghost predicate StrictTotalOrder(lt: (string, string) -> bool) {
    (forall a :: !lt(a, a)) &&
    (forall a, b :: lt(a, b) || lt(b, a) || a == b) &&
    (forall a, b, c :: lt(a, b) && lt(b, c) ==> lt(a, c))
  }

  function RowsOf(lists: Lists, family: Family): seq<Choice> {
    if family in lists then lists[family] else []
  }

  function DefaultOf(defaults: Defaults, family: Family): Option<string> {
    if family in defaults then defaults[family] else None
  }

  // -------------------------------------------------------------------------
  // Ordering
  // -------------------------------------------------------------------------

  /** Lists are ordered by order and name; roles by order and slug. */
  function SecondKey(c: Choice): string {
    if c.Role? then c.slug else c.name
  }

  predicate Before(site: Site, a: Choice, b: Choice) {
    a.order < b.order || (a.order == b.order && site.collates(SecondKey(a), SecondKey(b)))
  }

  function Insert(site: Site, c: Choice, sorted: seq<Choice>): seq<Choice> {
    if sorted == [] || Before(site, c, sorted[0]) then [c] + sorted
    else [sorted[0]] + Insert(site, c, sorted[1..])
  }

  function Sorted(site: Site, rows: seq<Choice>): seq<Choice> {
    if rows == [] then [] else Insert(site, rows[0], Sorted(site, rows[1..]))
  }

  predicate StrictlySorted(site: Site, rows: seq<Choice>) {
    forall i, j :: 0 <= i < j < |rows| ==> Before(site, rows[i], rows[j])
  }

  /** No two rows of a list share what the schema makes unique and the ordering ends with. */
  predicate DistinctKeys(rows: seq<Choice>) {
    forall i, j :: 0 <= i < j < |rows| ==> SecondKey(rows[i]) != SecondKey(rows[j])
  }

  // -------------------------------------------------------------------------
  // Saving rows
  // -------------------------------------------------------------------------

  function Slugs(rows: seq<Choice>): seq<string> {
    if rows == [] then []
    else
      var last := rows[|rows| - 1];
      Slugs(rows[..|rows| - 1]) + (if last.Status? || last.StoryStatus? || last.Role? then [last.slug] else [])
  }

  function WithSlug(c: Choice, slug: string): Choice {
    match c
    case Status(name, _, order, isClosed, color) => Status(name, slug, order, isClosed, color)
    case StoryStatus(name, _, order, isClosed, color, isArchived, wipLimit) =>
      StoryStatus(name, slug, order, isClosed, color, isArchived, wipLimit)
    case Role(name, _, order, permissions, computable) => Role(name, slug, order, permissions, computable)
    case _ => c
  }

  /** Statuses always get a new slug when they are saved, roles only if they have none. */
  function Saved(site: Site, c: Choice, existing: seq<Choice>): Choice {
    if c.Status? || c.StoryStatus? || (c.Role? && c.slug == "")
    then WithSlug(c, site.slugify(c.name, Slugs(existing)))
    else c
  }

  function CreateAll(site: Site, existing: seq<Choice>, wanted: seq<Choice>): seq<Choice> {
    if wanted == [] then existing
    else
      var earlier := CreateAll(site, existing, wanted[..|wanted| - 1]);
      earlier + [Saved(site, wanted[|wanted| - 1], earlier)]
  }

  // -------------------------------------------------------------------------
  // The two operations as functions
  // -------------------------------------------------------------------------

  function ReadLists(site: Site, families: seq<Family>, stored: Lists): Lists {
    map family | family in families :: Sorted(site, RowsOf(stored, family))
  }

  function Load(site: Site, p: Project): Result<Template, Crash> {
    var lists := ReadLists(site, CHOICES + ATTRIBUTES, p.lists);
    var roles := RowsOf(lists, Roles);
    if p.ownerRole.None? && roles == [] then Failure(NoRoles)
    else
      Success(Template(p.modules, p.profile, lists,
                       map family | family in DEFAULTED :: DefaultOf(p.defaults, family),
                       if p.ownerRole.Some? then p.ownerRole.value else SecondKey(roles[0])))
  }

  predicate HasName(rows: seq<Choice>, name: string) {
    exists i :: 0 <= i < |rows| && rows[i].name == name
  }

  predicate HasKey(rows: seq<Choice>, key: string) {
    exists i :: 0 <= i < |rows| && SecondKey(rows[i]) == key
  }

  /**
   Whether the default of a family can be looked up among the rows; there is nothing to look up in an empty
   list.
   */
  predicate DefaultFound(t: Template, created: Lists, family: Family) {
    var name := DefaultOf(t.defaultOptions, family);
    RowsOf(t.lists, family) == [] || (name.Some? && HasName(RowsOf(created, family), name.value))
  }

  /** How many of the lookups go well before the first that does not. */
  function FoundDefaults(t: Template, created: Lists, families: seq<Family>): (n: nat)
    ensures n <= |families|
    ensures forall i :: 0 <= i < n ==> DefaultFound(t, created, families[i])
    ensures n < |families| ==> !DefaultFound(t, created, families[n])
  {
    if families == [] || !DefaultFound(t, created, families[0]) then 0
    else 1 + FoundDefaults(t, created, families[1..])
  }

  function CreateLists(site: Site, families: seq<Family>, wanted: Lists, existing: Lists): Lists {
    map family | family in families :: CreateAll(site, RowsOf(existing, family), RowsOf(wanted, family))
  }

  function WithDefault(t: Template, defaults: Defaults, family: Family): Defaults {
    if RowsOf(t.lists, family) == [] then defaults else defaults[family := DefaultOf(t.defaultOptions, family)]
  }

  function AssignDefaults(t: Template, families: seq<Family>, defaults: Defaults): Defaults {
    if families == [] then defaults
    else WithDefault(t, AssignDefaults(t, families[..|families| - 1], defaults), families[|families| - 1])
  }

  /**
   Modules first, then the choice lists, then the defaults one by one, then the attributes and the profile. A failed
   lookup of a default leaves behind all that came before it.
   */
  function Apply(site: Site, id: int, t: Template, p: Project): (Project, Option<Crash>) {
    var choices := CreateLists(site, CHOICES, t.lists, p.lists);
    var found := FoundDefaults(t, p.lists + choices, DEFAULTED);
    var begun := Project(t.modules, p.profile, p.lists + choices,
                         AssignDefaults(t, DEFAULTED[..found], p.defaults), Some(id), p.ownerRole);
    if found < |DEFAULTED| then (begun, Some(DoesNotExist(DEFAULTED[found])))
    else
      var attributes := CreateLists(site, ATTRIBUTES, t.lists, p.lists);
      (begun.(lists := begun.lists + attributes, profile := t.profile), None)
  }

  /** A new project's own tags take the place of the template's. */
  function WithTagsOf(t: Template, p: Project): Template {
    var profile := t.profile
      .(tags := if p.profile.tags != [] then p.profile.tags else t.profile.tags)
      .(tagsColors := if p.profile.tagsColors != [] then p.profile.tagsColors else t.profile.tagsColors);
    t.(profile := profile)
  }

  /** The role in the new owner's membership: the one wanted, or else the project's first. */
  function OwnerRole(site: Site, wanted: string, p: Project): Option<string> {
    var roles := RowsOf(p.lists, Roles);
    if HasKey(roles, wanted) then Some(wanted)
    else
      var sorted := Sorted(site, roles);
      if sorted == [] then None else Some(SecondKey(sorted[0]))
  }

  /** What saving a new project makes of it. */
  function Create(site: Site, id: int, t: Template, p: Project): (Project, Option<Crash>) {
    var (applied, crash) := Apply(site, id, WithTagsOf(t, p), p);
    if crash.Some? then (applied, crash)
    else (applied.(ownerRole := OwnerRole(site, t.defaultOwnerRole, applied)), None)
  }

  // -------------------------------------------------------------------------
  // The two operations as the source has them
  // -------------------------------------------------------------------------

  class ProjectRecord {
    var modules: Modules
    var profile: Profile
    var lists: Lists
    var defaults: Defaults
    var creationTemplate: Option<int>
    var ownerRole: Option<string>

    function Contents(): Project
      reads this
    {
      Project(modules, profile, lists, defaults, creationTemplate, ownerRole)
    }

    constructor (p: Project)
      ensures Contents() == p
    {
      modules, profile, lists, defaults := p.modules, p.profile, p.lists, p.defaults;
      creationTemplate, ownerRole := p.creationTemplate, p.ownerRole;
    }

    /** The handler that runs when a project has been saved for the first time. */
    method PostSave(template: ProjectTemplate) returns (crash: Option<Crash>)
      modifies this, template
      ensures (Contents(), crash) == Create(template.site, template.id, old(template.Contents()), old(Contents()))
    {
      hide Apply, OwnerRole;
      if profile.tags != [] {
        template.profile := template.profile.(tags := profile.tags);
      }
      if profile.tagsColors != [] {
        template.profile := template.profile.(tagsColors := profile.tagsColors);
      }
      assert template.Contents() == WithTagsOf(old(template.Contents()), old(Contents()));
      crash := template.ApplyToProject(this);
      if crash == None {
        ownerRole := OwnerRole(template.site, template.defaultOwnerRole, Contents());
      }
    }
  }

  class ProjectTemplate {
    const site: Site
    const id: int
    var modules: Modules
    var profile: Profile
    var lists: Lists
    var defaultOptions: Defaults
    var defaultOwnerRole: string

    function Contents(): Template
      reads this
    {
      Template(modules, profile, lists, defaultOptions, defaultOwnerRole)
    }

    constructor (site: Site, id: int, t: Template)
      ensures this.site == site && this.id == id && Contents() == t
    {
      this.site, this.id := site, id;
      modules, profile, lists, defaultOptions := t.modules, t.profile, t.lists, t.defaultOptions;
      defaultOwnerRole := t.defaultOwnerRole;
    }

    method LoadLists(families: seq<Family>, stored: Lists) returns (loaded: Lists)
      ensures loaded == ReadLists(site, families, stored)
    {
      hide RowsOf, Sorted;
      loaded := map[];
      for i := 0 to |families|
        invariant loaded == ReadLists(site, families[..i], stored)
      {
        loaded := loaded[families[i] := Sorted(site, RowsOf(stored, families[i]))];
        assert families[..i + 1] == families[..i] + [families[i]];
      }
      assert families[..|families|] == families;
    }

    /** A project without an owner's membership and without roles stops the loading before the profile is read. */
    method LoadDataFromProject(project: ProjectRecord) returns (crash: Option<Crash>)
      modifies this
      ensures Load(site, project.Contents()) == if crash.Some? then Failure(crash.value) else Success(Contents())
      ensures crash.Some? ==>
        modules == project.modules && lists == ReadLists(site, CHOICES + ATTRIBUTES, project.lists) &&
        profile == old(profile) && defaultOwnerRole == old(defaultOwnerRole)
    {
      hide CHOICES, ATTRIBUTES, DEFAULTED, ReadLists;
      modules := project.modules;
      defaultOptions := map family | family in DEFAULTED :: DefaultOf(project.defaults, family);
      lists := LoadLists(CHOICES + ATTRIBUTES, project.lists);
      if project.ownerRole.Some? {
        defaultOwnerRole := project.ownerRole.value;
      } else {
        var roles := RowsOf(lists, Roles);
        if roles == [] {
          return Some(NoRoles);
        }
        defaultOwnerRole := SecondKey(roles[0]);
      }
      profile := project.profile;
      return None;
    }

    /** One loop per list, one created row per entry. */
    method CreateRows(families: seq<Family>, existing: Lists) returns (created: Lists)
      ensures created == CreateLists(site, families, lists, existing)
    {
      hide RowsOf, Saved;
      created := map[];
      for i := 0 to |families|
        invariant created == CreateLists(site, families[..i], lists, existing)
      {
        var wanted := RowsOf(lists, families[i]);
        var rows := RowsOf(existing, families[i]);
        for j := 0 to |wanted|
          invariant rows == CreateAll(site, RowsOf(existing, families[i]), wanted[..j])
        {
          assert wanted[..j + 1][..j] == wanted[..j];
          rows := rows + [Saved(site, wanted[j], rows)];
        }
        assert wanted[..|wanted|] == wanted;
        created := created[families[i] := rows];
        assert families[..i + 1] == families[..i] + [families[i]];
      }
      assert families[..|families|] == families;
    }

    /** One lookup: an empty list needs no default. */
    method SetDefault(family: Family, project: ProjectRecord) returns (crash: Option<Crash>)
      modifies project`defaults
      ensures DefaultFound(Contents(), project.lists, family) ==>
        crash == None && project.defaults == WithDefault(Contents(), old(project.defaults), family)
      ensures !DefaultFound(Contents(), project.lists, family) ==>
        crash == Some(DoesNotExist(family)) && project.defaults == old(project.defaults)
    {
      if RowsOf(lists, family) != [] {
        var name := DefaultOf(defaultOptions, family);
        if name.None? || !HasName(RowsOf(project.lists, family), name.value) {
          return Some(DoesNotExist(family));
        }
        project.defaults := project.defaults[family := name];
      }
      return None;
    }

    /** The lookups, one after the other; the first that fails ends them. */
    method SetDefaults(families: seq<Family>, project: ProjectRecord) returns (crash: Option<Crash>)
      modifies project`defaults
      ensures
        var found := FoundDefaults(Contents(), project.lists, families);
        project.defaults == AssignDefaults(Contents(), families[..found], old(project.defaults)) &&
        crash == if found < |families| then Some(DoesNotExist(families[found])) else None
    {
      for i := 0 to |families|
        invariant i <= FoundDefaults(Contents(), project.lists, families)
        invariant project.defaults == AssignDefaults(Contents(), families[..i], old(project.defaults))
      {
        hide DefaultFound, FoundDefaults, WithDefault;
        assert families[..i + 1][..i] == families[..i];
        crash := SetDefault(families[i], project);
        if crash.Some? {
          return;
        }
      }
      assert families[..|families|] == families;
      return None;
    }

    method ApplyToProject(project: ProjectRecord) returns (crash: Option<Crash>)
      modifies project
      ensures (project.Contents(), crash) == Apply(site, id, Contents(), old(project.Contents()))
    {
      hide CHOICES, ATTRIBUTES, DEFAULTED, CreateLists, FoundDefaults, AssignDefaults;
      ghost var before := project.Contents();
      project.creationTemplate := Some(id);
      project.modules := modules;
      var choices := CreateRows(CHOICES, project.lists);
      project.lists := project.lists + choices;
      crash := SetDefaults(DEFAULTED, project);
      if crash == None {
        AttributesAreNoChoices(before.lists, choices, site, lists);
        var attributes := CreateRows(ATTRIBUTES, project.lists);
        project.lists := project.lists + attributes;
        project.profile := profile;
      }
    }
  }

  lemma EveryFamilyIsListed()
    ensures forall family: Family :: family in CHOICES || family in ATTRIBUTES
    ensures forall family <- DEFAULTED :: family in CHOICES
    ensures Roles in CHOICES && Roles !in ATTRIBUTES
    ensures forall family <- ATTRIBUTES :: family !in CHOICES
  {
    forall family: Family ensures family in CHOICES || family in ATTRIBUTES {
      var all := CHOICES + ATTRIBUTES;
      var i := match family
        case EpicStatuses => 0 case UsStatuses => 1 case UsDuedates => 2 case PointValues => 3
        case TaskStatuses => 4 case TaskDuedates => 5 case IssueStatuses => 6 case IssueTypes => 7
        case IssueDuedates => 8 case Priorities => 9 case Severities => 10 case Roles => 11
        case EpicAttributes => 12 case UsAttributes => 13 case TaskAttributes => 14 case IssueAttributes => 15;
      assert all[i] == family;
    }
  }

  lemma {:induction false} AssignedDefault(t: Template, families: seq<Family>, defaults: Defaults, family: Family)
    ensures DefaultOf(AssignDefaults(t, families, defaults), family) ==
      if family in families && RowsOf(t.lists, family) != [] then DefaultOf(t.defaultOptions, family)
      else DefaultOf(defaults, family)
  {
    if families == [] {
    } else {
      AssignedDefault(t, families[..|families| - 1], defaults, family);
      assert family in families <==> family in families[..|families| - 1] || family == families[|families| - 1];
    }
  }

  lemma AttributesAreNoChoices(existing: Lists, choices: Lists, site: Site, wanted: Lists)
    requires choices == CreateLists(site, CHOICES, wanted, existing)
    ensures CreateLists(site, ATTRIBUTES, wanted, existing + choices) == CreateLists(site, ATTRIBUTES, wanted, existing)
  {
    EveryFamilyIsListed();
    hide CHOICES, ATTRIBUTES, CreateAll;
    forall family <- ATTRIBUTES ensures RowsOf(existing + choices, family) == RowsOf(existing, family) {
    }
  }

  // -------------------------------------------------------------------------
  // Sorting
  // -------------------------------------------------------------------------

  lemma {:induction false} InsertElements(site: Site, c: Choice, sorted: seq<Choice>)
    ensures multiset(Insert(site, c, sorted)) == multiset{c} + multiset(sorted)
  {
    if sorted == [] || Before(site, c, sorted[0]) {
    } else {
      InsertElements(site, c, sorted[1..]);
      assert sorted == [sorted[0]] + sorted[1..];
    }
  }

  lemma {:induction false} SortedElements(site: Site, rows: seq<Choice>)
    ensures multiset(Sorted(site, rows)) == multiset(rows)
  {
    if rows == [] {
    } else {
      SortedElements(site, rows[1..]);
      InsertElements(site, rows[0], Sorted(site, rows[1..]));
      assert rows == [rows[0]] + rows[1..];
    }
  }

  lemma {:induction false} InsertSorted(site: Site, c: Choice, sorted: seq<Choice>)
    requires StrictTotalOrder(site.collates) && StrictlySorted(site, sorted)
    requires forall x <- sorted :: SecondKey(x) != SecondKey(c)
    ensures StrictlySorted(site, Insert(site, c, sorted))
  {
    if sorted == [] || Before(site, c, sorted[0]) {
    } else {
      InsertSorted(site, c, sorted[1..]);
      var rest := Insert(site, c, sorted[1..]);
      InsertElements(site, c, sorted[1..]);
      forall j | 0 <= j < |rest| ensures Before(site, sorted[0], rest[j]) {
        assert rest[j] in multiset(rest);
        assert rest[j] == c || rest[j] in sorted[1..];
      }
    }
  }

  lemma {:induction false} SortedIsSorted(site: Site, rows: seq<Choice>)
    requires StrictTotalOrder(site.collates) && DistinctKeys(rows)
    ensures StrictlySorted(site, Sorted(site, rows))
  {
    if rows == [] {
    } else {
      SortedIsSorted(site, rows[1..]);
      SortedElements(site, rows[1..]);
      forall x | x in Sorted(site, rows[1..]) ensures SecondKey(x) != SecondKey(rows[0]) {
        assert x in multiset(Sorted(site, rows[1..]));
        var j :| 0 <= j < |rows[1..]| && rows[1..][j] == x;
        assert rows[j + 1] == x;
      }
      InsertSorted(site, rows[0], Sorted(site, rows[1..]));
    }
  }

  lemma {:induction false} SortingSortedChangesNothing(site: Site, rows: seq<Choice>)
    requires StrictlySorted(site, rows)
    ensures Sorted(site, rows) == rows
  {
    if rows == [] {
    } else {
      SortingSortedChangesNothing(site, rows[1..]);
      if |rows| > 1 {
        assert Before(site, rows[0], rows[1]);
      }
    }
  }

  /** The order of a list is canonical: any strictly sorted arrangement of the same rows is the one that is read. */
  lemma {:induction false} SortingIsCanonical(site: Site, rows: seq<Choice>, arranged: seq<Choice>)
    requires StrictTotalOrder(site.collates) && DistinctKeys(rows)
    requires multiset(arranged) == multiset(rows) && StrictlySorted(site, arranged)
    ensures arranged == Sorted(site, rows)
  {
    SortedIsSorted(site, rows);
    SortedElements(site, rows);
    SameRowsSameOrder(site, arranged, Sorted(site, rows));
  }

  lemma FirstIsLeast(site: Site, a: seq<Choice>, b: seq<Choice>)
    requires StrictTotalOrder(site.collates)
    requires StrictlySorted(site, a) && StrictlySorted(site, b) && a != [] && b != []
    requires b[0] in a && a[0] in b
    ensures a[0] == b[0]
  {
    var i :| 0 <= i < |b| && b[i] == a[0];
    var j :| 0 <= j < |a| && a[j] == b[0];
    assert i == 0 || Before(site, b[0], a[0]);
    assert j == 0 || Before(site, a[0], b[0]);
  }

  lemma RestOfSameRows(a: seq<Choice>, b: seq<Choice>)
    requires a != [] && b != [] && a[0] == b[0] && multiset(a) == multiset(b)
    ensures multiset(a[1..]) == multiset(b[1..])
  {
    assert a == [a[0]] + a[1..] && b == [b[0]] + b[1..];
    assert multiset(a[1..]) == multiset(a) - multiset{a[0]};
  }

  lemma {:induction false} SameRowsSameOrder(site: Site, a: seq<Choice>, b: seq<Choice>)
    requires StrictTotalOrder(site.collates)
    requires StrictlySorted(site, a) && StrictlySorted(site, b) && multiset(a) == multiset(b)
    ensures a == b
  {
    hide StrictTotalOrder, Before;
    assert |a| == |multiset(a)| == |multiset(b)| == |b|;
    if a == [] {
    } else {
      assert a[0] in multiset(a) && b[0] in multiset(b);
      FirstIsLeast(site, a, b);
      RestOfSameRows(a, b);
      SameRowsSameOrder(site, a[1..], b[1..]);
    }
  }

  // -------------------------------------------------------------------------
  // Creating rows
  // -------------------------------------------------------------------------

  predicate RolesHaveSlugs(rows: seq<Choice>) {
    forall i :: 0 <= i < |rows| ==> rows[i].Role? ==> rows[i].slug != ""
  }

  /** The same row but for the slug of a status, field by field. */
  predicate SameRow(a: Choice, b: Choice) {
    if b.Status? then
      a.Status? && a.name == b.name && a.order == b.order && a.isClosed == b.isClosed && a.color == b.color
    else if b.StoryStatus? then
      a.StoryStatus? && a.name == b.name && a.order == b.order && a.isClosed == b.isClosed && a.color == b.color &&
      a.isArchived == b.isArchived && a.wipLimit == b.wipLimit
    else a == b
  }

  /** What a wanted row becomes when it is created after the given ones. */
  predicate CreatedAfter(site: Site, made: Choice, wanted: Choice, before: seq<Choice>) {
    if wanted.Status? || wanted.StoryStatus? then
      SameRow(made, wanted) && made.slug == site.slugify(wanted.name, Slugs(before))
    else if wanted.Role? && wanted.slug == "" then
      made == Role(wanted.name, site.slugify(wanted.name, Slugs(before)), wanted.order, wanted.permissions,
                   wanted.computable)
    else made == wanted
  }

  /** Rows are created one by one behind those there are, each as it is wanted but for computed slugs. */
  lemma {:induction false} RowsAreCreated(site: Site, existing: seq<Choice>, wanted: seq<Choice>)
    ensures var made := CreateAll(site, existing, wanted);
      |made| == |existing| + |wanted| && existing <= made &&
      forall i :: 0 <= i < |wanted| ==>
        CreatedAfter(site, made[|existing| + i], wanted[i], made[..|existing| + i])
  {
    if wanted == [] {
    } else {
      hide CreatedAfter, Saved;
      var last := |wanted| - 1;
      RowsAreCreated(site, existing, wanted[..last]);
      var earlier, made := CreateAll(site, existing, wanted[..last]), CreateAll(site, existing, wanted);
      assert made == earlier + [Saved(site, wanted[last], earlier)];
      SavedIsCreated(site, wanted[last], earlier);
      forall i | 0 <= i < last
        ensures CreatedAfter(site, made[|existing| + i], wanted[i], made[..|existing| + i])
      {
        assert made[..|existing| + i] == earlier[..|existing| + i];
      }
      assert made[..|existing| + last] == earlier;
    }
  }

  lemma SavedIsCreated(site: Site, wanted: Choice, before: seq<Choice>)
    ensures CreatedAfter(site, Saved(site, wanted, before), wanted, before)
  {
    hide Slugs;
  }

  /** The slugs that a new one has to differ from. */
  lemma {:induction false} SlugsAt(rows: seq<Choice>)
    requires forall i :: 0 <= i < |rows| ==> rows[i].Status? || rows[i].StoryStatus? || rows[i].Role?
    ensures |Slugs(rows)| == |rows| && forall i :: 0 <= i < |rows| ==> Slugs(rows)[i] == rows[i].slug
  {
    if rows == [] {
    } else {
      SlugsAt(rows[..|rows| - 1]);
    }
  }

  /** In a blank project created rows are the wanted ones in order, but for the slugs of statuses. */
  lemma CreatedRows(site: Site, wanted: seq<Choice>)
    requires RolesHaveSlugs(wanted)
    ensures var created := CreateAll(site, [], wanted);
      SameList(created, wanted) &&
      forall i :: 0 <= i < |wanted| ==>
        created[i].name == wanted[i].name && created[i].order == wanted[i].order &&
        SecondKey(created[i]) == SecondKey(wanted[i])
  {
    hide CreateAll, Slugs;
    RowsAreCreated(site, [], wanted);
    var created := CreateAll(site, [], wanted);
    forall i | 0 <= i < |wanted|
      ensures SameRow(created[i], wanted[i]) && created[i].name == wanted[i].name && created[i].order == wanted[i].order
    {
      assert CreatedAfter(site, created[0 + i], wanted[i], created[..0 + i]);
    }
  }

  /** Two lists agree row by row, but for the slugs of statuses. */
  predicate SameList(a: seq<Choice>, b: seq<Choice>) {
    |a| == |b| && forall i :: 0 <= i < |a| ==> SameRow(a[i], b[i])
  }

  /** Reading a list that was created from a sorted list gives it back, but for the slugs of statuses. */
  lemma ReadBack(site: Site, wanted: seq<Choice>)
    requires StrictlySorted(site, wanted) && RolesHaveSlugs(wanted)
    ensures SameList(Sorted(site, CreateAll(site, [], wanted)), wanted)
    ensures Sorted(site, CreateAll(site, [], wanted)) == CreateAll(site, [], wanted)
  {
    hide CreateAll, SameRow;
    CreatedRows(site, wanted);
    var created := CreateAll(site, [], wanted);
    forall i, j | 0 <= i < j < |created| ensures Before(site, created[i], created[j]) {
      assert Before(site, wanted[i], wanted[j]);
    }
    SortingSortedChangesNothing(site, created);
  }

  // -------------------------------------------------------------------------
  // Theorems
  // -------------------------------------------------------------------------

  /** What the schema and the saving of roles guarantee of a project's own rows. */
  ghost predicate Stored(p: Project) {
    forall family: Family :: DistinctKeys(RowsOf(p.lists, family)) && RolesHaveSlugs(RowsOf(p.lists, family))
  }

  /** The default of the family is a row of the project's own list. */
  predicate DefaultIsOwn(p: Project, family: Family) {
    var name := DefaultOf(p.defaults, family);
    name.Some? && HasName(RowsOf(p.lists, family), name.value)
  }

  /** The lists that a project has a default in. */
  predicate NeedsDefault(family: Family) {
    match family
    case EpicStatuses | UsStatuses | TaskStatuses | IssueStatuses => true
    case PointValues | IssueTypes | Priorities | Severities => true
    case _ => false
  }

  /** When its default is looked up. */
  function LookupOrder(family: Family): int
    requires NeedsDefault(family)
  {
    match family
    case EpicStatuses => 0 case UsStatuses => 1 case PointValues => 2 case TaskStatuses => 3
    case IssueStatuses => 4 case IssueTypes => 5 case Priorities => 6 case Severities => 7
  }

  lemma DefaultedInOrder()
    ensures forall family: Family :: family in DEFAULTED <==> NeedsDefault(family)
    ensures |DEFAULTED| == 8
    ensures forall i :: 0 <= i < 8 ==> NeedsDefault(DEFAULTED[i]) && LookupOrder(DEFAULTED[i]) == i
  {
    forall family: Family | NeedsDefault(family) ensures family in DEFAULTED {
      assert DEFAULTED[LookupOrder(family)] == family;
    }
  }

  predicate IsAttribute(family: Family) {
    family == EpicAttributes || family == UsAttributes || family == TaskAttributes || family == IssueAttributes
  }

  /** A non-empty list of the template finds its default in the given list. */
  ghost predicate LookupGoesWell(t: Template, rows: seq<Choice>, family: Family) {
    RowsOf(t.lists, family) == [] ||
    (DefaultOf(t.defaultOptions, family).Some? &&
     exists row <- rows :: row.name == DefaultOf(t.defaultOptions, family).value)
  }

  /**
   Whatever happens, applying a template sets the modules and the reference to the template and creates all choice rows;
   attributes are created and the profile is set only if no lookup of a default fails.
   */
  lemma ApplyLeaves(site: Site, id: int, t: Template, p: Project)
    ensures
      var (after, crash) := Apply(site, id, t, p);
      after.modules == t.modules && after.creationTemplate == Some(id) && after.ownerRole == p.ownerRole &&
      after.profile == (if crash == None then t.profile else p.profile) &&
      forall family: Family :: RowsOf(after.lists, family) ==
        if IsAttribute(family) && crash != None then RowsOf(p.lists, family)
        else CreateAll(site, RowsOf(p.lists, family), RowsOf(t.lists, family))
  {
    EveryFamilyIsListed();
    AttributesListed();
    hide CHOICES, ATTRIBUTES, DEFAULTED, CreateAll, FoundDefaults, AssignDefaults, IsAttribute;
  }

  /** The defaults are looked up in their order; the crash names the first that fails, and those before it are set. */
  lemma DefaultsAreLookedUp(site: Site, id: int, t: Template, p: Project)
    ensures
      var (after, crash) := Apply(site, id, t, p);
      (crash == None <==>
        forall family: Family :: NeedsDefault(family) ==> LookupGoesWell(t, RowsOf(after.lists, family), family)) &&
      (crash != None ==>
        crash.value.DoesNotExist? && NeedsDefault(crash.value.family) &&
        !LookupGoesWell(t, RowsOf(after.lists, crash.value.family), crash.value.family) &&
        forall family: Family :: NeedsDefault(family) && LookupOrder(family) < LookupOrder(crash.value.family) ==>
          LookupGoesWell(t, RowsOf(after.lists, family), family)) &&
      (forall family: Family :: DefaultOf(after.defaults, family) ==
        if NeedsDefault(family) && RowsOf(t.lists, family) != [] &&
           (crash == None || LookupOrder(family) < LookupOrder(crash.value.family))
        then DefaultOf(t.defaultOptions, family)
        else DefaultOf(p.defaults, family))
  {
    DefaultedInOrder();
    var found := FoundInApplied(site, id, t, p);
    hide CHOICES, ATTRIBUTES, DEFAULTED, CreateAll, FoundDefaults, CreateLists, LookupOrder, NeedsDefault;
    hide LookupGoesWell, RowsOf, DefaultOf, Apply;
  }

  lemma FoundInApplied(site: Site, id: int, t: Template, p: Project) returns (found: nat)
    ensures found <= 8 == |DEFAULTED|
    ensures
      var (after, crash) := Apply(site, id, t, p);
      crash == (if found < 8 then Some(DoesNotExist(DEFAULTED[found])) else None) &&
      (forall family: Family | NeedsDefault(family) ::
        LookupOrder(family) < found ==> LookupGoesWell(t, RowsOf(after.lists, family), family)) &&
      (found < 8 ==> !LookupGoesWell(t, RowsOf(after.lists, DEFAULTED[found]), DEFAULTED[found])) &&
      (forall family: Family :: DefaultOf(after.defaults, family) ==
        if NeedsDefault(family) && RowsOf(t.lists, family) != [] && LookupOrder(family) < found
        then DefaultOf(t.defaultOptions, family) else DefaultOf(p.defaults, family))
    ensures forall family: Family | NeedsDefault(family) :: 0 <= LookupOrder(family) < 8
  {
    DefaultedInOrder();
    EveryFamilyIsListed();
    hide CHOICES, ATTRIBUTES, DEFAULTED, CreateAll, DefaultFound, LookupGoesWell, FoundDefaults;
    hide LookupOrder, NeedsDefault;
    var choices := p.lists + CreateLists(site, CHOICES, t.lists, p.lists);
    found := FoundDefaults(t, choices, DEFAULTED);
    var after := Apply(site, id, t, p).0;
    forall family: Family
      ensures DefaultOf(AssignDefaults(t, DEFAULTED[..found], p.defaults), family) ==
        if NeedsDefault(family) && RowsOf(t.lists, family) != [] && LookupOrder(family) < found
        then DefaultOf(t.defaultOptions, family) else DefaultOf(p.defaults, family)
    {
      AssignedDefault(t, DEFAULTED[..found], p.defaults, family);
      InFirst(found, family);
    }
    forall family: Family | NeedsDefault(family)
      ensures DefaultFound(t, choices, family) <==> LookupGoesWell(t, RowsOf(after.lists, family), family)
      ensures 0 <= LookupOrder(family) < 8 && DEFAULTED[LookupOrder(family)] == family
    {
      InFirst(found, family);
      ChoicesStay(site, id, t, p, family);
      FoundIsGoingWell(t, choices, after.lists, family);
    }
  }

  lemma ChoicesStay(site: Site, id: int, t: Template, p: Project, family: Family)
    requires NeedsDefault(family)
    ensures RowsOf(p.lists + CreateLists(site, CHOICES, t.lists, p.lists), family) ==
            RowsOf(Apply(site, id, t, p).0.lists, family)
  {
    AttributesListed();
    hide CHOICES, DEFAULTED, CreateAll, FoundDefaults, AssignDefaults, NeedsDefault, IsAttribute;
  }

  lemma AttributesListed()
    ensures forall family: Family :: family in ATTRIBUTES <==> IsAttribute(family)
    ensures forall family: Family :: NeedsDefault(family) ==> !IsAttribute(family)
  {
  }

  lemma InFirst(n: nat, family: Family)
    requires n <= |DEFAULTED|
    ensures family in DEFAULTED[..n] <==> NeedsDefault(family) && LookupOrder(family) < n
    ensures NeedsDefault(family) ==> 0 <= LookupOrder(family) < 8 && DEFAULTED[LookupOrder(family)] == family
  {
    DefaultedInOrder();
    hide DEFAULTED;
    if NeedsDefault(family) {
      var i :| 0 <= i < 8 && DEFAULTED[i] == family;
    }
  }

  lemma FoundIsGoingWell(t: Template, choices: Lists, lists: Lists, family: Family)
    requires RowsOf(choices, family) == RowsOf(lists, family)
    ensures DefaultFound(t, choices, family) <==> LookupGoesWell(t, RowsOf(lists, family), family)
  {
    var rows, name := RowsOf(lists, family), DefaultOf(t.defaultOptions, family);
    hide RowsOf, DefaultOf;
    if name.Some? && HasName(rows, name.value) {
      var i :| 0 <= i < |rows| && rows[i].name == name.value;
      assert rows[i] in rows;
    }
  }

  /** A list in the order its model's Meta demands: by order and name, roles by order and slug. */
  predicate InDisplayOrder(site: Site, rows: seq<Choice>) {
    forall i, j :: 0 <= i < j < |rows| ==>
      rows[i].order < rows[j].order ||
      (rows[i].order == rows[j].order &&
       (rows[i].Role? && rows[j].Role? ==> site.collates(rows[i].slug, rows[j].slug)) &&
       (!rows[i].Role? && !rows[j].Role? ==> site.collates(rows[i].name, rows[j].name)))
  }

  /** A project that has just been saved for the first time. */
  function Blank(modules: Modules, profile: Profile): Project {
    Project(modules, profile, map[], map[], None, None)
  }

  lemma ReadList(site: Site, p: Project, family: Family)
    requires StrictTotalOrder(site.collates) && Stored(p)
    ensures Sorted(site, RowsOf(p.lists, family)) == [] <==> RowsOf(p.lists, family) == []
    ensures var rows := RowsOf(ReadLists(site, CHOICES + ATTRIBUTES, p.lists), family);
      rows == Sorted(site, RowsOf(p.lists, family)) && StrictlySorted(site, rows) && RolesHaveSlugs(rows) &&
      multiset(rows) == multiset(RowsOf(p.lists, family)) && |rows| == |RowsOf(p.lists, family)|
  {
    EveryFamilyIsListed();
    hide CHOICES, ATTRIBUTES, DEFAULTED, Sorted;
    var stored := RowsOf(p.lists, family);
    SortedIsSorted(site, stored);
    SortedElements(site, stored);
    var rows := Sorted(site, stored);
    assert |rows| == |multiset(rows)| == |multiset(stored)| == |stored|;
    forall i | 0 <= i < |rows| ensures rows[i] in stored {
      assert rows[i] in multiset(rows);
    }
  }

  /**
   A project can be made into a template iff it has an owner's membership or a role. The template holds its settings,
   all its rows in their display order, the names of its defaults, and the owner's role or else the first.
   */
  lemma TemplateHoldsProject(site: Site, p: Project)
    requires StrictTotalOrder(site.collates) && Stored(p)
    ensures Load(site, p).Success? <==> p.ownerRole.Some? || RowsOf(p.lists, Roles) != []
    ensures Load(site, p).Success? ==>
      var template := Load(site, p).value;
      template.modules == p.modules && template.profile == p.profile &&
      (forall family: Family ::
        multiset(RowsOf(template.lists, family)) == multiset(RowsOf(p.lists, family)) &&
        InDisplayOrder(site, RowsOf(template.lists, family))) &&
      (forall family: Family :: NeedsDefault(family) ==>
        DefaultOf(template.defaultOptions, family) == DefaultOf(p.defaults, family)) &&
      template.defaultOwnerRole ==
        if p.ownerRole.Some? then p.ownerRole.value else SecondKey(Sorted(site, RowsOf(p.lists, Roles))[0])
  {
    DefaultedInOrder();
    hide CHOICES, ATTRIBUTES, DEFAULTED, Sorted, ReadLists;
    var lists := ReadLists(site, CHOICES + ATTRIBUTES, p.lists);
    forall family: Family
      ensures multiset(RowsOf(lists, family)) == multiset(RowsOf(p.lists, family))
      ensures InDisplayOrder(site, RowsOf(lists, family))
    {
      ReadList(site, p, family);
    }
    ReadList(site, p, Roles);
  }

  lemma KeysAreKept(a: seq<Choice>, b: seq<Choice>, key: string)
    requires multiset(a) == multiset(b)
    ensures HasKey(a, key) <==> HasKey(b, key)
  {
    if i :| 0 <= i < |a| && SecondKey(a[i]) == key {
      assert a[i] in multiset(b);
      var k :| 0 <= k < |b| && b[k] == a[i];
    }
    if i :| 0 <= i < |b| && SecondKey(b[i]) == key {
      assert b[i] in multiset(a);
      var k :| 0 <= k < |a| && a[k] == b[i];
    }
  }

  lemma SameKeys(a: seq<Choice>, b: seq<Choice>, key: string)
    requires |a| == |b| && forall i :: 0 <= i < |a| ==> SecondKey(a[i]) == SecondKey(b[i])
    ensures HasKey(a, key) <==> HasKey(b, key)
  {
    if i :| 0 <= i < |a| && SecondKey(a[i]) == key {
      assert SecondKey(b[i]) == key;
    }
  }

  lemma EmptyHasNoKey(key: string)
    ensures !HasKey([], key)
  {
  }

  lemma NamesAreKept(a: seq<Choice>, b: seq<Choice>, name: string)
    requires multiset(a) == multiset(b)
    ensures HasName(a, name) <==> HasName(b, name)
  {
    if i :| 0 <= i < |a| && a[i].name == name {
      assert a[i] in multiset(b);
      var k :| 0 <= k < |b| && b[k] == a[i];
    }
    if i :| 0 <= i < |b| && b[i].name == name {
      assert b[i] in multiset(a);
      var k :| 0 <= k < |a| && a[k] == b[i];
    }
  }

  /** Rows created from a rearrangement of a list have the names of that list. */
  lemma CreatedNames(site: Site, stored: seq<Choice>, rows: seq<Choice>, name: string)
    requires multiset(stored) == multiset(rows) && RolesHaveSlugs(rows)
    ensures HasName(CreateAll(site, [], rows), name) <==> HasName(stored, name)
  {
    hide CreateAll;
    CreatedRows(site, rows);
    NamesAreKept(stored, rows, name);
    var made := CreateAll(site, [], rows);
    if k :| 0 <= k < |rows| && rows[k].name == name {
      assert made[k].name == name;
    }
    if k :| 0 <= k < |made| && made[k].name == name {
      assert rows[k].name == name;
    }
  }

  /** A default is found among the rows created from the template iff it is a row of the project's own. */
  lemma DefaultIsFoundIffOwn(site: Site, p: Project, t: Template, created: Lists, family: Family)
    requires StrictTotalOrder(site.collates) && Stored(p) && family in DEFAULTED
    requires t.lists == ReadLists(site, CHOICES + ATTRIBUTES, p.lists)
    requires DefaultOf(t.defaultOptions, family) == DefaultOf(p.defaults, family)
    requires RowsOf(created, family) == CreateAll(site, [], RowsOf(t.lists, family))
    ensures RowsOf(t.lists, family) == [] <==> RowsOf(p.lists, family) == []
    ensures DefaultFound(t, created, family) <==> (RowsOf(p.lists, family) != [] ==> DefaultIsOwn(p, family))
  {
    hide CHOICES, ATTRIBUTES, DEFAULTED, Sorted, CreateAll, ReadLists, HasName;
    ReadList(site, p, family);
    var stored, rows := RowsOf(p.lists, family), RowsOf(t.lists, family);
    if DefaultOf(p.defaults, family).Some? {
      CreatedNames(site, stored, rows, DefaultOf(p.defaults, family).value);
    }
  }

  /** The rows of a blank project that a template was applied to. */
  lemma BlankGetsRows(site: Site, t: Template, family: Family)
    ensures
      var choices := CreateLists(site, CHOICES, t.lists, map[]);
      var created := map[] + choices + CreateLists(site, ATTRIBUTES, t.lists, map[]);
      RowsOf(created, family) == CreateAll(site, [], RowsOf(t.lists, family)) &&
      (family in DEFAULTED ==> RowsOf(map[] + choices, family) == RowsOf(created, family))
  {
    EveryFamilyIsListed();
    hide CHOICES, ATTRIBUTES, DEFAULTED, CreateAll;
  }

  /** When a template of a stored project goes through on a blank one, and what is there then. */
  lemma BlankIsFilled(site: Site, id: int, p: Project, t: Template, blank: Project)
    requires StrictTotalOrder(site.collates) && Stored(p) && blank == Blank(blank.modules, blank.profile)
    requires t.lists == ReadLists(site, CHOICES + ATTRIBUTES, p.lists)
    requires t.defaultOptions == map family | family in DEFAULTED :: DefaultOf(p.defaults, family)
    ensures
      var (applied, crash) := Apply(site, id, t, blank);
      (crash == None <==> forall family <- DEFAULTED :: RowsOf(p.lists, family) != [] ==> DefaultIsOwn(p, family)) &&
      (crash == None ==>
        (forall family: Family :: RowsOf(applied.lists, family) == CreateAll(site, [], RowsOf(t.lists, family))) &&
        (forall family <- DEFAULTED :: DefaultOf(applied.defaults, family) ==
          if RowsOf(p.lists, family) == [] then None else DefaultOf(p.defaults, family)) &&
        applied.modules == t.modules && applied.profile == t.profile && applied.creationTemplate == Some(id))
  {
    hide CHOICES, ATTRIBUTES, DEFAULTED, CreateAll, Sorted, DefaultFound, FoundDefaults, ReadLists, CreateLists;
    hide Stored, DefaultIsOwn;
    var choices := map[] + CreateLists(site, CHOICES, t.lists, map[]);
    forall family: Family {
      BlankGetsRows(site, t, family);
    }
    forall family <- DEFAULTED
      ensures RowsOf(t.lists, family) == [] <==> RowsOf(p.lists, family) == []
      ensures DefaultFound(t, choices, family) <==> (RowsOf(p.lists, family) != [] ==> DefaultIsOwn(p, family))
    {
      DefaultIsFoundIffOwn(site, p, t, choices, family);
    }
    if FoundDefaults(t, choices, DEFAULTED) == |DEFAULTED| {
      assert DEFAULTED[..|DEFAULTED|] == DEFAULTED;
      forall family <- DEFAULTED {
        AssignedDefault(t, DEFAULTED, map[], family);
      }
    }
  }

  /**
   Make a template from a stored project, a new project from the template, and a template from that. Creating the
   project goes through iff in every non-empty list that needs a default it is a row of that list, and the second
   template can be made iff there is a role. Then both templates have the same modules, the same lists in the same
   order, the same default names but for empty lists, and the same owner role if that is one of the project's roles,
   or else the first. The profile is the same, but that a new project keeps the tags it came with. Only slugs of
   statuses, which are computed anew, may differ.
   */
  lemma TemplateRoundTrip(site: Site, id: int, p: Project, modules: Modules, profile: Profile)
    requires StrictTotalOrder(site.collates) && Stored(p) && Load(site, p).Success?
    ensures
      var template := Load(site, p).value;
      var roles := RowsOf(p.lists, Roles);
      var (created, crash) := Create(site, id, template, Blank(modules, profile));
      (crash == None <==>
        forall family: Family :: NeedsDefault(family) && RowsOf(p.lists, family) != [] ==> DefaultIsOwn(p, family)) &&
      (crash == None ==>
        (Load(site, created).Success? <==> roles != []) &&
        (roles != [] ==>
          var again := Load(site, created).value;
          again.modules == template.modules &&
          again.profile.tags == (if profile.tags != [] then profile.tags else template.profile.tags) &&
          again.profile.tagsColors ==
            (if profile.tagsColors != [] then profile.tagsColors else template.profile.tagsColors) &&
          again.profile.isLookingForPeople == template.profile.isLookingForPeople &&
          again.profile.lookingForPeopleNote == template.profile.lookingForPeopleNote &&
          (forall family: Family :: NeedsDefault(family) ==>
            DefaultOf(again.defaultOptions, family) ==
            if RowsOf(p.lists, family) == [] then None else DefaultOf(template.defaultOptions, family)) &&
          again.defaultOwnerRole ==
            (if HasKey(roles, template.defaultOwnerRole) then template.defaultOwnerRole
             else SecondKey(RowsOf(template.lists, Roles)[0])) &&
          (forall family: Family :: SameList(RowsOf(again.lists, family), RowsOf(template.lists, family)))))
  {
    DefaultedInOrder();
    hide CHOICES, ATTRIBUTES, DEFAULTED, CreateAll, Sorted, ReadLists, Apply, SameList, Stored, DefaultIsOwn, HasKey;
    hide NeedsDefault;
    var template := Load(site, p).value;
    var blank := Blank(modules, profile);
    var tagged := WithTagsOf(template, blank);
    BlankIsFilled(site, id, p, tagged, blank);
    var (applied, crash) := Apply(site, id, tagged, blank);
    if crash == None {
      var created := applied.(ownerRole := OwnerRole(site, template.defaultOwnerRole, applied));
      RolesComeBack(site, p, template, applied);
      forall family: Family
        ensures SameList(RowsOf(ReadLists(site, CHOICES + ATTRIBUTES, applied.lists), family),
                         RowsOf(template.lists, family))
      {
        ListComesBack(site, p, applied, family);
      }
    }
  }

  lemma ListComesBack(site: Site, p: Project, applied: Project, family: Family)
    requires StrictTotalOrder(site.collates) && Stored(p)
    requires
      RowsOf(applied.lists, family) ==
      CreateAll(site, [], RowsOf(ReadLists(site, CHOICES + ATTRIBUTES, p.lists), family))
    ensures SameList(RowsOf(ReadLists(site, CHOICES + ATTRIBUTES, applied.lists), family),
                     RowsOf(ReadLists(site, CHOICES + ATTRIBUTES, p.lists), family))
  {
    EveryFamilyIsListed();
    hide CHOICES, ATTRIBUTES, DEFAULTED, CreateAll, Sorted, SameRow, Stored;
    ReadList(site, p, family);
    ReadBack(site, RowsOf(ReadLists(site, CHOICES + ATTRIBUTES, p.lists), family));
  }

  /** The new owner gets a role iff there is one, and the one the template names iff the project has it. */
  lemma RolesComeBack(site: Site, p: Project, template: Template, applied: Project)
    requires StrictTotalOrder(site.collates) && Stored(p) && Load(site, p) == Success(template)
    requires RowsOf(applied.lists, Roles) == CreateAll(site, [], RowsOf(template.lists, Roles))
    ensures
      var role := OwnerRole(site, template.defaultOwnerRole, applied);
      (role.Some? <==> RowsOf(p.lists, Roles) != []) &&
      (role.None? ==> RowsOf(ReadLists(site, CHOICES + ATTRIBUTES, applied.lists), Roles) == []) &&
      (role.Some? ==>
        role.value ==
          if HasKey(RowsOf(p.lists, Roles), template.defaultOwnerRole) then template.defaultOwnerRole
          else SecondKey(RowsOf(template.lists, Roles)[0]))
  {
    EveryFamilyIsListed();
    hide CHOICES, ATTRIBUTES, DEFAULTED, CreateAll, Sorted, HasKey;
    ReadList(site, p, Roles);
    var stored, wanted, made := RowsOf(p.lists, Roles), RowsOf(template.lists, Roles), RowsOf(applied.lists, Roles);
    CreatedRows(site, wanted);
    SameKeys(wanted, made, template.defaultOwnerRole);
    KeysAreKept(stored, wanted, template.defaultOwnerRole);
    ReadBack(site, wanted);
    assert HasKey(stored, template.defaultOwnerRole) ==> stored != [] by { EmptyHasNoKey(template.defaultOwnerRole); }
  }

  /** A project whose default story status is a row of another project: its template cannot be applied. */
  lemma ForeignDefaultCrashes(site: Site, id: int, modules: Modules, profile: Profile)
    requires StrictTotalOrder(site.collates)
    ensures
      var status := StoryStatus("New", "new", 1, false, "", false, None);
      var role := Role("Back", "back", 1, None, true);
      var p := Project(modules, profile, map[UsStatuses := [status], Roles := [role]],
                       map[UsStatuses := Some("Done elsewhere")], None, None);
      Stored(p) && Load(site, p).Success? && DefaultOf(p.defaults, UsStatuses).Some? &&
      Create(site, id, Load(site, p).value, Blank(modules, profile)).1.Some?
  {
    var status := StoryStatus("New", "new", 1, false, "", false, None);
    var role := Role("Back", "back", 1, None, true);
    var p := Project(modules, profile, map[UsStatuses := [status], Roles := [role]],
                     map[UsStatuses := Some("Done elsewhere")], None, None);
    assert !DefaultIsOwn(p, UsStatuses) && UsStatuses in DEFAULTED;
    hide CHOICES, ATTRIBUTES, DEFAULTED, CreateAll, Sorted, ReadLists, Apply, SameList;
    TemplateHoldsProject(site, p);
    TemplateRoundTrip(site, id, p, modules, profile);
  }
}
