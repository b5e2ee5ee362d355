/**
 The order of a user's project list: `membership_post_save` of taiga/projects/signals.py pushes all
 projects of the user one place down and puts the saved one at zero.
 */
module MembershipOrder {
  import opened Wrappers

  /** `user_order` by user and project. */
  type Orders = map<(int, int), int>

  /**
   A membership is saved with whatever order the object carries, and the handler runs; without a user it does
   nothing.
   */
  datatype Save = Save(user: Option<int>, project: int, order: int)

  function PostSave(orders: Orders, user: int, project: int): Orders {
    map key | key in orders ::
      if key.0 != user then orders[key] else if key.1 == project then 0 else orders[key] + 1
  }

  function Apply(orders: Orders, save: Save): Orders {
    if save.user.None? then orders
    else PostSave(orders[(save.user.value, save.project) := save.order], save.user.value, save.project)
  }

  function After(orders: Orders, saves: seq<Save>): Orders {
    if saves == [] then orders else Apply(After(orders, saves[..|saves| - 1]), saves[|saves| - 1])
  }

  class MembershipTable {
    var orders: Orders

    constructor ()
      ensures orders == map[]
    {
      orders := map[];
    }

    /** Two updates: one over all memberships of the user, then one over the membership in this project. */
    method SaveMembership(save: Save)
      modifies this
      ensures orders == Apply(old(orders), save)
    {
      if save.user.None? {
        return;
      }
      var user := save.user.value;
      orders := orders[(user, save.project) := save.order];
      orders := map key | key in orders :: if key.0 == user then orders[key] + 1 else orders[key];
      orders := map key | key in orders :: if key.0 == user && key.1 == save.project then 0 else orders[key];
    }
  }

  // -------------------------------------------------------------------------
  // Move to front
  // -------------------------------------------------------------------------

  function Remove(list: seq<int>, project: int): seq<int> {
    if list == [] then [] else (if list[0] == project then [] else [list[0]]) + Remove(list[1..], project)
  }

  function MoveToFront(list: seq<int>, project: int): seq<int> {
    [project] + Remove(list, project)
  }

  /** What the saves do to the list one user sees. */
  function Listed(list: seq<int>, saves: seq<Save>, user: int): seq<int> {
    if saves == [] then list
    else
      var earlier := Listed(list, saves[..|saves| - 1], user);
      var last := saves[|saves| - 1];
      if last.user == Some(user) then MoveToFront(earlier, last.project) else earlier
  }

  /** The list holds the user's projects, each once, in strictly increasing order of nonnegative positions. */
  ghost predicate Represents(orders: Orders, user: int, list: seq<int>) {
    (forall project :: project in list <==> (user, project) in orders) &&
    (forall i :: 0 <= i < |list| ==> (user, list[i]) in orders && orders[(user, list[i])] >= 0) &&
    (forall i, j :: 0 <= i < j < |list| ==> orders[(user, list[i])] < orders[(user, list[j])])
  }

  ghost predicate Increasing(list: seq<int>, position: int -> int) {
    forall i, j :: 0 <= i < j < |list| ==> position(list[i]) < position(list[j])
  }

  lemma {:induction false} RemoveElements(list: seq<int>, project: int)
    ensures forall p :: p in Remove(list, project) <==> p in list && p != project
  {
    if list == [] {
    } else {
      RemoveElements(list[1..], project);
      assert forall p :: p in list <==> p == list[0] || p in list[1..];
    }
  }

  lemma {:induction false} RemoveKeepsOrder(list: seq<int>, project: int, position: int -> int)
    requires Increasing(list, position)
    ensures Increasing(Remove(list, project), position)
  {
    if list == [] {
    } else {
      RemoveKeepsOrder(list[1..], project, position);
      RemoveElements(list[1..], project);
      var rest := Remove(list[1..], project);
      forall j | 0 <= j < |rest| ensures position(list[0]) < position(rest[j]) {
        assert rest[j] in rest;
        var i :| 0 < i < |list| && list[i] == rest[j];
      }
    }
  }

  /** One save moves the saved project to the front of its user's list. */
  lemma {:induction false} SaveMovesToFront(orders: Orders, save: Save, user: int, list: seq<int>)
    requires Represents(orders, user, list) && save.user == Some(user)
    ensures Represents(Apply(orders, save), user, MoveToFront(list, save.project))
  {
    var after := Apply(orders, save);
    var position := (p: int) => if (user, p) in orders then orders[(user, p)] else 0;
    var rest := Remove(list, save.project);
    var moved := MoveToFront(list, save.project);
    RemoveElements(list, save.project);
    assert Increasing(rest, position) by { RemoveKeepsOrder(list, save.project, position); }
    forall i | 0 <= i < |rest|
      ensures (user, rest[i]) in after && after[(user, rest[i])] == position(rest[i]) + 1 >= 1
    {
      assert rest[i] in rest;
    }
    forall i, j | 0 <= i < j < |moved| ensures after[(user, moved[i])] < after[(user, moved[j])] {
      assert moved[j] == rest[j - 1] && (i > 0 ==> moved[i] == rest[i - 1]);
    }
    forall project ensures project in moved <==> (user, project) in after {
      assert project in moved <==> project == save.project || project in rest;
    }
  }

  /** It leaves every other user's list alone. */
  lemma SaveLeavesOthersAlone(orders: Orders, save: Save, user: int, list: seq<int>)
    requires Represents(orders, user, list) && save.user != Some(user)
    ensures Represents(Apply(orders, save), user, list)
  {
  }

  /** Over every run of saves, by any users, the stored orders are those of a move-to-front list. */
  lemma {:induction false} OrdersRefineMoveToFront(orders: Orders, saves: seq<Save>, user: int, list: seq<int>)
    requires Represents(orders, user, list)
    ensures Represents(After(orders, saves), user, Listed(list, saves, user))
  {
    hide Represents;
    if saves == [] {
    } else {
      OrdersRefineMoveToFront(orders, saves[..|saves| - 1], user, list);
      var before, last := After(orders, saves[..|saves| - 1]), saves[|saves| - 1];
      var earlier := Listed(list, saves[..|saves| - 1], user);
      if last.user == Some(user) {
        SaveMovesToFront(before, last, user, earlier);
      } else {
        SaveLeavesOthersAlone(before, last, user, earlier);
      }
    }
  }

  /** What a starting table has to be: no negative order and no two equal ones, as far as this user is concerned. */
  ghost predicate Admissible(orders: Orders, user: int) {
    (forall p: int :: (user, p) in orders ==> orders[(user, p)] >= 0) &&
    (forall p: int, q: int :: (user, p) in orders && (user, q) in orders && p != q ==>
      orders[(user, p)] != orders[(user, q)])
  }

  /** A user's orders are those of a list exactly when they are admissible. */
  lemma AdmissibleIffListed(orders: Orders, user: int)
    ensures Admissible(orders, user) <==> exists list :: Represents(orders, user, list)
  {
    if Admissible(orders, user) {
      var list := ListOf(orders, user, set key | key in orders && key.0 == user);
      forall project ensures project in list <==> (user, project) in orders {
        assert (user, project) in orders ==> (user, project).1 in list;
      }
      forall i | 0 <= i < |list| ensures (user, list[i]) in orders && orders[(user, list[i])] >= 0 {
        var project := list[i];
        assert project in list;
        assert orders[(user, project)] >= 0;
      }
      assert Represents(orders, user, list);
    }
    if list :| Represents(orders, user, list) {
      forall p: int | (user, p) in orders ensures exists i :: 0 <= i < |list| && list[i] == p {
        assert p in list;
      }
    }
  }

  lemma {:induction false} ListOf(orders: Orders, user: int, keys: set<(int, int)>) returns (list: seq<int>)
    requires Admissible(orders, user) && keys <= orders.Keys && forall key <- keys :: key.0 == user
    ensures forall project :: project in list <==> (user, project) in keys
    ensures forall i, j :: 0 <= i < j < |list| ==>
      (user, list[i]) in orders && (user, list[j]) in orders && orders[(user, list[i])] < orders[(user, list[j])]
    decreases keys
  {
    if keys == {} {
      list := [];
    } else {
      var last := LastOf(orders, keys);
      var rest := ListOf(orders, user, keys - {last});
      list := rest + [last.1];
      forall i | 0 <= i < |rest| ensures (user, rest[i]) in orders && orders[(user, rest[i])] < orders[last] {
        var project := rest[i];
        assert project in rest;
        assert (user, project) in keys - {last} && project != last.1;
        assert orders[(user, project)] != orders[(user, last.1)];
      }
      forall project ensures project in list <==> (user, project) in keys {
        assert project in list <==> project in rest || project == last.1;
      }
    }
  }

  lemma {:induction false} LastOf(orders: Orders, keys: set<(int, int)>) returns (last: (int, int))
    requires keys != {} && keys <= orders.Keys
    ensures last in keys && forall key <- keys :: orders[key] <= orders[last]
    decreases keys
  {
    var some :| some in keys;
    var rest := keys - {some};
    last := some;
    if rest == {} {
    } else {
      var other := LastOf(orders, rest);
      last := if orders[some] < orders[other] then other else some;
    }
    forall key <- keys ensures orders[key] <= orders[last] {
      assert key == some || key in rest;
    }
  }

  /**
   So from every admissible table, over every run of saves by any users, a user's orders stay nonnegative and distinct,
   and the one list they stand for is the starting list with the user's saves moved to its front in turn.
   */
  lemma OrdersStayAdmissible(orders: Orders, saves: seq<Save>, user: int)
    requires Admissible(orders, user)
    ensures Admissible(After(orders, saves), user)
    ensures forall before, after ::
      Represents(orders, user, before) && Represents(After(orders, saves), user, after) ==>
      after == Listed(before, saves, user)
  {
    hide Admissible, Represents;
    AdmissibleIffListed(orders, user);
    AdmissibleIffListed(After(orders, saves), user);
    forall list | Represents(orders, user, list)
      ensures Represents(After(orders, saves), user, Listed(list, saves, user))
    {
      OrdersRefineMoveToFront(orders, saves, user, list);
    }
    forall before, after | Represents(orders, user, before) && Represents(After(orders, saves), user, after)
      ensures after == Listed(before, saves, user)
    {
      OneListOnly(After(orders, saves), user, after, Listed(before, saves, user));
    }
  }

  lemma OneListOnly(orders: Orders, user: int, a: seq<int>, b: seq<int>)
    requires Represents(orders, user, a) && Represents(orders, user, b)
    ensures a == b
  {
    hide Represents;
    var i := 0;
    while i < |a| && i < |b|
      invariant 0 <= i <= |a| && i <= |b| && a[..i] == b[..i]
    {
      NextIsLeast(orders, user, a, b, i);
      NextIsLeast(orders, user, b, a, i);
      SameOrderSameProject(orders, user, a, b, i);
      i := i + 1;
    }
    if i == |a| {
      assert a[..i] == a;
      PrefixIsAll(orders, user, a, b);
    } else {
      assert b[..i] == b;
      PrefixIsAll(orders, user, b, a);
    }
  }

  lemma SameOrderSameProject(orders: Orders, user: int, a: seq<int>, b: seq<int>, i: nat)
    requires Represents(orders, user, a) && Represents(orders, user, b) && i < |a| && i < |b|
    requires a[..i] == b[..i]
    requires (user, a[i]) in orders && (user, b[i]) in orders && orders[(user, a[i])] == orders[(user, b[i])]
    ensures a[i] == b[i]
  {
    var k := ListedInBoth(orders, user, b, a, i);
  }

  /** Past a common prefix, what one list has next the other one has no earlier. */
  lemma ListedInBoth(orders: Orders, user: int, a: seq<int>, b: seq<int>, i: nat) returns (k: nat)
    requires Represents(orders, user, a) && Represents(orders, user, b)
    requires i < |a| && i <= |b| && a[..i] == b[..i]
    ensures i <= k < |b| && b[k] == a[i]
  {
    var project := a[i];
    assert (user, project) in orders;
    assert project in b;
    k :| 0 <= k < |b| && b[k] == project;
    forall l | 0 <= l < i ensures b[l] != project {
      assert a[..i][l] == b[..i][l];
      assert orders[(user, a[l])] < orders[(user, project)];
    }
  }

  lemma NextIsLeast(orders: Orders, user: int, a: seq<int>, b: seq<int>, i: nat)
    requires Represents(orders, user, a) && Represents(orders, user, b)
    requires i < |a| && i < |b| && a[..i] == b[..i]
    ensures (user, a[i]) in orders && (user, b[i]) in orders && orders[(user, a[i])] <= orders[(user, b[i])]
  {
    var k := ListedInBoth(orders, user, b, a, i);
  }

  lemma PrefixIsAll(orders: Orders, user: int, a: seq<int>, b: seq<int>)
    requires Represents(orders, user, a) && Represents(orders, user, b) && a <= b
    ensures a == b
  {
    hide Represents;
    if |a| < |b| {
      var k := ListedInBoth(orders, user, b, a, |a|);
    }
  }

  /** The saved project comes strictly first iff no other order of the user was negative. */
  lemma SavedComesFirstIff(orders: Orders, user: int, project: int, order: int)
    ensures
      var after := Apply(orders, Save(Some(user), project, order));
      (forall other: int :: other != project && (user, other) in orders ==>
        after[(user, project)] < after[(user, other)]) <==>
      (forall other: int :: other != project && (user, other) in orders ==> orders[(user, other)] >= 0)
  {
    var after := Apply(orders, Save(Some(user), project, order));
    forall other: int | other != project && (user, other) in orders
      ensures after[(user, other)] == orders[(user, other)] + 1 && after[(user, project)] == 0
    {
    }
  }

  /** The relative order of the other projects is unchanged, ties included, whatever the orders were. */
  lemma OthersKeepTheirOrder(orders: Orders, save: Save, user: int, p: int, q: int)
    requires (user, p) in orders && (user, q) in orders
    requires save.user == Some(user) ==> save.project != p && save.project != q
    ensures
      var after := Apply(orders, save);
      (user, p) in after && (user, q) in after &&
      (after[(user, p)] < after[(user, q)] <==> orders[(user, p)] < orders[(user, q)]) &&
      (after[(user, p)] == after[(user, q)] <==> orders[(user, p)] == orders[(user, q)])
  {
  }
}
