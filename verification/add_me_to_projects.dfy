/**
 * The reconciliation script add_me_to_projects.py: for the user with a
 * given username, every project it does not own and is not yet a member
 * of gains an `editor` membership for it, created through the model save
 * (so the membership handler runs). The script counts the memberships it
 * creates. A missing username changes nothing.
 */
module AddMeToProjects {
  import opened Models
  import opened Store
  import opened Enumeration
  import opened Orm
  import Signals

  /** The projects the script adds `u` to: not owned by `u`, and without a membership for `u`. */
  function Targets(t: Tables, u: UserId): set<ProjectId>
  {
    set p | p in t.projects && t.projects[p].owner != u && (p, u) !in t.members
  }

  /**
   * The tables after `u` is added as an editor to each project of `order`,
   * in that order (an id that names no project is passed over).
   */
  function AddAsEditor(t: Tables, u: UserId, order: seq<ProjectId>): (r: Tables)
    ensures r.(members := t.members, notifications := t.notifications, activities := t.activities) == t
    decreases |order|
  {
    if order == [] then t
    else
      var prev := AddAsEditor(t, u, order[..|order| - 1]);
      var pid := order[|order| - 1];
      if pid in prev.projects then AddMembership(prev, pid, u, Editor) else prev
  }

  /** Which membership rows exist after the additions, and which roles they hold. */
  lemma {:induction false} AddAsEditorMembers(t: Tables, u: UserId, order: seq<ProjectId>)
    ensures var r := AddAsEditor(t, u, order);
      && (forall k :: k in r.members <==> k in t.members || (k.1 == u && k.0 in order && k.0 in t.projects))
      && (forall k :: k in t.members && !(k.1 == u && k.0 in order) ==> r.members[k] == t.members[k])
      && (forall p :: p in order && p in t.projects ==> r.members[(p, u)] == Editor)
    decreases |order|
  {
    if order != [] {
      var init := order[..|order| - 1];
      var last := order[|order| - 1];
      AddAsEditorMembers(t, u, init);
      assert forall p :: p in order <==> p in init || p == last;
      var prev := AddAsEditor(t, u, init);
      if last in prev.projects {
        assert AddAsEditor(t, u, order).members == prev.members[(last, u) := Editor];
      } else {
        assert AddAsEditor(t, u, order) == prev;
      }
    }
  }

  /** When `u` owns none of them, each addition logs one `member_added` notification and activity, in order. */
  lemma {:induction false} AddAsEditorLogs(t: Tables, u: UserId, order: seq<ProjectId>)
    requires forall k :: 0 <= k < |order| ==> order[k] in t.projects && t.projects[order[k]].owner != u
    ensures var r := AddAsEditor(t, u, order);
      && |r.notifications| == |t.notifications| + |order|
      && |r.activities| == |t.activities| + |order|
      && r.notifications[..|t.notifications|] == t.notifications
      && r.activities[..|t.activities|] == t.activities
      && (forall k :: 0 <= k < |order| ==>
            r.notifications[|t.notifications| + k] == Signals.MemberAddedNote(order[k], t.projects[order[k]], u, Editor))
      && (forall k :: 0 <= k < |order| ==>
            r.activities[|t.activities| + k] == Signals.MemberAddedActivity(order[k], u, Editor))
    decreases |order|
  {
    if order != [] {
      var n := |order| - 1;
      var init := order[..n];
      var pid := order[n];
      AddAsEditorLogs(t, u, init);
      var prev := AddAsEditor(t, u, init);
      assert prev.projects == t.projects;
      var note := Signals.MemberAddedNote(pid, t.projects[pid], u, Editor);
      var act := Signals.MemberAddedActivity(pid, u, Editor);
      var r := AddAsEditor(t, u, order);
      assert r.notifications == prev.notifications + [note];
      assert r.activities == prev.activities + [act];
      forall k | 0 <= k < |order|
        ensures r.notifications[|t.notifications| + k] == Signals.MemberAddedNote(order[k], t.projects[order[k]], u, Editor)
        ensures r.activities[|t.activities| + k] == Signals.MemberAddedActivity(order[k], u, Editor)
      {
        if k < n {
          assert order[k] == init[k];
        }
      }
    }
  }

  /** One pass of the loop body keeps the enumeration of the projects added so far. */
  lemma AddStep(order: seq<ProjectId>, targets: set<ProjectId>, done: set<ProjectId>, pid: ProjectId)
    requires Enumerates(order, targets * done) && pid !in done
    ensures pid in targets ==> Enumerates(order + [pid], targets * (done + {pid}))
    ensures pid !in targets ==> Enumerates(order, targets * (done + {pid}))
  {
    if pid in targets {
      EnumeratesSnoc(order, targets * done, pid);
      assert targets * done + {pid} == targets * (done + {pid});
    } else {
      assert targets * done == targets * (done + {pid});
    }
  }

  /**
   * The script: look the user up by name; on a miss nothing changes.
   * Otherwise every project is visited once, in an unspecified order, and
   * the ones in `Targets` get an editor membership; `added` counts them.
   */
  method AddMe(s: Database, username: string) returns (found: bool, added: nat, ghost order: seq<ProjectId>)
    requires s.Valid()
    modifies s
    ensures s.Valid()
    ensures found <==> UserByName(old(s.users), username).Some?
    ensures !found ==> s.State() == old(s.State()) && added == 0
    ensures found ==>
      var u := UserByName(old(s.users), username).value;
      && Enumerates(order, Targets(old(s.State()), u))
      && s.State() == AddAsEditor(old(s.State()), u, order)
      && added == |order|
  {
    var who := UserByName(s.users, username);
    if who.None? {
      return false, 0, [];
    }
    found := true;
    added, order := AddToAll(s, who.value);
  }

  /** The `for project in all_projects` loop, for an existing user `u`. */
  method AddToAll(s: Database, u: UserId) returns (added: nat, ghost order: seq<ProjectId>)
    requires s.Valid() && u in s.users
    modifies s
    ensures s.Valid()
    ensures Enumerates(order, Targets(old(s.State()), u))
    ensures s.State() == AddAsEditor(old(s.State()), u, order)
    ensures added == |order|
  {
    ghost var t0 := s.State();
    ghost var targets := Targets(t0, u);
    added, order := 0, [];
    var remaining := s.projects.Keys;
    ghost var done: set<ProjectId> := {};
    while remaining != {}
      invariant s.Valid()
      invariant remaining <= t0.projects.Keys && done == t0.projects.Keys - remaining
      invariant Enumerates(order, targets * done)
      invariant s.State() == AddAsEditor(t0, u, order)
      invariant added == |order|
      decreases |remaining|
    {
      var pid :| pid in remaining;
      TakeOne(t0.projects.Keys, remaining, done, pid);
      AddStep(order, targets, done, pid);
      var created := VisitProject(s, t0, u, pid, order);
      if created {
        order := order + [pid];
        added := added + 1;
      }
      done := done + {pid};
      remaining := remaining - {pid};
    }
    assert targets * done == targets;
  }

  /** The loop body for one project: skip it if `u` owns it or is a member, else add `u` as an editor. */
  method VisitProject(s: Database, ghost t0: Tables, u: UserId, pid: ProjectId, ghost order: seq<ProjectId>)
    returns (created: bool)
    requires s.Valid() && u in t0.users && pid in t0.projects && pid !in order
    requires s.State() == AddAsEditor(t0, u, order)
    modifies s
    ensures s.Valid()
    ensures created <==> pid in Targets(t0, u)
    ensures s.State() == AddAsEditor(t0, u, if created then order + [pid] else order)
  {
    AddAsEditorMembers(t0, u, order);
    assert s.projects[pid] == t0.projects[pid];
    assert (pid, u) in s.members <==> (pid, u) in t0.members;
    created := s.projects[pid].owner != u && (pid, u) !in s.members;
    if created {
      var ok := CreateMembership(s, pid, u, Editor);
      assert (order + [pid])[..|order|] == order;
    }
  }

  /**
   * The memberships the script leaves behind when the user exists: one in
   * every project the user does not own; every earlier membership with its
   * role (the user's own included); an `editor` row in each project it was
   * added to; and no new row of any other user.
   */
  lemma AddMeMemberships(t: Tables, u: UserId, order: seq<ProjectId>)
    requires Enumerates(order, Targets(t, u))
    ensures var r := AddAsEditor(t, u, order);
      && (forall p :: p in t.projects && t.projects[p].owner != u ==> (p, u) in r.members)
      && (forall k :: k in t.members ==> k in r.members && r.members[k] == t.members[k])
      && (forall p :: p in Targets(t, u) ==> r.members[(p, u)] == Editor)
      && (forall k :: k in r.members && k.1 != u ==> k in t.members)
      && (forall p :: p in t.projects && t.projects[p].owner == u ==> ((p, u) in r.members <==> (p, u) in t.members))
  {
    AddAsEditorMembers(t, u, order);
    var r := AddAsEditor(t, u, order);
    forall p | p in t.projects && t.projects[p].owner != u ensures (p, u) in r.members {
      if (p, u) !in t.members {
        assert p in Targets(t, u);
      }
    }
    forall k | k in t.members ensures k in r.members && r.members[k] == t.members[k] {
      assert k.0 in order ==> k.0 in Targets(t, u);
    }
  }

  /**
   * The count and the log when the user exists: `added` equals the number
   * of projects in `Targets`, and each addition notifies the user once with
   * a `member_added` notification.
   */
  lemma AddMeCountAndLog(t: Tables, u: UserId, order: seq<ProjectId>)
    requires Enumerates(order, Targets(t, u))
    ensures |order| == |Targets(t, u)|
    ensures var r := AddAsEditor(t, u, order);
      && |r.notifications| == |t.notifications| + |Targets(t, u)|
      && r.notifications[..|t.notifications|] == t.notifications
      && (forall k :: |t.notifications| <= k < |r.notifications| ==>
            r.notifications[k].user == u && r.notifications[k].kind == NotificationType.MemberAdded)
  {
    EnumerationSize(order, Targets(t, u));
    assert forall k :: 0 <= k < |order| ==> order[k] in Targets(t, u);
    AddAsEditorLogs(t, u, order);
    var r := AddAsEditor(t, u, order);
    forall k | |t.notifications| <= k < |r.notifications|
      ensures r.notifications[k].user == u && r.notifications[k].kind == NotificationType.MemberAdded
    {
      var j := k - |t.notifications|;
      assert r.notifications[|t.notifications| + j] == Signals.MemberAddedNote(order[j], t.projects[order[j]], u, Editor);
    }
  }
}
