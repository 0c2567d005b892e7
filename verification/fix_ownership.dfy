/**
 * The reconciliation script fix_ownership.py: the user with a given
 * username becomes the owner field of every project, and gets an
 * `owner`-role membership in each one (created if missing, upgraded if it
 * held another role). The owner field is saved before the membership is
 * created, so the membership handler sees its user as the owner and logs
 * nothing. A missing username changes nothing.
 */
module FixOwnership {
  import opened Models
  import opened Store
  import opened Permissions
  import opened Enumeration
  import opened Orm

  /**
   * The tables after `u` has taken over each project of `order`, in that
   * order: the owner field becomes `u` and `u`'s membership becomes
   * `owner` (an id that names no project is passed over).
   */
  function TakeOver(t: Tables, u: UserId, order: seq<ProjectId>): (r: Tables)
    ensures r.(projects := t.projects, members := t.members) == t
    ensures r.projects.Keys == t.projects.Keys
    decreases |order|
  {
    if order == [] then t
    else
      var prev := TakeOver(t, u, order[..|order| - 1]);
      var pid := order[|order| - 1];
      if pid in prev.projects then
        prev.(projects := prev.projects[pid := prev.projects[pid].(owner := u)],
              members := prev.members[(pid, u) := Owner])
      else prev
  }

  /** Each project taken over keeps everything but its owner field; the others are unchanged. */
  lemma {:induction false} TakeOverProjects(t: Tables, u: UserId, order: seq<ProjectId>)
    ensures var r := TakeOver(t, u, order);
      forall p :: p in r.projects ==> r.projects[p] == if p in order then t.projects[p].(owner := u) else t.projects[p]
    decreases |order|
  {
    if order != [] {
      var init, pid := order[..|order| - 1], order[|order| - 1];
      TakeOverProjects(t, u, init);
      assert forall p :: p in order <==> p in init || p == pid;
      var prev := TakeOver(t, u, init);
      if pid in prev.projects {
        assert TakeOver(t, u, order).projects == prev.projects[pid := prev.projects[pid].(owner := u)];
      } else {
        assert TakeOver(t, u, order) == prev;
      }
    }
  }

  /** After taking over, `u` holds an `owner` row in each project taken over; every other row is as it was. */
  lemma {:induction false} TakeOverMembers(t: Tables, u: UserId, order: seq<ProjectId>)
    ensures var r := TakeOver(t, u, order);
      && (forall k :: k in r.members <==> k in t.members || (k.1 == u && k.0 in order && k.0 in t.projects))
      && (forall k :: k in r.members ==>
            r.members[k] == if k.1 == u && k.0 in order && k.0 in t.projects then Owner else t.members[k])
    decreases |order|
  {
    if order != [] {
      var init, pid := order[..|order| - 1], order[|order| - 1];
      TakeOverMembers(t, u, init);
      assert forall p :: p in order <==> p in init || p == pid;
      var prev := TakeOver(t, u, init);
      if pid in prev.projects {
        assert TakeOver(t, u, order).members == prev.members[(pid, u) := Owner];
      } else {
        assert TakeOver(t, u, order) == prev;
      }
    }
  }

  /** Rewriting a row with the value it holds leaves the table as it was. */
  lemma RewriteSameRole(m: MemberTable, k: (ProjectId, UserId))
    requires k in m
    ensures m[k := m[k]] == m
  {
  }

  /** One pass of the loop body extends the enumeration of the projects visited. */
  lemma VisitStep(order: seq<ProjectId>, done: set<ProjectId>, pid: ProjectId)
    requires Enumerates(order, done) && pid !in done
    ensures Enumerates(order + [pid], done + {pid})
  {
    EnumeratesSnoc(order, done, pid);
  }

  /**
   * The script: look the user up by name; on a miss nothing changes.
   * Otherwise every project is visited once, in an unspecified order.
   */
  method FixOwnership(s: Database, username: string) returns (found: bool, ghost order: seq<ProjectId>)
    requires s.Valid()
    modifies s
    ensures s.Valid()
    ensures found <==> UserByName(old(s.users), username).Some?
    ensures !found ==> s.State() == old(s.State())
    ensures found ==>
      && Enumerates(order, old(s.projects).Keys)
      && s.State() == TakeOver(old(s.State()), UserByName(old(s.users), username).value, order)
  {
    var who := UserByName(s.users, username);
    if who.None? {
      return false, [];
    }
    found := true;
    order := TakeOverAll(s, who.value);
  }

  /** The `for project in all_projects` loop, for an existing user `u`. */
  method TakeOverAll(s: Database, u: UserId) returns (ghost order: seq<ProjectId>)
    requires s.Valid() && u in s.users
    modifies s
    ensures s.Valid()
    ensures Enumerates(order, old(s.projects).Keys)
    ensures s.State() == TakeOver(old(s.State()), u, order)
  {
    ghost var t0 := s.State();
    order := [];
    var remaining := s.projects.Keys;
    ghost var done: set<ProjectId> := {};
    while remaining != {}
      invariant s.Valid()
      invariant remaining <= t0.projects.Keys && done == t0.projects.Keys - remaining
      invariant Enumerates(order, done)
      invariant s.State() == TakeOver(t0, u, order)
      decreases |remaining|
    {
      var pid :| pid in remaining;
      TakeOne(t0.projects.Keys, remaining, done, pid);
      VisitStep(order, done, pid);
      TakeOverProject(s, t0, u, pid, order);
      order := order + [pid];
      done := done + {pid};
      remaining := remaining - {pid};
    }
    assert done == t0.projects.Keys;
  }

  /**
   * The loop body for one project: `project.owner = user; project.save()`,
   * then `get_or_create` of the membership with role `owner`, and an
   * upgrade to `owner` when the row existed with another role.
   */
  method TakeOverProject(s: Database, ghost t0: Tables, u: UserId, pid: ProjectId, ghost order: seq<ProjectId>)
    requires s.Valid() && u in s.users && pid in t0.projects
    requires s.State() == TakeOver(t0, u, order)
    modifies s
    ensures s.Valid()
    ensures s.State() == TakeOver(t0, u, order + [pid])
  {
    ghost var prev := s.State();
    var p := s.projects[pid];
    ghost var goal := prev.(projects := prev.projects[pid := p.(owner := u)],
                            members := prev.members[(pid, u) := Owner]);
    assert TakeOver(t0, u, order + [pid]) == goal by {
      assert (order + [pid])[..|order|] == order;
    }
    SaveProject(s, pid, p.(owner := u));
    if (pid, u) !in s.members {
      var ok := CreateMembership(s, pid, u, Owner);
      OwnerMembershipIsSilent(old(s.State()).(projects := goal.projects), pid, Owner);
    } else if s.members[(pid, u)] != Owner {
      SaveMembershipRole(s, pid, u, Owner);
    } else {
      RewriteSameRole(s.members, (pid, u));
    }
  }

  /**
   * What the script leaves behind when the user exists: every project's
   * owner field is the user and nothing else about the project changed;
   * the user holds an `owner` row in every project; every other user's rows
   * are as they were; and nothing is logged.
   */
  lemma FixOwnershipOutcome(t: Tables, u: UserId, order: seq<ProjectId>)
    requires Enumerates(order, t.projects.Keys)
    ensures var r := TakeOver(t, u, order);
      && r.projects.Keys == t.projects.Keys
      && (forall p :: p in r.projects ==> r.projects[p] == t.projects[p].(owner := u))
      && (forall p :: p in t.projects ==> (p, u) in r.members && r.members[(p, u)] == Owner)
      && (forall k: (ProjectId, UserId) :: k.1 != u ==> (k in r.members <==> k in t.members))
      && (forall k: (ProjectId, UserId) :: k.1 != u && k in t.members ==> r.members[k] == t.members[k])
      && r.notifications == t.notifications && r.activities == t.activities
  {
    TakeOverProjects(t, u, order);
    TakeOverMembers(t, u, order);
  }

  /**
   * The previous owner field holder keeps its `owner`-role membership, so
   * it keeps view and edit access, but it loses manage access; the user
   * gains all three.
   */
  lemma PreviousOwnerDemoted(t: Tables, u: UserId, order: seq<ProjectId>, pid: ProjectId)
    requires Enumerates(order, t.projects.Keys)
    requires pid in t.projects && t.projects[pid].owner != u
    requires GetUserRole(t.members, t.projects[pid].owner, pid) == Some(Owner)
    ensures var r := TakeOver(t, u, order); var prev := t.projects[pid].owner;
      && pid in r.projects
      && HasEditAccess(r.members, prev, pid) && !HasManageAccess(prev, r.projects[pid])
      && HasEditAccess(r.members, u, pid) && HasManageAccess(u, r.projects[pid])
  {
    FixOwnershipOutcome(t, u, order);
  }
}
