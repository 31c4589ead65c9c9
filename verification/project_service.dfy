/** The project service of the back end
    (CSpacebackend/src/main/java/com/Dhruv/service/ProjectServiceImpl.java):
    creating, reading, patching and deleting projects, the team and chat
    membership rules, and the category and tag filters over project lists.
    A user lookup that finds no user throws a user exception. */
module ProjectService {
  import opened Wrappers
  import opened Seqs
  import opened Store

  /** The fields a client sends for a new or updated project; each may be null. */
  datatype ProjectFields = ProjectFields(
    name: Option<string>,
    description: Option<string>,
    category: Option<string>,
    tags: Option<seq<string>>)

  /** Team and chat stay in step: neither repeats a user, and every chat
      user is on the team. */
  predicate TeamInvariant(p: Project) {
    NoDuplicates(p.team) && NoDuplicates(p.chatUsers) && forall u :: u in p.chatUsers ==> u in p.team
  }

  // ---------------------------------------------------------------- create

  /** The project `createProject` builds and returns: the creator owns it and
      is its only team member, the four fields are copied from the request,
      and the new chat has no users yet. */
  function NewProject(id: int, fields: ProjectFields, userId: int): (p: Project)
    ensures p.id == id && p.owner == Some(userId)
    ensures p.name == fields.name && p.description == fields.description
    ensures p.category == fields.category && p.tags == fields.tags
    ensures userId in p.team && p.chatUsers == []
    ensures TeamInvariant(p)
  {
    Project(id, fields.name, fields.description, fields.category, fields.tags, Some(userId), [userId], [])
  }

  /** The project as the code builds it: the creator is added to the team
      before the save and once more after it. */
  function NewProjectAsWritten(id: int, fields: ProjectFields, userId: int): (p: Project)
    ensures p.owner == Some(userId) && userId in p.team
  {
    var built := Project(id, fields.name, fields.description, fields.category, fields.tags, Some(userId), [userId], []);
    built.(team := built.team + [userId])
  }

  /** The team of the project as written lists its creator twice, so the
      team invariant fails from the start. */
  lemma NewProjectAsWrittenRepeatsCreator(id: int, fields: ProjectFields, userId: int)
    ensures NewProjectAsWritten(id, fields, userId).team == [userId, userId]
    ensures !TeamInvariant(NewProjectAsWritten(id, fields, userId))
  {
    var p := NewProjectAsWritten(id, fields, userId);
    assert p.team[0] == p.team[1];
  }

  /** `createProject`: the creator must exist; the new project is stored
      under a fresh id and returned. */
  method CreateProject(db: Database, fields: ProjectFields, userId: int) returns (r: Result<Project, ServiceError>)
    requires db.Valid()
    modifies db
    ensures db.Valid()
    ensures userId !in old(db.users) ==> r == Failure(UserNotFound(userId)) && unchanged(db)
    ensures userId in old(db.users) ==>
      && old(db.nextId) !in old(db.projects)
      && r == Success(NewProject(old(db.nextId), fields, userId))
      && db.projects == old(db.projects)[old(db.nextId) := r.value]
      && db.nextId == old(db.nextId) + 1
    ensures db.users == old(db.users) && db.requirements == old(db.requirements) && db.comments == old(db.comments)
  {
    if userId !in db.users {
      return Failure(UserNotFound(userId));
    }
    var id := db.nextId;
    var created := NewProject(id, fields, userId);
    db.projects := db.projects[id := created];
    db.nextId := id + 1;
    r := Success(created);
  }

  // ---------------------------------------------------------------- read

  /** `getProjectById`: the stored project, or a project exception. */
  method GetProjectById(db: Database, projectId: int) returns (r: Result<Project, ServiceError>)
    ensures projectId in db.projects ==> r == Success(db.projects[projectId])
    ensures projectId !in db.projects ==> r == Failure(ProjectNotFound(projectId))
  {
    if projectId in db.projects {
      r := Success(db.projects[projectId]);
    } else {
      r := Failure(ProjectNotFound(projectId));
    }
  }

  // ---------------------------------------------------------------- delete

  /** `deleteProject`: any existing user may delete any project (there is no
      ownership check); an unknown user gets a user exception and nothing is
      deleted. Deleting an id that is not stored changes nothing. */
  method DeleteProject(db: Database, projectId: int, userId: int) returns (r: Result<string, ServiceError>)
    modifies db
    ensures userId !in old(db.users) ==> r == Failure(UserNotFound(userId)) && unchanged(db)
    ensures userId in old(db.users) ==>
      r == Success("project deleted") && db.projects == old(db.projects) - {projectId}
    ensures db.users == old(db.users) && db.requirements == old(db.requirements)
    ensures db.comments == old(db.comments) && db.nextId == old(db.nextId)
  {
    if userId !in db.users {
      return Failure(UserNotFound(userId));
    }
    db.projects := db.projects - {projectId};
    r := Success("project deleted");
  }

  // ---------------------------------------------------------------- update

  /** The patch `updateProject` applies: each non-null field of the update
      replaces the stored one, a null field keeps it, and the id, owner, team
      and chat are never touched. */
  function PatchProject(p: Project, u: ProjectFields): (q: Project)
    ensures q.name == (if u.name.Some? then u.name else p.name)
    ensures q.description == (if u.description.Some? then u.description else p.description)
    ensures q.tags == (if u.tags.Some? then u.tags else p.tags)
    ensures q.category == (if u.category.Some? then u.category else p.category)
    ensures q.id == p.id && q.owner == p.owner && q.team == p.team && q.chatUsers == p.chatUsers
  {
    var p1 := if u.name.Some? then p.(name := u.name) else p;
    var p2 := if u.description.Some? then p1.(description := u.description) else p1;
    var p3 := if u.tags.Some? then p2.(tags := u.tags) else p2;
    if u.category.Some? then p3.(category := u.category) else p3
  }

  /** An update whose fields are all null changes nothing. */
  lemma PatchNothing(p: Project)
    ensures PatchProject(p, ProjectFields(None, None, None, None)) == p
  {
  }

  /** Sending the same update twice has the effect of sending it once. */
  lemma PatchIdempotent(p: Project, u: ProjectFields)
    ensures PatchProject(PatchProject(p, u), u) == PatchProject(p, u)
  {
  }

  /** A patch leaves the team and chat as they were, so it keeps the invariant. */
  lemma PatchKeepsTeamInvariant(p: Project, u: ProjectFields)
    requires TeamInvariant(p)
    ensures TeamInvariant(PatchProject(p, u))
  {
  }

  /** `updateProject`: the user is looked up first, then the project; the
      patched project is stored and returned. */
  method UpdateProject(db: Database, update: ProjectFields, projectId: int, userId: int)
    returns (r: Result<Project, ServiceError>)
    modifies db
    ensures userId !in old(db.users) ==> r == Failure(UserNotFound(userId)) && unchanged(db)
    ensures userId in old(db.users) && projectId !in old(db.projects) ==>
      r == Failure(ProjectNotFound(projectId)) && unchanged(db)
    ensures userId in old(db.users) && projectId in old(db.projects) ==>
      && r == Success(PatchProject(old(db.projects)[projectId], update))
      && db.projects == old(db.projects)[projectId := r.value]
    ensures db.users == old(db.users) && db.requirements == old(db.requirements)
    ensures db.comments == old(db.comments) && db.nextId == old(db.nextId)
  {
    if userId !in db.users {
      return Failure(UserNotFound(userId));
    }
    var found := GetProjectById(db, projectId);
    if found.Failure? {
      return Failure(found.error);
    }
    var patched := PatchProject(found.value, update);
    db.projects := db.projects[projectId := patched];
    r := Success(patched);
  }

  // ---------------------------------------------------------------- team

  /** `addUserToProject` on one project: a user not yet on the team joins
      both the chat and the team, at the end; a team member changes nothing. */
  function AddMember(p: Project, userId: int): (q: Project)
    ensures userId in q.team
    ensures userId in p.team ==> q == p
    ensures userId !in p.team ==> q == p.(team := p.team + [userId], chatUsers := p.chatUsers + [userId])
  {
    if userId in p.team then p
    else p.(chatUsers := p.chatUsers + [userId], team := p.team + [userId])
  }

  /** `removeUserFromProject` on one project: a team member leaves the team
      and the chat (their first occurrence in each); anyone else changes nothing. */
  function RemoveMember(p: Project, userId: int): (q: Project)
    ensures userId !in p.team ==> q == p
    ensures userId in p.team ==> q == p.(team := RemoveFirst(p.team, userId), chatUsers := RemoveFirst(p.chatUsers, userId))
  {
    if userId in p.team then p.(team := RemoveFirst(p.team, userId), chatUsers := RemoveFirst(p.chatUsers, userId))
    else p
  }

  /** Adding a user twice is the same as adding them once. */
  lemma AddMemberIdempotent(p: Project, userId: int)
    ensures AddMember(AddMember(p, userId), userId) == AddMember(p, userId)
  {
  }

  /** Adding keeps team and chat in step. */
  lemma {:induction false} AddMemberKeepsInvariant(p: Project, userId: int)
    requires TeamInvariant(p)
    ensures TeamInvariant(AddMember(p, userId))
  {
    if userId !in p.team {
      AppendNoDuplicates(p.team, userId);
      AppendNoDuplicates(p.chatUsers, userId);
    }
  }

  /** Removing keeps team and chat in step, and the user is then in neither. */
  lemma {:induction false} RemoveMemberKeepsInvariant(p: Project, userId: int)
    requires TeamInvariant(p)
    ensures TeamInvariant(RemoveMember(p, userId))
    ensures userId !in RemoveMember(p, userId).team && userId !in RemoveMember(p, userId).chatUsers
  {
    if userId in p.team {
      RemoveFirstNoDuplicates(p.team, userId);
      RemoveFirstNoDuplicates(p.chatUsers, userId);
    }
  }

  /** Adding a user who was not on the team and removing them again gives
      back the project exactly as it was. */
  lemma {:induction false} AddThenRemove(p: Project, userId: int)
    requires TeamInvariant(p) && userId !in p.team
    ensures RemoveMember(AddMember(p, userId), userId) == p
  {
    assert userId !in p.chatUsers;
    RemoveFirstAfterAppend(p.team, userId);
    RemoveFirstAfterAppend(p.chatUsers, userId);
  }

  /** `addUserToProject`: the project is looked up first, then the user. */
  method AddUserToProject(db: Database, projectId: int, userId: int) returns (r: Outcome<ServiceError>)
    modifies db
    ensures projectId !in old(db.projects) ==> r == Fail(ProjectNotFound(projectId)) && unchanged(db)
    ensures projectId in old(db.projects) && userId !in old(db.users) ==>
      r == Fail(UserNotFound(userId)) && unchanged(db)
    ensures projectId in old(db.projects) && userId in old(db.users) ==>
      r == Pass && db.projects == old(db.projects)[projectId := AddMember(old(db.projects)[projectId], userId)]
    ensures db.users == old(db.users) && db.requirements == old(db.requirements)
    ensures db.comments == old(db.comments) && db.nextId == old(db.nextId)
  {
    if projectId !in db.projects {
      return Fail(ProjectNotFound(projectId));
    }
    if userId !in db.users {
      return Fail(UserNotFound(userId));
    }
    var project := db.projects[projectId];
    if userId !in project.team {
      project := project.(chatUsers := project.chatUsers + [userId]);
      project := project.(team := project.team + [userId]);
      db.projects := db.projects[projectId := project];
    }
    r := Pass;
  }

  /** `removeUserFromProject`: the project is looked up first, then the user. */
  method RemoveUserFromProject(db: Database, projectId: int, userId: int) returns (r: Outcome<ServiceError>)
    modifies db
    ensures projectId !in old(db.projects) ==> r == Fail(ProjectNotFound(projectId)) && unchanged(db)
    ensures projectId in old(db.projects) && userId !in old(db.users) ==>
      r == Fail(UserNotFound(userId)) && unchanged(db)
    ensures projectId in old(db.projects) && userId in old(db.users) ==>
      r == Pass && db.projects == old(db.projects)[projectId := RemoveMember(old(db.projects)[projectId], userId)]
    ensures db.users == old(db.users) && db.requirements == old(db.requirements)
    ensures db.comments == old(db.comments) && db.nextId == old(db.nextId)
  {
    if projectId !in db.projects {
      return Fail(ProjectNotFound(projectId));
    }
    if userId !in db.users {
      return Fail(UserNotFound(userId));
    }
    var project := db.projects[projectId];
    if userId in project.team {
      project := project.(team := RemoveFirst(project.team, userId));
      project := project.(chatUsers := RemoveFirst(project.chatUsers, userId));
      db.projects := db.projects[projectId := project];
    }
    r := Pass;
  }

  // ---------------------------------------------------------------- lists

  function HasCategory(category: string): Project -> bool {
    (p: Project) => p.category == Some(category)
  }

  function HasTag(tag: string): Project -> bool {
    (p: Project) => p.tags.Some? && tag in p.tags.value
  }

  function InTeamOrOwned(userId: int): Project -> bool {
    (p: Project) => userId in p.team || p.owner == Some(userId)
  }

  /** Whether a project passes the optional category and tag constraints. */
  predicate Wanted(category: Option<string>, tag: Option<string>, p: Project) {
    (category.Some? ==> p.category == category)
    && (tag.Some? ==> p.tags.Some? && tag.value in p.tags.value)
  }

  /** The category pass: a null category keeps everything; otherwise the
      categories are compared exactly, and a project without a category
      makes the comparison throw. */
  function CategoryPass(ps: seq<Project>, category: Option<string>): (r: Result<seq<Project>, ServiceError>)
  {
    if category.None? then Success(ps)
    else if exists i :: 0 <= i < |ps| && ps[i].category.None? then Failure(NullField)
    else Success(Filter(ps, HasCategory(category.value)))
  }

  /** The tag pass: a null tag keeps everything; otherwise a project stays
      when its tag list contains the tag, and one without tags throws. */
  function TagPass(ps: seq<Project>, tag: Option<string>): (r: Result<seq<Project>, ServiceError>)
  {
    if tag.None? then Success(ps)
    else if exists i :: 0 <= i < |ps| && ps[i].tags.None? then Failure(NullField)
    else Success(Filter(ps, HasTag(tag.value)))
  }

  /** The category pass followed by the tag pass. */
  function Narrow(ps: seq<Project>, category: Option<string>, tag: Option<string>): (r: Result<seq<Project>, ServiceError>)
  {
    match CategoryPass(ps, category)
    case Failure(e) => Failure(e)
    case Success(qs) => TagPass(qs, tag)
  }

  /** The two passes keep exactly the wanted projects, in order, and can
      fail only on a missing category or tag list. */
  lemma {:induction false} NarrowExact(ps: seq<Project>, category: Option<string>, tag: Option<string>)
    ensures Narrow(ps, category, tag).Failure? ==> Narrow(ps, category, tag).error == NullField
    ensures Narrow(ps, category, tag).Success? ==>
      && IsSubsequence(Narrow(ps, category, tag).value, ps)
      && forall p :: p in Narrow(ps, category, tag).value <==> p in ps && Wanted(category, tag, p)
  {
    var c := CategoryPass(ps, category);
    if c.Success? {
      if category.Some? {
        FilterIsSubsequence(ps, HasCategory(category.value));
      } else {
        SubsequenceReflexive(ps);
      }
      assert forall p :: p in c.value <==> p in ps && (category.Some? ==> p.category == category);
      var t := TagPass(c.value, tag);
      if t.Success? {
        if tag.Some? {
          FilterIsSubsequence(c.value, HasTag(tag.value));
          SubsequenceTransitive(t.value, c.value, ps);
        }
      }
    }
  }

  /** When every project has a category and a tag list, the passes never throw. */
  lemma NarrowTotal(ps: seq<Project>, category: Option<string>, tag: Option<string>)
    requires forall i :: 0 <= i < |ps| ==> ps[i].category.Some? && ps[i].tags.Some?
    ensures Narrow(ps, category, tag).Success?
  {
    var c := CategoryPass(ps, category);
    assert c.Success?;
    forall i | 0 <= i < |c.value| ensures c.value[i].tags.Some? {
      assert c.value[i] in ps;
    }
  }

  /** With neither a category nor a tag every project is kept. */
  lemma NarrowNothing(ps: seq<Project>)
    ensures Narrow(ps, None, None) == Success(ps)
  {
  }

  /** `getAllProjects`: an empty repository throws; otherwise the two passes
      run over all projects, and an empty result is returned, not thrown. */
  function GetAllProjects(all: seq<Project>, category: Option<string>, tag: Option<string>): (r: Result<seq<Project>, ServiceError>)
    ensures r == Failure(NoProjectsAvailable) <==> all == []
  {
    if all == [] then Failure(NoProjectsAvailable)
    else
      NarrowExact(all, category, tag);
      Narrow(all, category, tag)
  }

  /** `getProjectsByTeam`: the projects the user is on the team of or owns,
      narrowed by the same two passes; an empty result is returned, never
      thrown. */
  function GetProjectsByTeam(all: seq<Project>, userId: int, category: Option<string>, tag: Option<string>): (r: Result<seq<Project>, ServiceError>)
    ensures r.Failure? ==> r.error == NullField
    ensures r.Success? ==> forall p :: p in r.value <==>
      p in all && (userId in p.team || p.owner == Some(userId)) && Wanted(category, tag, p)
  {
    var mine := Filter(all, InTeamOrOwned(userId));
    NarrowExact(mine, category, tag);
    Narrow(mine, category, tag)
  }

  /** `getProjectsByTeam` has no empty-repository check: nothing in the
      repository gives an empty list, projects that all carry a category
      and a tag list never make it throw, and what it returns keeps
      repository order. */
  lemma {:induction false} GetProjectsByTeamExact(all: seq<Project>, userId: int, category: Option<string>, tag: Option<string>)
    ensures all == [] ==> GetProjectsByTeam(all, userId, category, tag) == Success([])
    ensures (forall i :: 0 <= i < |all| ==> all[i].category.Some? && all[i].tags.Some?)
      ==> GetProjectsByTeam(all, userId, category, tag).Success?
    ensures GetProjectsByTeam(all, userId, category, tag).Success? ==>
      IsSubsequence(GetProjectsByTeam(all, userId, category, tag).value, all)
  {
    var mine := Filter(all, InTeamOrOwned(userId));
    FilterIsSubsequence(all, InTeamOrOwned(userId));
    NarrowExact(mine, category, tag);
    var r := Narrow(mine, category, tag);
    if r.Success? {
      SubsequenceTransitive(r.value, mine, all);
    }
    if all == [] {
      assert mine == [];
      NarrowNothing(mine);
      assert r.Success? && r.value == [] by {
        assert forall p :: p in r.value ==> p in mine;
      }
    }
    if forall i :: 0 <= i < |all| ==> all[i].category.Some? && all[i].tags.Some? {
      forall i | 0 <= i < |mine| ensures mine[i].category.Some? && mine[i].tags.Some? {
        assert mine[i] in all;
      }
      NarrowTotal(mine, category, tag);
    }
  }

  /** The projects `getAllProjects` returns are exactly the wanted ones, in
      repository order. */
  lemma {:induction false} GetAllProjectsExact(all: seq<Project>, category: Option<string>, tag: Option<string>)
    requires GetAllProjects(all, category, tag).Success?
    ensures IsSubsequence(GetAllProjects(all, category, tag).value, all)
    ensures forall p :: p in GetAllProjects(all, category, tag).value <==> p in all && Wanted(category, tag, p)
  {
    NarrowExact(all, category, tag);
  }

  /** A non-empty repository whose projects all have a category and tags
      never throws, even when nothing matches. */
  lemma {:induction false} GetAllProjectsNoMatchIsEmpty(all: seq<Project>, category: Option<string>, tag: Option<string>)
    requires all != []
    requires forall i :: 0 <= i < |all| ==> all[i].category.Some? && all[i].tags.Some?
    requires forall i :: 0 <= i < |all| ==> !Wanted(category, tag, all[i])
    ensures GetAllProjects(all, category, tag) == Success([])
  {
    NarrowTotal(all, category, tag);
    NarrowExact(all, category, tag);
  }
}
