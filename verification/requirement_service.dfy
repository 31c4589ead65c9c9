/** The requirement service of the back end
    (CSpacebackend/src/main/java/com/Dhruv/service/RequirementServiceImpl.java):
    the list of other owners' requirements, look-up, creation, partial update,
    deletion, assignment and status change. The e-mail sent on assignment is
    not modelled. */
module RequirementService {
  import opened Wrappers
  import opened Seqs
  import opened Store
  import RequirementRepository

  /** The request body for creating or updating a requirement; `userId` is
      the assignee named by an update. */
  datatype RequirementRequest = RequirementRequest(
    title: Option<string>,
    description: Option<string>,
    status: Option<string>,
    priority: Option<string>,
    dueDate: Option<int>,
    projectId: int,
    userId: int)

  // ---------------------------------------------------------------- list

  /** The requirement belongs to a project that has an owner, and that
      owner is not the given user. */
  predicate OwnedByOther(projects: map<int, Project>, userId: int, r: Requirement) {
    r.project.Some? && r.project.value in projects
    && projects[r.project.value].owner.Some? && projects[r.project.value].owner.value != userId
  }

  function OthersOnly(projects: map<int, Project>, userId: int): Requirement -> bool {
    (r: Requirement) => OwnedByOther(projects, userId, r)
  }

  /** `getAllRequirementsExceptUser`: an empty table throws; otherwise the
      requirements of projects owned by someone else, in order. */
  function GetAllRequirementsExceptUser(all: seq<Requirement>, projects: map<int, Project>, userId: int)
    : (r: Result<seq<Requirement>, ServiceError>)
    ensures r.Failure? <==> all == []
    ensures r.Failure? ==> r.error == NoRequirementsFound
    ensures r.Success? ==> forall q :: q in r.value <==> q in all && OwnedByOther(projects, userId, q)
  {
    if all == [] then Failure(NoRequirementsFound)
    else Success(Filter(all, OthersOnly(projects, userId)))
  }

  /** The list keeps the table's order, and a user never sees a requirement
      of a project they own. */
  lemma {:induction false} ExceptUserNeverOwn(all: seq<Requirement>, projects: map<int, Project>, userId: int, q: Requirement)
    requires all != []
    ensures IsSubsequence(GetAllRequirementsExceptUser(all, projects, userId).value, all)
    ensures q.project.Some? && q.project.value in projects && projects[q.project.value].owner == Some(userId)
      ==> q !in GetAllRequirementsExceptUser(all, projects, userId).value
  {
    FilterIsSubsequence(all, OthersOnly(projects, userId));
  }

  // ---------------------------------------------------------------- read

  /** `getRequirementById`: the stored requirement, or a requirement exception. */
  method GetRequirementById(db: Database, requirementId: int) returns (r: Result<Requirement, ServiceError>)
    ensures requirementId in db.requirements ==> r == Success(db.requirements[requirementId])
    ensures requirementId !in db.requirements ==> r == Failure(RequirementNotFound(requirementId))
  {
    if requirementId in db.requirements {
      r := Success(db.requirements[requirementId]);
    } else {
      r := Failure(RequirementNotFound(requirementId));
    }
  }

  // ---------------------------------------------------------------- create

  /** The requirement `createRequirement` saves: title, description, status,
      project id, priority and due date from the request, linked to the
      project, with no assignee and no comments. */
  function NewRequirement(id: int, request: RequirementRequest): (r: Requirement)
    ensures r.id == id && r.title == request.title && r.description == request.description
    ensures r.status == request.status && r.priority == request.priority && r.dueDate == request.dueDate
    ensures r.projectId == Some(request.projectId) && r.project == Some(request.projectId)
    ensures r.assignee.None? && r.comments == []
  {
    Requirement(id, request.title, request.description, request.status, request.priority,
                request.dueDate, Some(request.projectId), Some(request.projectId), None, [])
  }

  /** A new requirement is found by its project. */
  lemma {:induction false} NewRequirementFoundByProject(all: seq<Requirement>, id: int, request: RequirementRequest)
    ensures NewRequirement(id, request) in RequirementRepository.FindByProjectId(all + [NewRequirement(id, request)], request.projectId)
  {
    assert NewRequirement(id, request) in all + [NewRequirement(id, request)];
  }

  /** `createRequirement`: the calling user is checked first, then the
      project; the new requirement is stored under a fresh id and returned. */
  method CreateRequirement(db: Database, request: RequirementRequest, userId: int) returns (r: Result<Requirement, ServiceError>)
    requires db.Valid()
    modifies db
    ensures db.Valid()
    ensures userId !in old(db.users) ==> r == Failure(UserNotFound(userId)) && unchanged(db)
    ensures userId in old(db.users) && request.projectId !in old(db.projects) ==>
      r == Failure(ProjectNotFound(request.projectId)) && unchanged(db)
    ensures userId in old(db.users) && request.projectId in old(db.projects) ==>
      && old(db.nextId) !in old(db.requirements)
      && r == Success(NewRequirement(old(db.nextId), request))
      && db.requirements == old(db.requirements)[old(db.nextId) := r.value]
      && db.nextId == old(db.nextId) + 1
    ensures db.users == old(db.users) && db.projects == old(db.projects) && db.comments == old(db.comments)
  {
    if userId !in db.users {
      return Failure(UserNotFound(userId));
    }
    if request.projectId !in db.projects {
      return Failure(ProjectNotFound(request.projectId));
    }
    var id := db.nextId;
    var created := NewRequirement(id, request);
    db.requirements := db.requirements[id := created];
    db.nextId := id + 1;
    r := Success(created);
  }

  // ---------------------------------------------------------------- update

  /** The patch `updateRequirement` applies: each non-null description, due
      date, priority, status and title replaces the stored one. The assignee,
      the project link, the project-id column and the comments never change,
      even though the request names an assignee and a project. */
  function PatchRequirement(r: Requirement, u: RequirementRequest): (q: Requirement)
    ensures q.description == (if u.description.Some? then u.description else r.description)
    ensures q.dueDate == (if u.dueDate.Some? then u.dueDate else r.dueDate)
    ensures q.priority == (if u.priority.Some? then u.priority else r.priority)
    ensures q.status == (if u.status.Some? then u.status else r.status)
    ensures q.title == (if u.title.Some? then u.title else r.title)
    ensures q.id == r.id && q.assignee == r.assignee && q.project == r.project
    ensures q.projectId == r.projectId && q.comments == r.comments
  {
    var r1 := if u.description.Some? then r.(description := u.description) else r;
    var r2 := if u.dueDate.Some? then r1.(dueDate := u.dueDate) else r1;
    var r3 := if u.priority.Some? then r2.(priority := u.priority) else r2;
    var r4 := if u.status.Some? then r3.(status := u.status) else r3;
    if u.title.Some? then r4.(title := u.title) else r4
  }

  /** An update that carries no field leaves the requirement as it was,
      whatever assignee and project it names. */
  lemma PatchRequirementNothing(r: Requirement, projectId: int, userId: int)
    ensures PatchRequirement(r, RequirementRequest(None, None, None, None, None, projectId, userId)) == r
  {
  }

  /** Sending the same update twice has the effect of sending it once. */
  lemma PatchRequirementIdempotent(r: Requirement, u: RequirementRequest)
    ensures PatchRequirement(PatchRequirement(r, u), u) == PatchRequirement(r, u)
  {
  }

  /** `updateRequirement`: the checks run in the order caller, requirement,
      project, assignee; only then is the patch stored and returned. */
  method UpdateRequirement(db: Database, requirementId: int, request: RequirementRequest, userId: int)
    returns (r: Result<Requirement, ServiceError>)
    modifies db
    ensures userId !in old(db.users) ==> r == Failure(UserNotFound(userId)) && unchanged(db)
    ensures userId in old(db.users) && requirementId !in old(db.requirements) ==>
      r == Failure(RequirementNotFound(requirementId)) && unchanged(db)
    ensures (userId in old(db.users) && requirementId in old(db.requirements)
      && request.projectId !in old(db.projects)) ==>
      r == Failure(ProjectNotFound(request.projectId)) && unchanged(db)
    ensures (userId in old(db.users) && requirementId in old(db.requirements)
      && request.projectId in old(db.projects) && request.userId !in old(db.users)) ==>
      r == Failure(UserNotFound(request.userId)) && unchanged(db)
    ensures (userId in old(db.users) && requirementId in old(db.requirements)
      && request.projectId in old(db.projects) && request.userId in old(db.users)) ==>
      && r == Success(PatchRequirement(old(db.requirements)[requirementId], request))
      && db.requirements == old(db.requirements)[requirementId := r.value]
    ensures db.users == old(db.users) && db.projects == old(db.projects)
    ensures db.comments == old(db.comments) && db.nextId == old(db.nextId)
  {
    if userId !in db.users {
      return Failure(UserNotFound(userId));
    }
    if requirementId !in db.requirements {
      return Failure(RequirementNotFound(requirementId));
    }
    if request.projectId !in db.projects {
      return Failure(ProjectNotFound(request.projectId));
    }
    if request.userId !in db.users {
      return Failure(UserNotFound(request.userId));
    }
    var patched := PatchRequirement(db.requirements[requirementId], request);
    db.requirements := db.requirements[requirementId := patched];
    r := Success(patched);
  }

  // ---------------------------------------------------------------- delete

  /** `deleteRequirement`: the caller is checked, then the requirement; on
      success the id is no longer stored. */
  method DeleteRequirement(db: Database, requirementId: int, userId: int) returns (r: Result<int, ServiceError>)
    modifies db
    ensures userId !in old(db.users) ==> r == Failure(UserNotFound(userId)) && unchanged(db)
    ensures userId in old(db.users) && requirementId !in old(db.requirements) ==>
      r == Failure(RequirementNotFound(requirementId)) && unchanged(db)
    ensures userId in old(db.users) && requirementId in old(db.requirements) ==>
      r == Success(requirementId) && db.requirements == old(db.requirements) - {requirementId}
    ensures requirementId !in db.requirements <==> r.Success? || requirementId !in old(db.requirements)
    ensures db.users == old(db.users) && db.projects == old(db.projects)
    ensures db.comments == old(db.comments) && db.nextId == old(db.nextId)
  {
    if userId !in db.users {
      return Failure(UserNotFound(userId));
    }
    var found := GetRequirementById(db, requirementId);
    if found.Failure? {
      return Failure(found.error);
    }
    db.requirements := db.requirements - {requirementId};
    r := Success(requirementId);
  }

  // ---------------------------------------------------------------- assign

  /** `addUserToRequirement`: the user is looked up first, then the
      requirement; the user becomes its assignee. */
  method AddUserToRequirement(db: Database, requirementId: int, userId: int) returns (r: Result<Requirement, ServiceError>)
    modifies db
    ensures userId !in old(db.users) ==> r == Failure(UserNotFound(userId)) && unchanged(db)
    ensures userId in old(db.users) && requirementId !in old(db.requirements) ==>
      r == Failure(RequirementNotFound(requirementId)) && unchanged(db)
    ensures userId in old(db.users) && requirementId in old(db.requirements) ==>
      && r == Success(old(db.requirements)[requirementId].(assignee := Some(userId)))
      && db.requirements == old(db.requirements)[requirementId := r.value]
    ensures db.users == old(db.users) && db.projects == old(db.projects)
    ensures db.comments == old(db.comments) && db.nextId == old(db.nextId)
  {
    if userId !in db.users {
      return Failure(UserNotFound(userId));
    }
    var found := GetRequirementById(db, requirementId);
    if found.Failure? {
      return Failure(found.error);
    }
    var withAssignee := found.value.(assignee := Some(userId));
    db.requirements := db.requirements[requirementId := withAssignee];
    r := Success(withAssignee);
  }

  /** Once assigned, a requirement is among those `findByAssigneeId` returns
      for the user, in place of the row it replaced. */
  lemma {:induction false} AssignedFoundByAssignee(before: seq<Requirement>, after: seq<Requirement>, i: nat, userId: int)
    requires i < |before| && |after| == |before|
    requires after[i] == before[i].(assignee := Some(userId))
    ensures after[i] in RequirementRepository.FindByAssigneeId(after, userId)
  {
    assert after[i] in after;
  }

  // ---------------------------------------------------------------- status

  /** `updateStatus`: a missing requirement throws; otherwise only its
      status changes. */
  method UpdateStatus(db: Database, requirementId: int, status: Option<string>) returns (r: Result<Requirement, ServiceError>)
    modifies db
    ensures requirementId !in old(db.requirements) ==>
      r == Failure(RequirementNotFound(requirementId)) && unchanged(db)
    ensures requirementId in old(db.requirements) ==>
      && r == Success(old(db.requirements)[requirementId].(status := status))
      && db.requirements == old(db.requirements)[requirementId := r.value]
    ensures db.users == old(db.users) && db.projects == old(db.projects)
    ensures db.comments == old(db.comments) && db.nextId == old(db.nextId)
  {
    if requirementId !in db.requirements {
      return Failure(RequirementNotFound(requirementId));
    }
    var updated := db.requirements[requirementId].(status := status);
    db.requirements := db.requirements[requirementId := updated];
    r := Success(updated);
  }

  /** After a status change the requirement is found by a search for that
      status alone. */
  lemma StatusChangeFoundBySearch(r: Requirement, status: string)
    ensures RequirementRepository.SearchMatch(
      RequirementRepository.SearchParams(None, Some(status), None, None), r.(status := Some(status)))
  {
  }
}
