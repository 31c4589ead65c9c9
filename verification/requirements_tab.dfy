/** The requirements tab of a project page
    (CSpaceFrontEnd/CSpace-app/src/components/RequirementsTab.js): whether
    the signed-in user owns the project, and the split of the project's
    requirements into an open and a closed list. */
module RequirementsTab {
  import opened Wrappers
  import opened Seqs

  datatype User = User(id: int)

  /** The `project` prop; its owner may be missing. */
  datatype ProjectInfo = ProjectInfo(id: int, owner: Option<User>)

  datatype TabRequirement = TabRequirement(id: int, title: string, status: string)

  /** The `requirements` prop: an array, or any other value (null, an object).
      A missing prop takes the default `[]`, an array. */
  datatype RequirementsProp = ArrayValue(items: seq<TabRequirement>) | NonArray

  /** `isOwner`: a user is signed in, the project and its owner are known,
      and the two ids are equal. */
  predicate IsOwner(user: Option<User>, project: Option<ProjectInfo>) {
    user.Some? && project.Some? && project.value.owner.Some? && user.value.id == project.value.owner.value.id
  }

  /** `isOwner` holds for exactly one owner id: the signed-in user's. */
  lemma IsOwnerExactly(user: Option<User>, project: Option<ProjectInfo>)
    ensures IsOwner(user, project) <==>
      exists id :: user == Some(User(id)) && project.Some? && project.value.owner == Some(User(id))
  {
    if IsOwner(user, project) {
      var id := user.value.id;
      assert user == Some(User(id));
      assert project.value.owner == Some(User(id));
    }
  }

  /** `safeRequirements`: anything but an array counts as no requirements. */
  function SafeRequirements(requirements: RequirementsProp): (r: seq<TabRequirement>)
    ensures requirements.NonArray? ==> r == []
    ensures requirements.ArrayValue? ==> r == requirements.items
  {
    if requirements.ArrayValue? then requirements.items else []
  }

  predicate IsOpen(r: TabRequirement) {
    r.status == "OPEN"
  }

  predicate IsClosed(r: TabRequirement) {
    r.status == "CLOSED"
  }

  function OpenRequirements(requirements: RequirementsProp): seq<TabRequirement> {
    Filter(SafeRequirements(requirements), IsOpen)
  }

  function ClosedRequirements(requirements: RequirementsProp): seq<TabRequirement> {
    Filter(SafeRequirements(requirements), IsClosed)
  }

  /** The open list holds exactly the requirements with status OPEN and the
      closed list exactly those with status CLOSED, each in the original order. */
  lemma {:induction false} ListsExact(requirements: RequirementsProp, r: TabRequirement)
    ensures r in OpenRequirements(requirements) <==> r in SafeRequirements(requirements) && r.status == "OPEN"
    ensures r in ClosedRequirements(requirements) <==> r in SafeRequirements(requirements) && r.status == "CLOSED"
    ensures IsSubsequence(OpenRequirements(requirements), SafeRequirements(requirements))
    ensures IsSubsequence(ClosedRequirements(requirements), SafeRequirements(requirements))
  {
    var safe := SafeRequirements(requirements);
    if r in safe {
      var i :| 0 <= i < |safe| && safe[i] == r;
      assert IsOpen(safe[i]) ==> safe[i] in Filter(safe, IsOpen);
      assert IsClosed(safe[i]) ==> safe[i] in Filter(safe, IsClosed);
    }
    FilterIsSubsequence(safe, IsOpen);
    FilterIsSubsequence(safe, IsClosed);
  }

  /** No requirement is in both lists, the two together are no longer than
      the whole list, and they make up the whole list exactly when every
      status is OPEN or CLOSED; any other status is in neither. */
  lemma {:induction false} ListsPartition(requirements: RequirementsProp)
    ensures forall r :: r in OpenRequirements(requirements) ==> r !in ClosedRequirements(requirements)
    ensures |OpenRequirements(requirements)| + |ClosedRequirements(requirements)| <= |SafeRequirements(requirements)|
    ensures (forall i :: 0 <= i < |SafeRequirements(requirements)| ==> SafeRequirements(requirements)[i].status in {"OPEN", "CLOSED"})
      ==> |OpenRequirements(requirements)| + |ClosedRequirements(requirements)| == |SafeRequirements(requirements)|
    ensures forall r: TabRequirement :: r.status != "OPEN" && r.status != "CLOSED" ==>
      r !in OpenRequirements(requirements) && r !in ClosedRequirements(requirements)
  {
    var safe := SafeRequirements(requirements);
    FilterDisjointLength(safe, IsOpen, IsClosed);
    forall r | r in OpenRequirements(requirements) ensures r !in ClosedRequirements(requirements) {
      var i :| 0 <= i < |OpenRequirements(requirements)| && OpenRequirements(requirements)[i] == r;
      assert IsOpen(r);
    }
  }

  /** A prop that is not an array shows two empty lists. */
  lemma NonArrayShowsNothing()
    ensures OpenRequirements(NonArray) == [] && ClosedRequirements(NonArray) == []
  {
  }
}
