/** The requirement queries of the back end
    (CSpacebackend/src/main/java/com/Dhruv/repository/RequirementRepository.java):
    the search with four optional parameters and the two derived look-ups.
    Each query is a filter over the rows in the order the table returns them. */
module RequirementRepository {
  import opened Wrappers
  import opened Seqs
  import opened Text
  import opened Store

  /** The four parameters of `searchRequirements`; `None` stands for SQL null. */
  datatype SearchParams = SearchParams(
    title: Option<string>,
    status: Option<string>,
    priority: Option<string>,
    assigneeId: Option<int>)

  /** A null title imposes nothing; otherwise the lower-cased title must
      contain the parameter as it was given. A row without a title fails,
      since comparing with SQL null is never true. */
  predicate TitleOk(title: Option<string>, r: Requirement) {
    title.None? || (r.title.Some? && Contains(Lower(r.title.value), title.value))
  }

  predicate StatusOk(status: Option<string>, r: Requirement) {
    status.None? || r.status == status
  }

  predicate PriorityOk(priority: Option<string>, r: Requirement) {
    priority.None? || r.priority == priority
  }

  /** Through the left join an unassigned row has a null assignee id, which
      never equals a given id. */
  predicate AssigneeOk(assigneeId: Option<int>, r: Requirement) {
    assigneeId.None? || r.assignee == assigneeId
  }

  /** The `where` clause: the four conditions together. */
  predicate SearchMatch(q: SearchParams, r: Requirement) {
    TitleOk(q.title, r) && StatusOk(q.status, r) && PriorityOk(q.priority, r) && AssigneeOk(q.assigneeId, r)
  }

  function Matching(q: SearchParams): Requirement -> bool {
    (r: Requirement) => SearchMatch(q, r)
  }

  /** `searchRequirements`: the rows that satisfy the `where` clause. */
  function SearchRequirements(all: seq<Requirement>, q: SearchParams): (found: seq<Requirement>)
    ensures forall r :: r in found <==> r in all && SearchMatch(q, r)
  {
    Filter(all, Matching(q))
  }

  /** The search keeps the rows' order and adds none. */
  lemma {:induction false} SearchIsSubsequence(all: seq<Requirement>, q: SearchParams)
    ensures IsSubsequence(SearchRequirements(all, q), all)
  {
    FilterIsSubsequence(all, Matching(q));
  }

  /** With every parameter null the search returns every row. */
  lemma {:induction false} SearchUnconstrained(all: seq<Requirement>)
    ensures SearchRequirements(all, SearchParams(None, None, None, None)) == all
  {
    FilterKeepsAll(all, Matching(SearchParams(None, None, None, None)));
  }

  /** Adding a parameter can only narrow the result: the search with a
      status is a subsequence of the same search without it. */
  lemma {:induction false} SearchStatusNarrows(all: seq<Requirement>, q: SearchParams, status: string)
    requires q.status.None?
    ensures IsSubsequence(SearchRequirements(all, q.(status := Some(status))), SearchRequirements(all, q))
  {
    FilterMonotone(all, Matching(q.(status := Some(status))), Matching(q));
  }

  /** An assignee parameter never finds an unassigned row, and every row
      found for it is assigned to exactly that user. */
  lemma SearchByAssignee(all: seq<Requirement>, q: SearchParams, r: Requirement)
    requires q.assigneeId.Some? && r in SearchRequirements(all, q)
    ensures r.assignee == q.assigneeId
  {
  }

  /** `findByProjectId`: the rows linked to the project, in order. */
  function FindByProjectId(all: seq<Requirement>, projectId: int): (found: seq<Requirement>)
    ensures forall r :: r in found <==> r in all && r.project == Some(projectId)
  {
    Filter(all, (r: Requirement) => r.project == Some(projectId))
  }

  /** `findByAssigneeId`: the rows assigned to the user, in order. */
  function FindByAssigneeId(all: seq<Requirement>, assigneeId: int): (found: seq<Requirement>)
    ensures forall r :: r in found <==> r in all && r.assignee == Some(assigneeId)
  {
    Filter(all, (r: Requirement) => r.assignee == Some(assigneeId))
  }

  /** Searching by assignee alone is `findByAssigneeId`. */
  lemma {:induction false} SearchByAssigneeAlone(all: seq<Requirement>, assigneeId: int)
    ensures SearchRequirements(all, SearchParams(None, None, None, Some(assigneeId))) == FindByAssigneeId(all, assigneeId)
  {
    FilterSame(all, Matching(SearchParams(None, None, None, Some(assigneeId))),
               (r: Requirement) => r.assignee == Some(assigneeId));
  }
}
