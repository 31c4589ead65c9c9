/** The back end's persistent state: the user, project, requirement and
    comment tables as maps from id to row, and the exceptions the services
    throw. Entities refer to one another by id, as the JPA relations do
    through their foreign keys. */
module Store {
  import opened Wrappers

  datatype User = User(id: int, fullName: string, email: string)

  /** A project row. `team` and `chatUsers` (the users of the project's chat)
      are lists of user ids, in the order they were added. */
  datatype Project = Project(
    id: int,
    name: Option<string>,
    description: Option<string>,
    category: Option<string>,
    tags: Option<seq<string>>,
    owner: Option<int>,
    team: seq<int>,
    chatUsers: seq<int>)

  /** A requirement row. `projectId` is the plain project-id column written
      by `setProjectID`; `project` is the linked project; `comments` lists the
      ids of the comments added to it. */
  datatype Requirement = Requirement(
    id: int,
    title: Option<string>,
    description: Option<string>,
    status: Option<string>,
    priority: Option<string>,
    dueDate: Option<int>,
    projectId: Option<int>,
    project: Option<int>,
    assignee: Option<int>,
    comments: seq<int>)

  /** A comment row: the requirement it belongs to, its author, its text and
      the moment it was created. */
  datatype Comment = Comment(id: int, requirementId: int, author: int, content: string, createdAt: int)

  /** The Java exception classes the services throw. */
  datatype ExceptionClass = UserException | ProjectException | RequirementException | NullPointerException

  /** Why a service call failed. */
  datatype ServiceError =
    | UserNotFound(userId: int)
    | NotCommentAuthor
    | ProjectNotFound(projectId: int)
    | NoProjectsAvailable
    | RequirementNotFound(requirementId: int)
    | NoRequirementsFound
    | CommentNotFound(commentId: int)
    | NullField

  /** The exception class each failure is thrown as. A missing comment is
      reported with a requirement exception. */
  function ClassOf(e: ServiceError): (c: ExceptionClass)
    ensures e.UserNotFound? || e.NotCommentAuthor? <==> c == UserException
    ensures e.ProjectNotFound? || e.NoProjectsAvailable? <==> c == ProjectException
    ensures e.RequirementNotFound? || e.NoRequirementsFound? || e.CommentNotFound? <==> c == RequirementException
  {
    match e
    case UserNotFound(_) => UserException
    case NotCommentAuthor => UserException
    case ProjectNotFound(_) => ProjectException
    case NoProjectsAvailable => ProjectException
    case RequirementNotFound(_) => RequirementException
    case NoRequirementsFound => RequirementException
    case CommentNotFound(_) => RequirementException
    case NullField => NullPointerException
  }

  /** The database. New rows take `nextId`, which is above every id in use. */
  class Database {
    var users: map<int, User>
    var projects: map<int, Project>
    var requirements: map<int, Requirement>
    var comments: map<int, Comment>
    var nextId: int

    predicate Valid()
      reads this
    {
      (forall k :: k in projects ==> k < nextId)
      && (forall k :: k in requirements ==> k < nextId)
      && (forall k :: k in comments ==> k < nextId)
    }

    /** An empty database over the given users. */
    constructor(initialUsers: map<int, User>)
      ensures Valid()
      ensures users == initialUsers && projects == map[] && requirements == map[] && comments == map[]
    {
      users := initialUsers;
      projects := map[];
      requirements := map[];
      comments := map[];
      nextId := 1;
    }
  }
}
