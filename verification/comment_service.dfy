/** The comment service of the back end
    (CSpacebackend/src/main/java/com/Dhruv/service/CommentServiceImpl.java):
    adding a comment to a requirement, deleting one's own comment, and
    listing a requirement's comments. The clock is an argument. */
module CommentService {
  import opened Wrappers
  import opened Seqs
  import opened Store

  /** `createComment`: a missing requirement is reported before a missing
      user. The comment is stored under a fresh id, records the requirement,
      the author, the text and the time, and is appended to the
      requirement's comment list. */
  method CreateComment(db: Database, requirementId: int, userId: int, content: string, now: int)
    returns (r: Result<Comment, ServiceError>)
    requires db.Valid()
    modifies db
    ensures db.Valid()
    ensures requirementId !in old(db.requirements) ==>
      r == Failure(RequirementNotFound(requirementId)) && unchanged(db)
    ensures requirementId in old(db.requirements) && userId !in old(db.users) ==>
      r == Failure(UserNotFound(userId)) && unchanged(db)
    ensures requirementId in old(db.requirements) && userId in old(db.users) ==>
      && old(db.nextId) !in old(db.comments)
      && r == Success(Comment(old(db.nextId), requirementId, userId, content, now))
      && db.comments == old(db.comments)[old(db.nextId) := r.value]
      && (var req := old(db.requirements)[requirementId];
          db.requirements == old(db.requirements)[requirementId := req.(comments := req.comments + [old(db.nextId)])])
      && db.nextId == old(db.nextId) + 1
    ensures db.users == old(db.users) && db.projects == old(db.projects)
  {
    if requirementId !in db.requirements {
      return Failure(RequirementNotFound(requirementId));
    }
    if userId !in db.users {
      return Failure(UserNotFound(userId));
    }
    var requirement := db.requirements[requirementId];
    var id := db.nextId;
    var comment := Comment(id, requirementId, userId, content, now);
    db.comments := db.comments[id := comment];
    db.nextId := id + 1;
    db.requirements := db.requirements[requirementId := requirement.(comments := requirement.comments + [id])];
    r := Success(comment);
  }

  /** `deleteComment`: a missing comment is reported first, then a missing
      user; only the comment's author may delete it, anyone else gets a
      permission error and the comment stays. */
  method DeleteComment(db: Database, commentId: int, userId: int) returns (r: Outcome<ServiceError>)
    modifies db
    ensures commentId !in old(db.comments) ==> r == Fail(CommentNotFound(commentId)) && unchanged(db)
    ensures commentId in old(db.comments) && userId !in old(db.users) ==>
      r == Fail(UserNotFound(userId)) && unchanged(db)
    ensures (commentId in old(db.comments) && userId in old(db.users)
      && old(db.comments)[commentId].author != userId) ==>
      r == Fail(NotCommentAuthor) && unchanged(db)
    ensures (commentId in old(db.comments) && userId in old(db.users)
      && old(db.comments)[commentId].author == userId) ==>
      r == Pass && db.comments == old(db.comments) - {commentId}
    ensures commentId in old(db.comments) ==> (commentId in db.comments <==> r.Fail?)
    ensures db.users == old(db.users) && db.projects == old(db.projects)
    ensures db.requirements == old(db.requirements) && db.nextId == old(db.nextId)
  {
    if commentId !in db.comments {
      return Fail(CommentNotFound(commentId));
    }
    if userId !in db.users {
      return Fail(UserNotFound(userId));
    }
    var comment := db.comments[commentId];
    if comment.author == userId {
      db.comments := db.comments - {commentId};
      r := Pass;
    } else {
      r := Fail(NotCommentAuthor);
    }
  }

  /** `findCommentByRequirementId`: the comments on the requirement, in the
      order the table returns them. */
  function FindCommentByRequirementId(all: seq<Comment>, requirementId: int): (found: seq<Comment>)
    ensures forall c :: c in found <==> c in all && c.requirementId == requirementId
  {
    Filter(all, (c: Comment) => c.requirementId == requirementId)
  }

  /** A new comment is listed for its requirement, after the ones already
      there, and for no other requirement. */
  lemma {:induction false} NewCommentListed(all: seq<Comment>, c: Comment, other: int)
    requires other != c.requirementId
    ensures FindCommentByRequirementId(all + [c], c.requirementId)
         == FindCommentByRequirementId(all, c.requirementId) + [c]
    ensures FindCommentByRequirementId(all + [c], other) == FindCommentByRequirementId(all, other)
  {
    FilterAppend(all, [c], (x: Comment) => x.requirementId == c.requirementId);
    FilterAppend(all, [c], (x: Comment) => x.requirementId == other);
  }

  /** Deleting a comment takes it off its requirement's list and leaves the
      others in order. */
  lemma {:induction false} DeletedCommentUnlisted(all: seq<Comment>, i: nat)
    requires i < |all| && NoDuplicates(all)
    ensures all[i] !in FindCommentByRequirementId(all[..i] + all[i + 1..], all[i].requirementId)
    ensures FindCommentByRequirementId(all[..i] + all[i + 1..], all[i].requirementId)
         == FindCommentByRequirementId(all[..i], all[i].requirementId)
          + FindCommentByRequirementId(all[i + 1..], all[i].requirementId)
  {
    FilterAppend(all[..i], all[i + 1..], (x: Comment) => x.requirementId == all[i].requirementId);
  }
}
