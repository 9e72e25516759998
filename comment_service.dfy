/** The comment, like and pin operations that the announcement and the
    question services share, over the tables of `CommentStore`. One class
    serves both: `kind` selects the wording of the messages. */
module Comments {
  import opened Wrappers
  import opened UserRecords
  import opened CommentStore

  /** A thread as `getById` returns it: the row, its enriched comments and,
      for a logged-in user, whether that user pinned it. */
  datatype ThreadView = ThreadView(thread: Thread, comments: seq<CommentView>, isPinned: Option<bool>)

  /** The `{ message, comment }` body of `addComment` and `updateComment`. */
  datatype CommentReply = CommentReply(message: string, id: CommentStore.Id, comment: Comment)

  /** The `{ message }` body of `deleteComment`, with the ids it deleted
      (the `deletedIds` of the announcement service's event). */
  datatype DeleteReply = DeleteReply(message: string, deletedIds: set<CommentStore.Id>)

  class CommentService {
    const kind: ThreadKind
    var threads: map<CommentStore.Id, Thread>
    var users: map<CommentStore.Id, Role>
    var comments: map<CommentStore.Id, Comment>
    var likes: set<Like>
    var pins: set<Pin>
    /** The insertion clock: every stored comment is older than it. */
    var clock: nat

    /** Replies point to older comments of the same thread, every comment
        belongs to an existing thread, and likes and pins name existing rows. */
    ghost predicate Valid()
      reads this
    {
      && ParentsPrecede(comments)
      && (forall id :: id in comments ==> comments[id].createdAt < clock && comments[id].threadId in threads)
      && (forall l :: l in likes ==> l.1 in comments)
      && (forall p :: p in pins ==> p.1 in threads)
    }

    constructor (kind: ThreadKind, users: map<CommentStore.Id, Role>)
      ensures Valid()
      ensures this.kind == kind && this.users == users
      ensures threads == map[] && comments == map[] && likes == {} && pins == {}
    {
      this.kind := kind;
      this.users := users;
      threads := map[];
      comments := map[];
      likes := {};
      pins := {};
      clock := 0;
    }

    /** `user?.role === Admin || comment.userId === userId` */
    predicate MayModify(c: Comment, userId: CommentStore.Id)
      reads this
    {
      c.authorId == userId || (userId in users && users[userId] == Role.Admin)
    }

    /** `create(dto)`: a new thread with no views. */
    method CreateThread(title: string, description: string) returns (id: CommentStore.Id, message: string)
      requires Valid()
      modifies this`threads
      ensures Valid()
      ensures message == kind.Noun() + " created successfully"
      ensures id !in old(threads)
      ensures threads == old(threads)[id := Thread(title, description, 0)]
    {
      FreshKeyExists(threads.Keys);
      id :| id !in threads;
      threads := threads[id := Thread(title, description, 0)];
      message := kind.Noun() + " created successfully";
    }

    /** `incrementViewCount(id)` */
    method IncrementViewCount(id: CommentStore.Id) returns (r: Result<Thread>)
      requires Valid()
      modifies this`threads
      ensures Valid()
      ensures id !in old(threads) ==> r == Err(NotFound(kind.Noun() + " not found")) && threads == old(threads)
      ensures id in old(threads) ==>
        r == Ok(old(threads)[id].(viewCount := old(threads)[id].viewCount + 1)) &&
        threads == old(threads)[id := r.value]
    {
      if id !in threads {
        return Err(NotFound(kind.Noun() + " not found"));
      }
      var t := threads[id];
      t := t.(viewCount := t.viewCount + 1);
      threads := threads[id := t];
      r := Ok(t);
    }

    /** `addComment(threadId, userId, dto)`: validates the thread, the user
        and the parent, then stores the comment under a fresh id. */
    method AddComment(threadId: CommentStore.Id, userId: CommentStore.Id, content: string, parentCommentId: Option<CommentStore.Id>)
      returns (r: Result<CommentReply>)
      requires Valid()
      modifies this`comments, this`clock
      ensures Valid()
      ensures threadId !in threads ==> r == Err(NotFound(kind.Noun() + " not found"))
      ensures threadId in threads && userId !in users ==> r == Err(NotFound("User not found"))
      ensures threadId in threads && userId in users && Truthy(parentCommentId) ==>
        (parentCommentId.value !in old(comments) ==> r == Err(NotFound("Parent comment not found"))) &&
        (parentCommentId.value in old(comments) && old(comments)[parentCommentId.value].threadId != threadId ==>
           r == Err(NotFound("Parent comment does not belong to this " + kind.LowerNoun())))
      ensures r.Err? ==> comments == old(comments)
      ensures r.Ok? <==>
        threadId in threads && userId in users &&
        (Truthy(parentCommentId) ==>
           parentCommentId.value in old(comments) && old(comments)[parentCommentId.value].threadId == threadId)
      ensures r.Ok? ==>
        var (id, c) := (r.value.id, r.value.comment);
        r.value.message == "Comment added successfully" && id !in old(comments) && comments == old(comments)[id := c] &&
        c.threadId == threadId && c.authorId == userId && c.content == content &&
        c.parent == (if Truthy(parentCommentId) then parentCommentId else None)
    {
      if threadId !in threads {
        return Err(NotFound(kind.Noun() + " not found"));
      }
      if userId !in users {
        return Err(NotFound("User not found"));
      }
      var parent: Option<CommentStore.Id> := None;
      if Truthy(parentCommentId) {
        var p := parentCommentId.value;
        if p !in comments {
          return Err(NotFound("Parent comment not found"));
        }
        if comments[p].threadId != threadId {
          return Err(NotFound("Parent comment does not belong to this " + kind.LowerNoun()));
        }
        parent := Some(p);
      }
      FreshKeyExists(comments.Keys);
      var id :| id !in comments;
      var c := Comment(threadId, userId, parent, content, clock);
      comments := comments[id := c];
      clock := clock + 1;
      r := Ok(CommentReply("Comment added successfully", id, c));
    }

    /** `updateComment(commentId, userId, dto)`: the author or an admin may
        replace the content; nothing else of the comment changes. */
    method UpdateComment(commentId: CommentStore.Id, userId: CommentStore.Id, content: string) returns (r: Result<CommentReply>)
      requires Valid()
      modifies this`comments
      ensures Valid()
      ensures commentId !in old(comments) ==> r == Err(NotFound("Comment not found"))
      ensures commentId in old(comments) && !MayModify(old(comments)[commentId], userId) ==>
        r == Err(NotFound("You can only update your own comments"))
      ensures r.Err? ==> comments == old(comments)
      ensures r.Ok? <==> commentId in old(comments) && MayModify(old(comments)[commentId], userId)
      ensures r.Ok? ==>
        r.value == CommentReply("Comment updated successfully", commentId, old(comments)[commentId].(content := content)) &&
        comments == old(comments)[commentId := r.value.comment]
    {
      if commentId !in comments {
        return Err(NotFound("Comment not found"));
      }
      var c := comments[commentId];
      if !MayModify(c, userId) {
        return Err(NotFound("You can only update your own comments"));
      }
      c := c.(content := content);
      comments := comments[commentId := c];
      r := Ok(CommentReply("Comment updated successfully", commentId, c));
    }

    /** The fixed-point loop of `deleteComment`: start from the comment and
        add every reply to the set until a pass adds nothing. */
    method CollectDescendants(commentId: CommentStore.Id) returns (ids: set<CommentStore.Id>)
      requires commentId in comments
      ensures IsDescendantClosure(comments, commentId, ids)
    {
      var cs := comments;
      ids := {commentId};
      ghost var depth: map<CommentStore.Id, nat> := map[commentId := 0];
      var added: nat := 1;
      while added > 0
        invariant commentId in ids && ids <= cs.Keys
        invariant ReachedBy(cs, commentId, ids, depth)
        invariant added == 0 ==> Closed(cs, ids)
        decreases |cs.Keys - ids|, added
      {
        ghost var before := ids;
        ReachReplies(cs, commentId, ids, depth);
        depth := ExtendDepth(cs, ids, depth);
        ids, added := AddReplies(cs, ids);
        if added > 0 {
          GrowthShrinksRest(cs.Keys, before, ids);
        }
      }
      ReachedIsDescendant(cs, commentId, ids, depth);
    }

    /** One pass of the leaves-first loop: delete each of `leaves`, none of
        which is the parent of an id still to delete. */
    method DeleteLeaves(ghost cs: map<CommentStore.Id, Comment>, ghost allIds: set<CommentStore.Id>,
                        remaining: set<CommentStore.Id>, leaves: set<CommentStore.Id>, ghost order: seq<CommentStore.Id>)
      returns (left: set<CommentStore.Id>, ghost order': seq<CommentStore.Id>)
      requires DeletionState(cs, allIds, remaining, comments, order)
      requires leaves <= remaining
      requires forall x, y :: x in leaves && y in remaining ==> cs[y].parent != Some(x)
      modifies this`comments
      ensures left == remaining - leaves
      ensures DeletionState(cs, allIds, left, comments, order')
    {
      left, order' := remaining, order;
      var todo := leaves;
      while todo != {}
        invariant todo <= leaves
        invariant left == remaining - (leaves - todo)
        invariant DeletionState(cs, allIds, left, comments, order')
        decreases |todo|
      {
        var id :| id in todo;
        DeleteOneLeaf(cs, allIds, left, comments, order', id);
        comments := comments - {id};
        left := left - {id};
        order' := order' + [id];
        todo := todo - {id};
      }
    }

    /** The second loop of `deleteComment`: each pass deletes the ids that no
        remaining id names as parent. `order` records the deletions. */
    method DeleteLeavesFirst(allIds: set<CommentStore.Id>) returns (ghost order: seq<CommentStore.Id>)
      requires allIds <= comments.Keys && ParentsPrecede(comments)
      modifies this`comments
      ensures comments == old(comments) - allIds
      ensures Enumerates(order, allIds)
      ensures LeavesFirst(old(comments), order)
    {
      ghost var cs := comments;
      var remaining := allIds;
      order := [];
      DeletionStart(cs, allIds);
      while remaining != {}
        invariant DeletionState(cs, allIds, remaining, comments, order)
        decreases |remaining|
      {
        PassFindsLeaf(cs, allIds, remaining, comments, order);
        var leaves := remaining - ParentsWithin(comments, remaining);
        remaining, order := DeleteLeaves(cs, allIds, remaining, leaves, order);
      }
      assert allIds - remaining == allIds;
    }

    /** The deletion `deleteComment` makes once the caller may modify the
        comment: collect the descendant closure, drop the likes on it, then
        delete it leaves first. */
    method DeleteTree(commentId: CommentStore.Id) returns (deleted: set<CommentStore.Id>, ghost order: seq<CommentStore.Id>)
      requires Valid() && commentId in comments
      modifies this`comments, this`likes
      ensures Valid()
      ensures IsDescendantClosure(old(comments), commentId, deleted)
      ensures comments == old(comments) - deleted
      ensures likes == (set l | l in old(likes) && l.1 !in deleted)
      ensures Enumerates(order, deleted) && LeavesFirst(old(comments), order)
    {
      deleted := CollectDescendants(commentId);
      if |deleted| > 0 {
        likes := set l | l in likes && l.1 !in deleted;
      }
      RemoveClosedKeepsParents(comments, deleted);
      order := DeleteLeavesFirst(deleted);
    }

    /** `deleteComment(commentId, userId)`: the author or an admin deletes
        the comment with all its replies, and the likes on them. */
    method DeleteComment(commentId: CommentStore.Id, userId: CommentStore.Id)
      returns (r: Result<DeleteReply>, ghost order: seq<CommentStore.Id>)
      requires Valid()
      modifies this`comments, this`likes
      ensures Valid()
      ensures commentId !in old(comments) ==> r == Err(NotFound("Comment not found"))
      ensures commentId in old(comments) && !MayModify(old(comments)[commentId], userId) ==>
        r == Err(NotFound("You can only delete your own comments"))
      ensures r.Ok? <==> commentId in old(comments) && MayModify(old(comments)[commentId], userId)
      ensures r.Err? ==> comments == old(comments) && likes == old(likes)
      ensures r.Ok? ==> r.value.message == "Comment deleted successfully"
      ensures r.Ok? ==>
        var deleted := r.value.deletedIds;
        IsDescendantClosure(old(comments), commentId, deleted) &&
        comments == old(comments) - deleted &&
        likes == (set l | l in old(likes) && l.1 !in deleted) &&
        Enumerates(order, deleted) && LeavesFirst(old(comments), order)
    {
      order := [];
      if commentId !in comments {
        return Err(NotFound("Comment not found")), order;
      }
      if !MayModify(comments[commentId], userId) {
        return Err(NotFound("You can only delete your own comments")), order;
      }
      var deleted;
      deleted, order := DeleteTree(commentId);
      r := Ok(DeleteReply("Comment deleted successfully", deleted));
    }

    /** `likeComment(commentId, userId)` */
    method LikeComment(commentId: CommentStore.Id, userId: CommentStore.Id) returns (r: Result<LikeReply>)
      requires Valid()
      modifies this`likes
      ensures Valid()
      ensures (r, likes) == LikeStep(comments, users.Keys, old(likes), commentId, userId)
    {
      if commentId !in comments {
        return Err(NotFound("Comment not found"));
      }
      if userId !in users {
        return Err(NotFound("User not found"));
      }
      if (userId, commentId) in likes {
        return Ok(LikeReply("Comment already liked", true));
      }
      likes := likes + {(userId, commentId)};
      r := Ok(LikeReply("Comment liked successfully", true));
    }

    /** `unlikeComment(commentId, userId)` */
    method UnlikeComment(commentId: CommentStore.Id, userId: CommentStore.Id) returns (r: LikeReply)
      requires Valid()
      modifies this`likes
      ensures Valid()
      ensures (r, likes) == UnlikeStep(old(likes), commentId, userId)
    {
      if (userId, commentId) !in likes {
        return LikeReply("Comment not liked", false);
      }
      likes := likes - {(userId, commentId)};
      r := LikeReply("Comment unliked successfully", false);
    }

    /** `toggleCommentLike(commentId, userId)` */
    method ToggleCommentLike(commentId: CommentStore.Id, userId: CommentStore.Id) returns (r: Result<LikeReply>)
      requires Valid()
      modifies this`likes
      ensures Valid()
      ensures (r, likes) == ToggleLikeStep(comments, users.Keys, old(likes), commentId, userId)
    {
      if (userId, commentId) in likes {
        likes := likes - {(userId, commentId)};
        return Ok(LikeReply("Comment unliked successfully", false));
      }
      r := LikeComment(commentId, userId);
    }

    /** `pinAnnouncement` / `pinQuestion` */
    method Pin(threadId: CommentStore.Id, userId: CommentStore.Id) returns (r: Result<PinReply>)
      requires Valid()
      modifies this`pins
      ensures Valid()
      ensures (r, pins) == PinStep(kind, threads.Keys, users.Keys, old(pins), threadId, userId)
    {
      if threadId !in threads {
        return Err(NotFound(kind.Noun() + " not found"));
      }
      if userId !in users {
        return Err(NotFound("User not found"));
      }
      if (userId, threadId) in pins {
        return Ok(PinReply(kind.Noun() + " is already pinned", true));
      }
      pins := pins + {(userId, threadId)};
      r := Ok(PinReply(kind.Noun() + " pinned successfully", true));
    }

    /** `unpinAnnouncement` / `unpinQuestion` */
    method Unpin(threadId: CommentStore.Id, userId: CommentStore.Id) returns (r: Result<PinReply>)
      requires Valid()
      modifies this`pins
      ensures Valid()
      ensures (r, pins) == UnpinStep(kind, old(pins), threadId, userId)
    {
      if (userId, threadId) !in pins {
        return Err(NotFound("Pinned " + kind.LowerNoun() + " not found"));
      }
      pins := pins - {(userId, threadId)};
      r := Ok(PinReply(kind.Noun() + " unpinned successfully", false));
    }

    /** `togglePinAnnouncement` / `togglePinQuestion` */
    method TogglePin(threadId: CommentStore.Id, userId: CommentStore.Id) returns (r: Result<PinReply>)
      requires Valid()
      modifies this`pins
      ensures Valid()
      ensures (r, pins) == TogglePinStep(kind, threads.Keys, users.Keys, old(pins), threadId, userId)
    {
      if (userId, threadId) in pins {
        r := Unpin(threadId, userId);
      } else {
        r := Pin(threadId, userId);
      }
    }

    /** `rows` is what `find({ where: { threadId } })` returns: every comment
        of the thread, once each. */
    ghost predicate ListsThread(threadId: CommentStore.Id, rows: seq<CommentStore.Id>)
      reads this
    {
      (forall i :: 0 <= i < |rows| ==> rows[i] in comments && comments[rows[i]].threadId == threadId) &&
      (forall id :: id in comments && comments[id].threadId == threadId ==> id in rows) &&
      (forall i, j :: 0 <= i < j < |rows| ==> rows[i] != rows[j])
    }

    /** `order: { createdAt: 'DESC' }` */
    ghost predicate NewestFirst(rows: seq<CommentStore.Id>)
      reads this
      requires forall i :: 0 <= i < |rows| ==> rows[i] in comments
    {
      forall i, j :: 0 <= i < j < |rows| ==> comments[rows[i]].createdAt >= comments[rows[j]].createdAt
    }

    function RowsOf(rows: seq<CommentStore.Id>): (r: seq<(CommentStore.Id, Comment)>)
      reads this
      requires forall i :: 0 <= i < |rows| ==> rows[i] in comments
      ensures |r| == |rows| && forall i :: 0 <= i < |rows| ==> r[i] == (rows[i], comments[rows[i]])
    {
      var cs := comments;
      seq(|rows|, i requires 0 <= i < |rows| && rows[i] in cs => (rows[i], cs[rows[i]]))
    }

    /** `getComments(threadId, userId)`: the thread's comments, newest first,
        each with its like count and whether the user liked it. */
    function GetComments(threadId: CommentStore.Id, userId: Option<CommentStore.Id>, rows: seq<CommentStore.Id>)
      : (r: Result<seq<CommentView>>)
      reads this
      requires ListsThread(threadId, rows) && NewestFirst(rows)
      ensures threadId !in threads <==> r == Err(NotFound(kind.Noun() + " not found"))
      ensures r.Ok? ==> |r.value| == |rows|
      ensures r.Ok? ==> forall id :: id in comments && comments[id].threadId == threadId <==>
        exists i :: 0 <= i < |r.value| && r.value[i].id == id
      ensures r.Ok? ==> forall i, j :: 0 <= i < j < |r.value| ==> r.value[i].createdAt >= r.value[j].createdAt
      ensures r.Ok? ==> forall i :: 0 <= i < |r.value| ==>
        r.value[i].likeCount == |LikersOf(likes, r.value[i].id)| &&
        (r.value[i].likedByCurrentUser <==> Truthy(userId) && (userId.value, r.value[i].id) in likes)
    {
      if threadId !in threads then Err(NotFound(kind.Noun() + " not found"))
      else
        var v := EnrichCommentsWithLikes(RowsOf(rows), likes, userId);
        ViewsCoverRows(rows, v);
        Ok(v)
    }

    /** `getById(id, userId)` over the thread's comment rows in any order. */
    function GetById(threadId: CommentStore.Id, userId: Option<CommentStore.Id>, rows: seq<CommentStore.Id>)
      : (r: Result<ThreadView>)
      reads this
      requires ListsThread(threadId, rows)
      ensures threadId !in threads <==> r == Err(NotFound(kind.Noun() + " not found"))
      ensures r.Ok? ==> r.value.thread == threads[threadId] && |r.value.comments| == |rows|
      ensures r.Ok? ==> forall i :: 0 <= i < |rows| ==>
        (r.value.comments[i].id == rows[i] && r.value.comments[i].likeCount == |LikersOf(likes, rows[i])|)
      ensures r.Ok? ==> forall i :: 0 <= i < |rows| ==>
        && r.value.comments[i].content == comments[rows[i]].content
        && r.value.comments[i].authorId == comments[rows[i]].authorId
        && r.value.comments[i].parentCommentId == comments[rows[i]].parent
      ensures r.Ok? ==> forall i :: 0 <= i < |rows| ==>
        (r.value.comments[i].likedByCurrentUser <==> Truthy(userId) && (userId.value, rows[i]) in likes)
      ensures r.Ok? ==> (r.value.isPinned == Some(true) <==> Truthy(userId) && (userId.value, threadId) in pins)
      ensures r.Ok? ==> (r.value.isPinned.None? <==> !Truthy(userId))
    {
      if threadId !in threads then Err(NotFound(kind.Noun() + " not found"))
      else Ok(ThreadView(threads[threadId], EnrichCommentsWithLikes(RowsOf(rows), likes, userId),
                         IsPinned(pins, threadId, userId)))
    }
  }

  /** Views made one per row, in order, name every row. */
  lemma ViewsCoverRows(rows: seq<CommentStore.Id>, v: seq<CommentView>)
    requires |v| == |rows| && forall i :: 0 <= i < |rows| ==> v[i].id == rows[i]
    ensures forall id :: id in rows ==> exists i :: 0 <= i < |v| && v[i].id == id
  {
    forall id | id in rows
      ensures exists i :: 0 <= i < |v| && v[i].id == id
    {
      var i :| 0 <= i < |rows| && rows[i] == id;
      assert v[i].id == id;
    }
  }

  function FirstOr(rows: seq<CommentStore.Id>, default: CommentStore.Id): CommentStore.Id {
    if |rows| > 0 then rows[0] else default
  }

  /** The question service's early `return []`: a thread without comments
      lists nothing. */
  lemma NoCommentsListsNothing(s: CommentService, threadId: CommentStore.Id, userId: Option<CommentStore.Id>, rows: seq<CommentStore.Id>)
    requires threadId in s.threads
    requires s.ListsThread(threadId, rows) && s.NewestFirst(rows)
    requires forall id :: id in s.comments ==> s.comments[id].threadId != threadId
    ensures s.GetComments(threadId, userId, rows) == Ok([])
  {
    var cs := s.comments;
    assert |rows| > 0 ==> FirstOr(rows, "") in cs;
    assert s.RowsOf(rows) == [];
  }

  /** A valid store has no cycle of replies, so the leaves-first deletion
      always ends. */
  lemma ValidHasNoCycles(s: CommentService, x: CommentStore.Id, k: nat)
    requires s.Valid() && k > 0
    ensures Ancestor(s.comments, x, k) != Some(x)
  {
    NoCycles(s.comments, x, k);
  }
}
