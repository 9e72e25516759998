/** The three tables behind threaded comments on announcements and questions:
    comments (with an optional parent comment), like rows and pin rows, and
    the pure derivations the services make from them. */
module CommentStore {
  import opened Wrappers

  type Id = string

  /** The two kinds of thread that carry comments; they differ only in the
      wording of their messages. */
  datatype ThreadKind = Announcement | Question {
    function Noun(): string {
      if Announcement? then "Announcement" else "Question"
    }
    function LowerNoun(): string {
      if Announcement? then "announcement" else "question"
    }
  }

  datatype Thread = Thread(title: string, description: string, viewCount: int)

  /** A comment row. `createdAt` is the insertion time. */
  datatype Comment = Comment(threadId: Id, authorId: Id, parent: Option<Id>, content: string, createdAt: nat)

  /** A like row: (userId, commentId). */
  type Like = (Id, Id)

  /** A pin row: (userId, threadId). */
  type Pin = (Id, Id)

  // ---------------------------------------------------------------- the forest

  /** The comments whose parent is in `s`: one `find({ parentCommentId: In(s) })`. */
  function Children(cs: map<Id, Comment>, s: set<Id>): (r: set<Id>)
    ensures r <= cs.Keys
  {
    set id | id in cs && cs[id].parent.Some? && cs[id].parent.value in s
  }

  /** `s` holds every reply to each of its members. */
  predicate Closed(cs: map<Id, Comment>, s: set<Id>) {
    Children(cs, s) <= s
  }

  /** The comment reached from `x` by following `k` parent links. */
  function Ancestor(cs: map<Id, Comment>, x: Id, k: nat): Option<Id>
    decreases k
  {
    if k == 0 then Some(x)
    else if x in cs && cs[x].parent.Some? then Ancestor(cs, cs[x].parent.value, k - 1)
    else None
  }

  ghost predicate DescendsFrom(cs: map<Id, Comment>, x: Id, root: Id) {
    exists k: nat :: Ancestor(cs, x, k) == Some(root)
  }

  /** `s` is the comment `root` with all its replies, replies to replies, and so on. */
  ghost predicate IsDescendantClosure(cs: map<Id, Comment>, root: Id, s: set<Id>) {
    root in s && s <= cs.Keys && Closed(cs, s) &&
    forall x :: x in s ==> DescendsFrom(cs, x, root)
  }

  /** Every parent link points to an older comment of the same thread. */
  ghost predicate ParentsPrecede(cs: map<Id, Comment>) {
    forall id :: id in cs && cs[id].parent.Some? ==>
      var p := cs[id].parent.value;
      p in cs && cs[p].threadId == cs[id].threadId && cs[p].createdAt < cs[id].createdAt
  }

  /** No two positions of `order` hold the same id, and its ids are those of `s`. */
  ghost predicate Enumerates(order: seq<Id>, s: set<Id>) {
    (forall i, j :: 0 <= i < j < |order| ==> order[i] != order[j]) &&
    (forall x :: x in order <==> x in s)
  }

  /** Nothing in `order` is the parent of something that comes after it. */
  ghost predicate LeavesFirst(cs: map<Id, Comment>, order: seq<Id>) {
    forall i, j :: 0 <= i < j < |order| && order[j] in cs ==> cs[order[j]].parent != Some(order[i])
  }

  /** Every descendant of `root` lies in each closed set that holds `root`. */
  lemma {:induction false} DescendantInClosedSet(cs: map<Id, Comment>, root: Id, t: set<Id>, x: Id, k: nat)
    requires root in t && Closed(cs, t)
    requires Ancestor(cs, x, k) == Some(root)
    ensures x in t
    decreases k
  {
    if k > 0 {
      var p := cs[x].parent.value;
      DescendantInClosedSet(cs, root, t, p, k - 1);
      assert x in Children(cs, t);
    }
  }

  /** The descendant closure is the least closed set holding the root, so it
      is unique. */
  lemma ClosureIsLeast(cs: map<Id, Comment>, root: Id, s: set<Id>, t: set<Id>)
    requires IsDescendantClosure(cs, root, s)
    requires root in t && Closed(cs, t)
    ensures s <= t
  {
    forall x | x in s ensures x in t {
      var k: nat :| Ancestor(cs, x, k) == Some(root);
      DescendantInClosedSet(cs, root, t, x, k);
    }
  }

  lemma ClosureIsUnique(cs: map<Id, Comment>, root: Id, s: set<Id>, t: set<Id>)
    requires IsDescendantClosure(cs, root, s) && IsDescendantClosure(cs, root, t)
    ensures s == t
  {
    ClosureIsLeast(cs, root, s, t);
    ClosureIsLeast(cs, root, t, s);
  }

  /** Following parent links leads to older comments of the same thread. */
  lemma {:induction false} AncestorsAreOlder(cs: map<Id, Comment>, x: Id, k: nat, y: Id)
    requires ParentsPrecede(cs) && x in cs
    requires Ancestor(cs, x, k) == Some(y)
    ensures y in cs && cs[y].threadId == cs[x].threadId
    ensures k > 0 ==> cs[y].createdAt < cs[x].createdAt
    decreases k
  {
    if k > 0 {
      var p := cs[x].parent.value;
      AncestorsAreOlder(cs, p, k - 1, y);
    }
  }

  /** Parent links never form a cycle: no comment is its own ancestor. */
  lemma NoCycles(cs: map<Id, Comment>, x: Id, k: nat)
    requires ParentsPrecede(cs) && k > 0
    ensures Ancestor(cs, x, k) != Some(x)
  {
    if x in cs && Ancestor(cs, x, k) == Some(x) {
      AncestorsAreOlder(cs, x, k, x);
    }
  }

  /** Deleting a comment's closure never reaches into another thread. */
  lemma ClosureStaysInThread(cs: map<Id, Comment>, root: Id, s: set<Id>)
    requires ParentsPrecede(cs) && IsDescendantClosure(cs, root, s)
    ensures forall x :: x in s ==> cs[x].threadId == cs[root].threadId
  {
    forall x | x in s ensures cs[x].threadId == cs[root].threadId {
      var k: nat :| Ancestor(cs, x, k) == Some(root);
      AncestorsAreOlder(cs, x, k, root);
    }
  }

  /** A non-empty set of comments has a newest member. */
  lemma {:induction false} NewestExists(cs: map<Id, Comment>, s: set<Id>) returns (x: Id)
    requires s != {} && s <= cs.Keys
    ensures x in s && forall y :: y in s ==> cs[y].createdAt <= cs[x].createdAt
    decreases |s|
  {
    var a :| a in s;
    if s == {a} {
      x := a;
    } else {
      var b := NewestExists(cs, s - {a});
      x := if cs[a].createdAt > cs[b].createdAt then a else b;
    }
  }

  /** A non-empty set of comments holds one that is the parent of none of
      them: the newest. This is why the leaves-first deletion makes progress. */
  lemma NewestIsLeaf(cs: map<Id, Comment>, s: set<Id>) returns (x: Id)
    requires ParentsPrecede(cs) && s != {} && s <= cs.Keys
    ensures x in s && forall y :: y in s ==> cs[y].parent != Some(x)
  {
    x := NewestExists(cs, s);
  }

  /** Removing a closed set of comments leaves no dangling parent link. */
  lemma RemoveClosedKeepsParents(cs: map<Id, Comment>, s: set<Id>)
    requires ParentsPrecede(cs) && Closed(cs, s)
    ensures ParentsPrecede(cs - s)
  {
    forall id | id in cs - s && (cs - s)[id].parent.Some?
      ensures (cs - s)[id].parent.value in cs - s
    {
    }
  }

  /** `depth` gives, for every collected id, how many parent links lead
      from it to `root`. */
  ghost predicate ReachedBy(cs: map<Id, Comment>, root: Id, ids: set<Id>, depth: map<Id, nat>) {
    ids == depth.Keys && forall x :: x in ids ==> Ancestor(cs, x, depth[x]) == Some(root)
  }

  /** The depths after a pass: a new reply is one link further from the
      root than its parent. */
  ghost function ExtendDepth(cs: map<Id, Comment>, ids: set<Id>, depth: map<Id, nat>): map<Id, nat>
    requires ids == depth.Keys
  {
    map x | x in ids + Children(cs, ids) ::
      if x in ids then depth[x] else depth[cs[x].parent.value] + 1
  }

  /** Every reply to a collected comment descends from the root. */
  lemma ReachReplies(cs: map<Id, Comment>, root: Id, ids: set<Id>, depth: map<Id, nat>)
    requires ReachedBy(cs, root, ids, depth)
    ensures ReachedBy(cs, root, ids + Children(cs, ids), ExtendDepth(cs, ids, depth))
  {
    var d := ExtendDepth(cs, ids, depth);
    forall x | x in ids + Children(cs, ids) ensures Ancestor(cs, x, d[x]) == Some(root) {
      if x !in ids {
        assert Ancestor(cs, x, d[x]) == Ancestor(cs, cs[x].parent.value, depth[cs[x].parent.value]);
      }
    }
  }

  lemma ReachedIsDescendant(cs: map<Id, Comment>, root: Id, ids: set<Id>, depth: map<Id, nat>)
    requires ReachedBy(cs, root, ids, depth)
    ensures forall x :: x in ids ==> DescendsFrom(cs, x, root)
  {
    forall x | x in ids ensures DescendsFrom(cs, x, root) {
      assert Ancestor(cs, x, depth[x]) == Some(root);
    }
  }

  lemma {:induction false} SubsetNoLarger(a: set<Id>, b: set<Id>)
    requires a <= b
    ensures |a| <= |b|
    decreases |a|
  {
    if a != {} {
      var x :| x in a;
      SubsetNoLarger(a - {x}, b - {x});
    }
  }

  /** A pass that adds ids leaves fewer comments outside the set. */
  lemma GrowthShrinksRest(keys: set<Id>, before: set<Id>, ids: set<Id>)
    requires before <= ids <= keys && ids != before
    ensures |keys - ids| < |keys - before|
  {
    assert !(ids <= before);
    var x :| x in ids && x !in before;
    SubsetNoLarger(keys - ids, (keys - before) - {x});
  }

  /** One pass of the closure loop: add to `ids` every reply to one of its
      members, counting the ids that were new. */
  method AddReplies(cs: map<Id, Comment>, ids: set<Id>) returns (next: set<Id>, added: nat)
    ensures next == ids + Children(cs, ids)
    ensures added == |next| - |ids|
    ensures added == 0 <==> Closed(cs, ids)
  {
    var replies := Children(cs, ids);
    next, added := ids, 0;
    var todo := replies;
    while todo != {}
      invariant todo <= replies
      invariant forall x :: x in next <==> x in ids || (x in replies && x !in todo)
      invariant added == |next| - |ids|
      invariant added == 0 <==> next <= ids
      decreases |todo|
    {
      var reply :| reply in todo;
      if reply !in next {
        next := next + {reply};
        added := added + 1;
      }
      todo := todo - {reply};
    }
  }

  /** The ids of `s` that some member of `s` names as parent. */
  function ParentsWithin(cs: map<Id, Comment>, s: set<Id>): (r: set<Id>)
    ensures r <= s
  {
    set p | p in s && exists id :: id in s && id in cs && cs[id].parent == Some(p)
  }

  /** The state of the leaves-first deletion: `current` is the table with the
      deleted ids gone, `order` lists them, and none of them is the parent of
      an id that is still to be deleted. */
  ghost predicate DeletionState(cs: map<Id, Comment>, allIds: set<Id>, remaining: set<Id>,
                                current: map<Id, Comment>, order: seq<Id>) {
    remaining <= allIds && allIds <= cs.Keys &&
    current == cs - (allIds - remaining) &&
    Enumerates(order, allIds - remaining) &&
    LeavesFirst(cs, order) &&
    forall i, y :: 0 <= i < |order| && y in remaining ==> cs[y].parent != Some(order[i])
  }

  lemma DeletionStart(cs: map<Id, Comment>, allIds: set<Id>)
    requires allIds <= cs.Keys
    ensures DeletionState(cs, allIds, allIds, cs, [])
  {
    assert cs - (allIds - allIds) == cs;
  }

  /** Deleting a remaining id that no remaining id names as parent keeps the
      deletion state. */
  lemma DeleteOneLeaf(cs: map<Id, Comment>, allIds: set<Id>, remaining: set<Id>,
                      current: map<Id, Comment>, order: seq<Id>, id: Id)
    requires DeletionState(cs, allIds, remaining, current, order)
    requires id in remaining && forall y :: y in remaining ==> cs[y].parent != Some(id)
    ensures DeletionState(cs, allIds, remaining - {id}, current - {id}, order + [id])
  {
    assert current - {id} == cs - (allIds - (remaining - {id}));
    var o := order + [id];
    forall x ensures x in o <==> x in allIds - (remaining - {id}) {
      assert x in o <==> x in order || x == id;
    }
  }

  /** Within the rows still to delete, the table and the original agree, so
      the parents found are the original ones; and there is a leaf among them. */
  lemma PassFindsLeaf(cs: map<Id, Comment>, allIds: set<Id>, remaining: set<Id>,
                      current: map<Id, Comment>, order: seq<Id>)
    requires DeletionState(cs, allIds, remaining, current, order)
    requires ParentsPrecede(cs) && remaining != {}
    ensures remaining <= current.Keys
    ensures ParentsWithin(current, remaining) == ParentsWithin(cs, remaining)
    ensures remaining - ParentsWithin(cs, remaining) != {}
    ensures forall x, y :: x in remaining - ParentsWithin(cs, remaining) && y in remaining ==>
      cs[y].parent != Some(x)
  {
    assert forall x :: x in remaining ==> x in current && current[x] == cs[x];
    var leaf := NewestIsLeaf(cs, remaining);
    assert leaf in remaining - ParentsWithin(cs, remaining);
  }

  // ------------------------------------------------------------ like counts

  /** The like rows on comment `c`. */
  function LikeRowsOn(likes: set<Like>, c: Id): set<Like> {
    set l | l in likes && l.1 == c
  }

  /** The users who liked comment `c`. */
  function LikersOf(likes: set<Like>, c: Id): set<Id> {
    set l | l in likes && l.1 == c :: l.0
  }

  /** The users of a set of like rows on one comment. */
  function Likers(rows: set<Like>): set<Id> {
    set l | l in rows :: l.0
  }

  /** Like rows on one comment differ in their user, so there are as many
      rows as users. */
  lemma {:induction false} OneRowPerLiker(rows: set<Like>, c: Id)
    requires forall l :: l in rows ==> l.1 == c
    ensures |Likers(rows)| == |rows|
    decreases |rows|
  {
    if rows != {} {
      var l :| l in rows;
      var rest := rows - {l};
      OneRowPerLiker(rest, c);
      assert Likers(rows) == Likers(rest) + {l.0};
      assert forall m :: m in rest ==> m.0 != l.0;
    }
  }

  /** The row count of a comment is its number of distinct likers. */
  lemma RowsCountLikers(likes: set<Like>, c: Id)
    ensures |LikeRowsOn(likes, c)| == |LikersOf(likes, c)|
  {
    assert LikersOf(likes, c) == Likers(LikeRowsOn(likes, c));
    OneRowPerLiker(LikeRowsOn(likes, c), c);
  }

  /** A comment as the API lists it: the row with its like data. */
  datatype CommentView = CommentView(
    id: Id,
    threadId: Id,
    authorId: Id,
    parentCommentId: Option<Id>,
    content: string,
    createdAt: nat,
    likeCount: nat,
    likedByCurrentUser: bool)

  /** `SELECT commentId, COUNT(*) ... WHERE commentId IN ids GROUP BY commentId`:
      a count for every listed comment that has at least one like row. */
  function GroupedLikeCounts(likes: set<Like>, ids: set<Id>): (m: map<Id, nat>)
    ensures forall c :: c in m <==> c in ids && LikeRowsOn(likes, c) != {}
  {
    map c | c in ids && LikeRowsOn(likes, c) != {} :: |LikeRowsOn(likes, c)|
  }

  /** The listed comments that the current user liked; none without a user. */
  function LikedByUser(likes: set<Like>, userId: Option<Id>, ids: set<Id>): (r: set<Id>)
    ensures r <= ids
  {
    if Truthy(userId) then set c | c in ids && (userId.value, c) in likes else {}
  }

  function RowIds(rows: seq<(Id, Comment)>): set<Id> {
    set i | 0 <= i < |rows| :: rows[i].0
  }

  function ToView(row: (Id, Comment), likeCount: nat, liked: bool): (v: CommentView)
    ensures v.id == row.0 && v.parentCommentId == row.1.parent && v.threadId == row.1.threadId &&
            v.authorId == row.1.authorId && v.content == row.1.content && v.createdAt == row.1.createdAt
    ensures v.likeCount == likeCount && v.likedByCurrentUser == liked
  {
    var c := row.1;
    CommentView(row.0, c.threadId, c.authorId, c.parent, c.content, c.createdAt, likeCount, liked)
  }

  /** `countMap.get(id) || 0` */
  function CountOf(counts: map<Id, nat>, c: Id): nat {
    if c in counts then counts[c] else 0
  }

  /** The grouped count of a listed comment is its number of likers, and 0
      when the query returned no row for it. */
  lemma GroupedCountIsLikers(likes: set<Like>, ids: set<Id>, c: Id)
    requires c in ids
    ensures CountOf(GroupedLikeCounts(likes, ids), c) == |LikersOf(likes, c)|
  {
    RowsCountLikers(likes, c);
  }

  /** `enrichCommentsWithLikes(comments, userId)`: each comment, in order,
      with its number of likes and whether the given user liked it. */
  function EnrichCommentsWithLikes(rows: seq<(Id, Comment)>, likes: set<Like>, userId: Option<Id>): (r: seq<CommentView>)
    ensures |r| == |rows|
    ensures forall i :: 0 <= i < |rows| ==>
      r[i].id == rows[i].0 && r[i].parentCommentId == rows[i].1.parent &&
      r[i].threadId == rows[i].1.threadId && r[i].authorId == rows[i].1.authorId &&
      r[i].content == rows[i].1.content && r[i].createdAt == rows[i].1.createdAt
    ensures forall i :: 0 <= i < |rows| ==> r[i].likeCount == |LikersOf(likes, rows[i].0)|
    ensures forall i :: 0 <= i < |rows| ==>
      (r[i].likedByCurrentUser <==> Truthy(userId) && (userId.value, rows[i].0) in likes)
  {
    if |rows| == 0 then []
    else
      var ids := RowIds(rows);
      var counts := GroupedLikeCounts(likes, ids);
      var liked := LikedByUser(likes, userId, ids);
      var r := seq(|rows|, i requires 0 <= i < |rows| => ToView(rows[i], CountOf(counts, rows[i].0), rows[i].0 in liked));
      assert forall i :: 0 <= i < |rows| ==> r[i].likeCount == |LikersOf(likes, rows[i].0)| by {
        forall i | 0 <= i < |rows| ensures r[i].likeCount == |LikersOf(likes, rows[i].0)| {
          GroupedCountIsLikers(likes, ids, rows[i].0);
        }
      }
      r
  }

  // ---------------------------------------------------------- likes and pins

  datatype LikeReply = LikeReply(message: string, liked: bool)

  datatype PinReply = PinReply(message: string, pinned: bool)

  /** `likeComment(commentId, userId)`: the reply and the new like table. */
  function LikeStep(cs: map<Id, Comment>, users: set<Id>, likes: set<Like>, commentId: Id, userId: Id)
    : (Result<LikeReply>, set<Like>)
  {
    if commentId !in cs then (Err(NotFound("Comment not found")), likes)
    else if userId !in users then (Err(NotFound("User not found")), likes)
    else if (userId, commentId) in likes then (Ok(LikeReply("Comment already liked", true)), likes)
    else (Ok(LikeReply("Comment liked successfully", true)), likes + {(userId, commentId)})
  }

  /** `unlikeComment(commentId, userId)`: never an error. */
  function UnlikeStep(likes: set<Like>, commentId: Id, userId: Id): (LikeReply, set<Like>) {
    if (userId, commentId) !in likes then (LikeReply("Comment not liked", false), likes)
    else (LikeReply("Comment unliked successfully", false), likes - {(userId, commentId)})
  }

  /** `toggleCommentLike(commentId, userId)`: remove an existing like, else like. */
  function ToggleLikeStep(cs: map<Id, Comment>, users: set<Id>, likes: set<Like>, commentId: Id, userId: Id)
    : (Result<LikeReply>, set<Like>)
  {
    if (userId, commentId) in likes then
      (Ok(LikeReply("Comment unliked successfully", false)), likes - {(userId, commentId)})
    else LikeStep(cs, users, likes, commentId, userId)
  }

  /** Liking changes nothing but the one row, and liking twice adds nothing
      more: the second call reports `liked` = true. */
  lemma LikeIsIdempotent(cs: map<Id, Comment>, users: set<Id>, likes: set<Like>, c: Id, u: Id)
    ensures var (r1, l1) := LikeStep(cs, users, likes, c, u);
      var (r2, l2) := LikeStep(cs, users, l1, c, u);
      l2 == l1 && l1 - {(u, c)} == likes - {(u, c)} &&
      (r1.Ok? ==> (u, c) in l1 && r1.value.liked && r2 == Ok(LikeReply("Comment already liked", true))) &&
      (r1.Err? ==> l1 == likes && (r1.error.message == "Comment not found" <==> c !in cs))
  {
  }

  /** Unliking an absent like is not an error and reports `liked` = false. */
  lemma UnlikeAbsentIsNoOp(likes: set<Like>, c: Id, u: Id)
    requires (u, c) !in likes
    ensures UnlikeStep(likes, c, u) == (LikeReply("Comment not liked", false), likes)
  {
  }

  /** A successful toggle flips whether the user likes the comment, reports
      the new state and touches no other row; toggling twice restores the table. */
  lemma ToggleLikeFlips(cs: map<Id, Comment>, users: set<Id>, likes: set<Like>, c: Id, u: Id)
    ensures var (r, l) := ToggleLikeStep(cs, users, likes, c, u);
      r.Ok? ==> ((u, c) in l <==> (u, c) !in likes) && r.value.liked == ((u, c) in l) &&
                l - {(u, c)} == likes - {(u, c)}
    ensures var (r, l) := ToggleLikeStep(cs, users, likes, c, u);
      r.Ok? && c in cs && u in users ==> ToggleLikeStep(cs, users, l, c, u) .1 == likes
    ensures var (r, l) := ToggleLikeStep(cs, users, likes, c, u);
      r.Err? <==> (u, c) !in likes && (c !in cs || u !in users)
  {
  }

  /** `pin(threadId, userId)` */
  function PinStep(kind: ThreadKind, threads: set<Id>, users: set<Id>, pins: set<Pin>, threadId: Id, userId: Id)
    : (Result<PinReply>, set<Pin>)
  {
    if threadId !in threads then (Err(NotFound(kind.Noun() + " not found")), pins)
    else if userId !in users then (Err(NotFound("User not found")), pins)
    else if (userId, threadId) in pins then (Ok(PinReply(kind.Noun() + " is already pinned", true)), pins)
    else (Ok(PinReply(kind.Noun() + " pinned successfully", true)), pins + {(userId, threadId)})
  }

  /** `unpin(threadId, userId)` */
  function UnpinStep(kind: ThreadKind, pins: set<Pin>, threadId: Id, userId: Id): (Result<PinReply>, set<Pin>) {
    if (userId, threadId) !in pins then (Err(NotFound("Pinned " + kind.LowerNoun() + " not found")), pins)
    else (Ok(PinReply(kind.Noun() + " unpinned successfully", false)), pins - {(userId, threadId)})
  }

  /** `togglePin(threadId, userId)` */
  function TogglePinStep(kind: ThreadKind, threads: set<Id>, users: set<Id>, pins: set<Pin>, threadId: Id, userId: Id)
    : (Result<PinReply>, set<Pin>)
  {
    if (userId, threadId) in pins then UnpinStep(kind, pins, threadId, userId)
    else PinStep(kind, threads, users, pins, threadId, userId)
  }

  /** Pinning twice is pinning once; the second call reports `pinned` = true. */
  lemma PinIsIdempotent(kind: ThreadKind, threads: set<Id>, users: set<Id>, pins: set<Pin>, t: Id, u: Id)
    ensures var (r1, p1) := PinStep(kind, threads, users, pins, t, u);
      var (r2, p2) := PinStep(kind, threads, users, p1, t, u);
      p2 == p1 && p1 - {(u, t)} == pins - {(u, t)} &&
      (r1.Ok? ==> (u, t) in p1 && r1.value.pinned && r2 == Ok(PinReply(kind.Noun() + " is already pinned", true))) &&
      (r1.Err? ==> p1 == pins)
  {
  }

  /** Unpinning what is not pinned fails with NotFound and changes nothing. */
  lemma UnpinAbsentFails(kind: ThreadKind, pins: set<Pin>, t: Id, u: Id)
    ensures UnpinStep(kind, pins, t, u).0.Err? <==> (u, t) !in pins
    ensures (u, t) !in pins ==> UnpinStep(kind, pins, t, u) == (Err(NotFound("Pinned " + kind.LowerNoun() + " not found")), pins)
  {
  }

  /** A successful toggle flips the pin and reports the new state. */
  lemma TogglePinFlips(kind: ThreadKind, threads: set<Id>, users: set<Id>, pins: set<Pin>, t: Id, u: Id)
    ensures var (r, p) := TogglePinStep(kind, threads, users, pins, t, u);
      r.Ok? ==> ((u, t) in p <==> (u, t) !in pins) && r.value.pinned == ((u, t) in p) &&
                p - {(u, t)} == pins - {(u, t)}
    ensures var (r, p) := TogglePinStep(kind, threads, users, pins, t, u);
      r.Err? <==> (u, t) !in pins && (t !in threads || u !in users)
  {
  }

  /** `isPinned`: present only for a logged-in user, true iff that user pinned the thread. */
  function IsPinned(pins: set<Pin>, threadId: Id, userId: Option<Id>): (r: Option<bool>)
    ensures r.Some? <==> Truthy(userId)
    ensures r == Some(true) <==> Truthy(userId) && (userId.value, threadId) in pins
  {
    if Truthy(userId) then Some((userId.value, threadId) in pins) else None
  }
}
