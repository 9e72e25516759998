/** The tutorial service: lookup by UUID or slug, view counting, and
    partial updates of a tutorial row. */
module Tutorials {
  import opened Wrappers

  type Id = string

  /** The ten nullable text columns of a tutorial. */
  datatype TextColumn =
    Thumbnail | VideoUrl | EmbedUrl | Category | Source | Language | Duration
    | AuthorName | AuthorAvatarUrl | AuthorRole

  /** A tutorial row. A text column absent from `texts` is null; `viewCount`
      is `None` while the row holds no value for it; `publishedAt` keeps the
      date as it was sent. */
  datatype Tutorial = Tutorial(
    slug: string,
    title: string,
    description: string,
    texts: map<TextColumn, string>,
    viewCount: Option<int>,
    likes: int,
    commentCount: int,
    publishedAt: Option<string>)

  /** `CreateTutorialDto`. A text column missing from `texts` is undefined,
      one mapped to `None` is null. */
  datatype CreateRequest = CreateRequest(
    slug: string,
    title: string,
    description: string,
    texts: map<TextColumn, Option<string>>,
    likes: Option<int>,
    commentCount: Option<int>,
    publishedAt: Option<string>)

  /** `UpdateTutorialDto`: `None` is undefined; for `publishedAt`,
      `Some(None)` is an explicit null. */
  datatype UpdateRequest = UpdateRequest(
    slug: Option<string>,
    title: Option<string>,
    description: Option<string>,
    texts: map<TextColumn, Option<string>>,
    likes: Option<int>,
    commentCount: Option<int>,
    publishedAt: Option<Option<string>>)

  /** The `{ message, data }` body of `create` and `update`. */
  datatype Reply = Reply(message: string, id: Id, data: Tutorial)

  predicate IsHexDigit(c: char) {
    ('0' <= c <= '9') || ('a' <= c <= 'f') || ('A' <= c <= 'F')
  }

  /** The positions of the four hyphens of a UUID. */
  predicate IsHyphenPosition(i: int) {
    i == 8 || i == 13 || i == 18 || i == 23
  }

  /** `/^[0-9a-f]{8}-[0-9a-f]{4}-[0-9a-f]{4}-[0-9a-f]{4}-[0-9a-f]{12}$/i` */
  predicate IsUuid(s: string) {
    && |s| == 36
    && forall i :: 0 <= i < |s| ==> if IsHyphenPosition(i) then s[i] == '-' else IsHexDigit(s[i])
  }

  function LowerChar(c: char): (d: char)
    ensures 'A' <= c <= 'Z' ==> d as int == c as int + 32
    ensures !('A' <= c <= 'Z') ==> d == c
  {
    if 'A' <= c <= 'Z' then (c as int + 32) as char else c
  }

  function Lower(s: string): (t: string)
    ensures |t| == |s| && forall i :: 0 <= i < |s| ==> t[i] == LowerChar(s[i])
  {
    seq(|s|, i requires 0 <= i < |s| => LowerChar(s[i]))
  }

  /** Folding case twice is folding it once. */
  lemma LowerIdempotent(s: string)
    ensures Lower(Lower(s)) == Lower(s)
  {
  }

  /** The pattern ignores case: a string and its lower-case form are both
      UUIDs or both not. */
  lemma {:induction false} UuidIgnoresCase(s: string)
    ensures IsUuid(s) <==> IsUuid(Lower(s))
  {
    forall i | 0 <= i < |s|
      ensures IsHexDigit(s[i]) <==> IsHexDigit(Lower(s)[i])
      ensures s[i] == '-' <==> Lower(s)[i] == '-'
    {
    }
  }

  /** The stored value of a text column on create: undefined and null both
      become null. */
  function CreatedTexts(texts: map<TextColumn, Option<string>>): (r: map<TextColumn, string>)
    ensures forall c :: c in r <==> c in texts && texts[c].Some?
    ensures forall c :: c in r ==> r[c] == texts[c].value
  {
    map c | c in texts && texts[c].Some? :: texts[c].value
  }

  /** The text columns after an update: a column sent (null included)
      replaces the stored one, an unsent column is kept. */
  function PatchedTexts(stored: map<TextColumn, string>, sent: map<TextColumn, Option<string>>): (r: map<TextColumn, string>)
    ensures forall c :: c !in sent ==> (c in r <==> c in stored) && (c in r ==> r[c] == stored[c])
    ensures forall c :: c in sent ==> (c in r <==> sent[c].Some?) && (c in r ==> r[c] == sent[c].value)
  {
    map c | (c in sent && sent[c].Some?) || (c !in sent && c in stored) ::
      if c in sent then sent[c].value else stored[c]
  }

  /** `dto.publishedAt ? new Date(dto.publishedAt) : null` */
  function PublishedAt(sent: Option<string>): (r: Option<string>)
    ensures r.Some? <==> Truthy(sent)
    ensures r.Some? ==> r == sent
  {
    if Truthy(sent) then sent else None
  }

  /** The row `create` stores; the database fills `viewCount` with 0. */
  function NewTutorial(req: CreateRequest): (t: Tutorial)
    ensures t.slug == req.slug && t.title == req.title && t.description == req.description
    ensures t.texts == CreatedTexts(req.texts)
    ensures t.likes == req.likes.GetOr(0) && t.commentCount == req.commentCount.GetOr(0)
    ensures t.viewCount == Some(0) && t.publishedAt == PublishedAt(req.publishedAt)
  {
    Tutorial(req.slug, req.title, req.description, CreatedTexts(req.texts), Some(0),
             req.likes.GetOr(0), req.commentCount.GetOr(0), PublishedAt(req.publishedAt))
  }

  /** What `update` makes of a tutorial: every defined property replaces the
      stored one; a falsy `publishedAt` becomes null; `viewCount` is kept. */
  function Revised(t: Tutorial, req: UpdateRequest): (r: Tutorial)
    ensures r.slug == req.slug.GetOr(t.slug) && r.title == req.title.GetOr(t.title)
    ensures r.description == req.description.GetOr(t.description)
    ensures r.texts == PatchedTexts(t.texts, req.texts)
    ensures r.likes == req.likes.GetOr(t.likes) && r.commentCount == req.commentCount.GetOr(t.commentCount)
    ensures r.publishedAt == if req.publishedAt.Some? then PublishedAt(req.publishedAt.value) else t.publishedAt
    ensures r.viewCount == t.viewCount
  {
    Tutorial(req.slug.GetOr(t.slug), req.title.GetOr(t.title), req.description.GetOr(t.description),
             PatchedTexts(t.texts, req.texts), t.viewCount,
             req.likes.GetOr(t.likes), req.commentCount.GetOr(t.commentCount),
             if req.publishedAt.Some? then PublishedAt(req.publishedAt.value) else t.publishedAt)
  }

  /** An update with nothing defined leaves the tutorial as it is. */
  lemma {:induction false} EmptyUpdateChangesNothing(t: Tutorial)
    ensures Revised(t, UpdateRequest(None, None, None, map[], None, None, None)) == t
  {
    assert PatchedTexts(t.texts, map[]) == t.texts;
  }

  class TutorialsService {
    var tutorials: map<Id, Tutorial>

    /** The `uuid` primary key: the database hands every key out as a
        UUID in lower case. */
    predicate Valid()
      reads this
    {
      forall id :: id in tutorials ==> IsUuid(id) && Lower(id) == id
    }

    constructor ()
      ensures Valid() && tutorials == map[]
    {
      tutorials := map[];
    }

    /** `findOne({ where: { id } })`: the database compares a `uuid` column
        without regard to case, so a UUID in any case finds its row. */
    method FindById(id: string) returns (r: Option<Id>)
      requires Valid()
      ensures r.Some? <==> IsUuid(id) && exists k :: k in tutorials && Lower(k) == Lower(id)
      ensures r.Some? ==> r.value in tutorials && r.value == Lower(id)
    {
      if IsUuid(id) && Lower(id) in tutorials {
        LowerIdempotent(id);
        return Some(Lower(id));
      }
      return None;
    }

    /** The `findOne` of `getById`: by id when the argument reads as a
        UUID, by slug otherwise. */
    method Find(idOrSlug: string) returns (r: Option<Id>)
      requires Valid()
      ensures IsUuid(idOrSlug) ==>
        && (r.Some? <==> exists k :: k in tutorials && Lower(k) == Lower(idOrSlug))
        && (r.Some? ==> r.value == Lower(idOrSlug))
      ensures r.Some? ==> r.value in tutorials
      ensures !IsUuid(idOrSlug) && r.Some? ==> tutorials[r.value].slug == idOrSlug
      ensures !IsUuid(idOrSlug) && r.None? ==> forall id :: id in tutorials ==> tutorials[id].slug != idOrSlug
    {
      if IsUuid(idOrSlug) {
        r := FindById(idOrSlug);
        return;
      }
      if exists id :: id in tutorials && tutorials[id].slug == idOrSlug {
        var id :| id in tutorials && tutorials[id].slug == idOrSlug;
        return Some(id);
      }
      return None;
    }

    /** `getById(idOrSlug)` */
    method GetById(idOrSlug: string) returns (r: Result<Tutorial>)
      requires Valid()
      ensures IsUuid(idOrSlug) ==>
        && (r.Ok? <==> exists k :: k in tutorials && Lower(k) == Lower(idOrSlug))
        && (r.Ok? ==> r.value == tutorials[Lower(idOrSlug)])
      ensures !IsUuid(idOrSlug) ==> (r.Ok? <==> exists id :: id in tutorials && tutorials[id].slug == idOrSlug)
      ensures r.Ok? ==> r.value in tutorials.Values && (!IsUuid(idOrSlug) ==> r.value.slug == idOrSlug)
      ensures r.Err? ==> r.error == NotFound("Tutorial not found")
    {
      var id := Find(idOrSlug);
      if id.None? {
        return Err(NotFound("Tutorial not found"));
      }
      return Ok(tutorials[id.value]);
    }

    /** `incrementViewCount(idOrSlug)`; `who` is the row it counted. */
    method IncrementViewCount(idOrSlug: string) returns (r: Result<Tutorial>, ghost who: Option<Id>)
      requires Valid()
      modifies this`tutorials
      ensures Valid()
      ensures r.Err? <==> who.None?
      ensures r.Err? ==> r.error == NotFound("Tutorial not found") && tutorials == old(tutorials)
      ensures who.Some? ==>
        && who.value in old(tutorials)
        && (IsUuid(idOrSlug) ==> who.value == Lower(idOrSlug))
        && (!IsUuid(idOrSlug) ==> old(tutorials)[who.value].slug == idOrSlug)
        && r.value == old(tutorials)[who.value].(viewCount := Some(old(tutorials)[who.value].viewCount.GetOr(0) + 1))
        && tutorials == old(tutorials)[who.value := r.value]
      ensures IsUuid(idOrSlug) ==> (who.Some? <==> exists k :: k in old(tutorials) && Lower(k) == Lower(idOrSlug))
      ensures !IsUuid(idOrSlug) ==> (who.Some? <==> exists id :: id in old(tutorials) && old(tutorials)[id].slug == idOrSlug)
    {
      var id := Find(idOrSlug);
      who := id;
      if id.None? {
        return Err(NotFound("Tutorial not found")), who;
      }
      var tutorial := tutorials[id.value];
      tutorial := tutorial.(viewCount := Some(tutorial.viewCount.GetOr(0) + 1));
      tutorials := tutorials[id.value := tutorial];
      return Ok(tutorial), who;
    }

    /** `create(dto)`; `id` is the lower-case UUID the database generates
        for the row. */
    method Create(req: CreateRequest, id: Id) returns (r: Reply)
      requires Valid() && IsUuid(id) && Lower(id) == id && id !in tutorials
      modifies this`tutorials
      ensures Valid()
      ensures r.message == "Tutorial created" && r.id == id && r.data == NewTutorial(req)
      ensures tutorials == old(tutorials)[id := r.data]
    {
      var t := NewTutorial(req);
      tutorials := tutorials[id := t];
      return Reply("Tutorial created", id, t);
    }

    /** `update(id, dto)`: looks up by id only, never by slug. */
    method Update(id: Id, req: UpdateRequest) returns (r: Result<Reply>)
      requires Valid()
      modifies this`tutorials
      ensures Valid()
      ensures r.Err? <==> !(IsUuid(id) && Lower(id) in old(tutorials))
      ensures r.Err? ==> r == Err(NotFound("Tutorial not found")) && tutorials == old(tutorials)
      ensures r.Ok? ==>
        var key := Lower(id);
        && r == Ok(Reply("Tutorial updated", key, Revised(old(tutorials)[key], req)))
        && tutorials == old(tutorials)[key := r.value.data]
    {
      var found := FindById(id);
      if found.None? {
        return Err(NotFound("Tutorial not found"));
      }
      var key := found.value;
      var t := tutorials[key];
      if req.slug.Some? {
        t := t.(slug := req.slug.value);
      }
      if req.title.Some? {
        t := t.(title := req.title.value);
      }
      if req.description.Some? {
        t := t.(description := req.description.value);
      }
      t := t.(texts := PatchedTexts(t.texts, req.texts));
      if req.likes.Some? {
        t := t.(likes := req.likes.value);
      }
      if req.commentCount.Some? {
        t := t.(commentCount := req.commentCount.value);
      }
      if req.publishedAt.Some? {
        t := t.(publishedAt := PublishedAt(req.publishedAt.value));
      }
      tutorials := tutorials[key := t];
      return Ok(Reply("Tutorial updated", key, t));
    }

    /** `delete(id)`: looks up by id only. */
    method Delete(id: Id) returns (r: Result<string>)
      requires Valid()
      modifies this`tutorials
      ensures Valid()
      ensures r.Err? <==> !(IsUuid(id) && Lower(id) in old(tutorials))
      ensures r.Err? ==> r == Err(NotFound("Tutorial not found")) && tutorials == old(tutorials)
      ensures r.Ok? ==> r == Ok("Tutorial deleted") && tutorials == old(tutorials) - {Lower(id)}
    {
      var found := FindById(id);
      if found.None? {
        return Err(NotFound("Tutorial not found"));
      }
      tutorials := tutorials - {found.value};
      return Ok("Tutorial deleted");
    }
  }
}
