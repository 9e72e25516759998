/** The workflow service: workflows carry a title, optional description and
    image, an optional label and a set of tags. Tags are named either by id
    (which must all exist) or by title (trimmed, reused when a tag of that
    title exists, created otherwise). */
module Workflows {
  import opened Wrappers
  import opened Strings
  import opened ImageFiles

  type Id = string

  datatype Workflow = Workflow(
    title: string,
    description: Option<string>,
    image: Option<string>,
    labelId: Option<Id>,
    tags: set<Id>)

  /** `CreateWorkflowDto`; `None` is an absent (undefined) property. */
  datatype CreateRequest = CreateRequest(
    title: string,
    description: Option<string>,
    image: Option<string>,
    labelId: Option<string>,
    tagIds: Option<seq<Id>>,
    tagTitles: Option<seq<string>>)

  /** `UpdateWorkflowDto`: every property optional. `labelId` tells an
      absent property (`None`) from an explicit `null` (`Some(None)`),
      because `update` treats the two differently. */
  datatype UpdateRequest = UpdateRequest(
    title: Option<string>,
    description: Option<string>,
    image: Option<string>,
    labelId: Option<Option<string>>,
    tagIds: Option<seq<Id>>,
    tagTitles: Option<seq<string>>)

  // ---------------------------------------------------------------------
  // Tag resolution
  // ---------------------------------------------------------------------

  predicate Distinct(s: seq<Id>) {
    forall i, j :: 0 <= i < j < |s| ==> s[i] != s[j]
  }

  /** The tag table keeps titles unique (the `title` column is unique). */
  ghost predicate TitlesUnique(tags: map<Id, string>) {
    forall a, b :: a in tags && b in tags && tags[a] == tags[b] ==> a == b
  }

  /** A title that `!tagTitle || !tagTitle.trim()` skips. */
  predicate Blank(t: string) {
    Trim(t) == ""
  }

  /** The trimmed titles of the non-blank entries of `titles`. */
  function TitleSet(titles: seq<string>): (r: set<string>)
    ensures "" !in r
  {
    set j | 0 <= j < |titles| && !Blank(titles[j]) :: Trim(titles[j])
  }

  /** The rows `find({ where: { id: In(tagIds) } })` returns, as a set of ids. */
  function Found(tagIds: seq<Id>, known: set<Id>): (r: set<Id>)
    ensures r <= known
    ensures forall x :: x in r <==> x in tagIds && x in known
  {
    set x | x in tagIds && x in known
  }

  /** The ids of a list, as the set a `find({ where: { id: In(list) } })` returns. */
  function Elems(ids: seq<Id>): (r: set<Id>)
    ensures forall x :: x in r <==> x in ids
  {
    set x | x in ids
  }

  predicate AllKnown(tagIds: seq<Id>, known: set<Id>) {
    forall i :: 0 <= i < |tagIds| ==> tagIds[i] in known
  }

  /** `existingTags.length !== tagIds.length` rejects exactly the lists with an
      unknown id or a repeated id. */
  lemma {:induction false} MatchCount(tagIds: seq<Id>, known: set<Id>)
    ensures |Found(tagIds, known)| <= |tagIds|
    ensures |Found(tagIds, known)| == |tagIds| <==> Distinct(tagIds) && AllKnown(tagIds, known)
  {
    if tagIds == [] {
      assert Found(tagIds, known) == {};
    } else {
      var n := |tagIds| - 1;
      var init, last := tagIds[..n], tagIds[n];
      MatchCount(init, known);
      assert tagIds == init + [last];
      var f, g := Found(init, known), Found(tagIds, known);
      if last in known && last !in init {
        assert g == f + {last};
        assert Distinct(tagIds) <==> Distinct(init) by {
          if Distinct(init) {
            forall i, j | 0 <= i < j < |tagIds|
              ensures tagIds[i] != tagIds[j]
            {
              if j == n {
                assert tagIds[i] in init;
              } else {
                assert tagIds[i] == init[i] && tagIds[j] == init[j];
              }
            }
          } else {
            var i, j :| 0 <= i < j < |init| && init[i] == init[j];
            assert tagIds[i] == tagIds[j];
          }
        }
        assert AllKnown(tagIds, known) <==> AllKnown(init, known) by {
          if AllKnown(init, known) {
            forall i | 0 <= i < |tagIds|
              ensures tagIds[i] in known
            {
              if i < n {
                assert tagIds[i] == init[i];
              }
            }
          } else {
            var i :| 0 <= i < |init| && init[i] !in known;
            assert tagIds[i] == init[i];
          }
        }
      } else {
        assert g == f;
        if last !in known {
          assert !AllKnown(tagIds, known);
        } else {
          var i :| 0 <= i < |init| && init[i] == last;
          assert tagIds[i] == tagIds[n];
          assert !Distinct(tagIds);
        }
      }
    }
  }

  /** `newTags` holds every row of `oldTags` unchanged. */
  ghost predicate Extends(oldTags: map<Id, string>, newTags: map<Id, string>) {
    forall k :: k in oldTags ==> k in newTags && newTags[k] == oldTags[k]
  }

  /** The tag table after the title loop: the old rows, plus exactly one row
      for each trimmed non-blank title no row had. */
  ghost predicate TagsGrown(oldTags: map<Id, string>, newTags: map<Id, string>, titles: seq<string>) {
    && Extends(oldTags, newTags)
    && TitlesUnique(newTags)
    && newTags.Values == oldTags.Values + TitleSet(titles)
  }

  /** The collected `allTagIds`: every given id, plus the tag named by every
      non-blank title, and nothing else. */
  ghost predicate TagsResolved(newTags: map<Id, string>, tagIds: seq<Id>, titles: seq<string>, result: set<Id>) {
    forall x :: x in result <==> x in tagIds || (x in newTags && newTags[x] in TitleSet(titles))
  }

  /** `ids` lists every given id and the tag of every title in `named`. */
  ghost predicate Collected(tags: map<Id, string>, tagIds: seq<Id>, named: set<string>, ids: seq<Id>) {
    forall x :: x in ids <==> x in tagIds || (x in tags && tags[x] in named)
  }

  /** One non-blank title of the loop, with `title` its trimmed text: the
      collected ids stay in step with the titles walked so far. */
  lemma CollectStep(tags0: map<Id, string>, tags1: map<Id, string>, tagIds: seq<Id>,
                    named0: set<string>, named1: set<string>, title: string,
                    ids0: seq<Id>, ids1: seq<Id>, id: Id)
    requires id in tags1 && tags1[id] == title
    requires TitlesUnique(tags1) && Extends(tags0, tags1)
    requires named1 == named0 + {title} && named0 <= tags0.Values
    requires Collected(tags0, tagIds, named0, ids0)
    requires (id in ids0 && ids1 == ids0) || ids1 == ids0 + [id]
    ensures Collected(tags1, tagIds, named1, ids1)
  {
    assert forall x :: x in ids1 <==> x in ids0 || x == id;
    forall x | x in tags1 && tags1[x] in named1
      ensures x in ids1
    {
      if tags1[x] != title {
        assert tags1[x] in tags0.Values;
        var k :| k in tags0 && tags0[k] == tags1[x];
        assert tags1[k] == tags1[x];
      }
    }
  }

  lemma UnionStep(after: set<string>, before: set<string>, base: set<string>, named: set<string>, title: string)
    requires after == before + {title} && before == base + named
    ensures after == base + (named + {title})
  {
  }

  lemma DistinctAppend(ids: seq<Id>, id: Id)
    requires Distinct(ids) && id !in ids
    ensures Distinct(ids + [id])
  {
  }

  lemma ValuesAfterInsert(tags: map<Id, string>, id: Id, title: string)
    requires id !in tags
    ensures tags[id := title].Values == tags.Values + {title}
  {
    var t := tags[id := title];
    forall v | v in t.Values
      ensures v in tags.Values + {title}
    {
      var k :| k in t && t[k] == v;
      if k != id {
        assert tags[k] == v;
      }
    }
    forall v | v in tags.Values
      ensures v in t.Values
    {
      var k :| k in tags && tags[k] == v;
      assert t[k] == v;
    }
    assert t[id] == title;
  }

  lemma TitleSetStep(titles: seq<string>, n: nat)
    requires n < |titles|
    ensures !Blank(titles[n]) ==> TitleSet(titles[..n + 1]) == TitleSet(titles[..n]) + {Trim(titles[n])}
    ensures Blank(titles[n]) ==> TitleSet(titles[..n + 1]) == TitleSet(titles[..n])
  {
    var s0, s1 := titles[..n], titles[..n + 1];
    var extra: set<string> := if Blank(titles[n]) then {} else {Trim(titles[n])};
    forall t | t in TitleSet(s1)
      ensures t in TitleSet(s0) + extra
    {
      var j :| 0 <= j < |s1| && !Blank(s1[j]) && t == Trim(s1[j]);
      if j < n {
        assert s0[j] == s1[j];
      }
    }
    forall t | t in TitleSet(s0)
      ensures t in TitleSet(s1)
    {
      var j :| 0 <= j < |s0| && !Blank(s0[j]) && t == Trim(s0[j]);
      assert s1[j] == s0[j];
    }
    if !Blank(titles[n]) {
      assert s1[n] == titles[n];
    }
  }

  // ---------------------------------------------------------------------
  // Labels and plain fields
  // ---------------------------------------------------------------------

  /** `create`: a truthy labelId naming an existing label is kept; anything
      else leaves the workflow without label. */
  function LabelOnCreate(labelId: Option<string>, labels: set<Id>): (r: Option<Id>)
    ensures r.Some? <==> Truthy(labelId) && labelId.value in labels
    ensures r.Some? ==> r == labelId
  {
    if Truthy(labelId) && labelId.value in labels then labelId else None
  }

  /** `update`: an absent labelId keeps the label, a `null` or empty one
      clears it, an existing one replaces it, and an unknown one keeps the
      label. */
  function LabelOnUpdate(current: Option<Id>, labelId: Option<Option<string>>, labels: set<Id>): (r: Option<Id>)
    ensures labelId.None? ==> r == current
    ensures labelId == Some(None) || labelId == Some(Some("")) ==> r == None
    ensures labelId.Some? && Truthy(labelId.value) && labelId.value.value in labels ==> r == labelId.value
    ensures labelId.Some? && Truthy(labelId.value) && labelId.value.value !in labels ==> r == current
    ensures r.Some? ==> r == current || r.value in labels
  {
    match labelId
    case None => current
    case Some(given) =>
      if !Truthy(given) then None
      else if given.value in labels then given
      else current
  }

  /** The label `update` leaves in the stored row as the service is
      written. It removes a label by assigning `undefined`, and `save` does
      not write `undefined` properties, so a `null` or empty labelId keeps
      the stored label. `LabelOnUpdate` is the intended behaviour. */
  function LabelStoredAsWritten(current: Option<Id>, labelId: Option<Option<string>>, labels: set<Id>): (r: Option<Id>)
    ensures labelId.Some? && !Truthy(labelId.value) ==> r == current
    ensures labelId.None? || Truthy(labelId.value) ==> r == LabelOnUpdate(current, labelId, labels)
    ensures r.Some? ==> r == current || r.value in labels
  {
    if labelId.Some? && !Truthy(labelId.value) then current else LabelOnUpdate(current, labelId, labels)
  }

  /** A workflow asked to drop its label keeps it as written, while the
      intended update leaves it with none. */
  lemma {:induction false} RemovedLabelIsKept(kept: Id, labels: set<Id>)
    ensures LabelStoredAsWritten(Some(kept), Some(None), labels) == Some(kept)
    ensures LabelStoredAsWritten(Some(kept), Some(Some("")), labels) == Some(kept)
    ensures LabelOnUpdate(Some(kept), Some(None), labels) == None
    ensures LabelOnUpdate(Some(kept), Some(Some("")), labels) == None
  {
  }

  /** `value || undefined` */
  function OrUndefined(s: Option<string>): (r: Option<string>)
    ensures Truthy(s) ==> r == s
    ensures !Truthy(s) ==> r == None
  {
    if Truthy(s) then s else None
  }

  /** The workflow `create` builds before tags are attached. */
  function NewWorkflow(req: CreateRequest, labels: set<Id>): (w: Workflow)
    ensures w.title == req.title && w.tags == {}
    ensures w.description == OrUndefined(req.description) && w.image == OrUndefined(req.image)
    ensures w.labelId == LabelOnCreate(req.labelId, labels)
  {
    Workflow(req.title, OrUndefined(req.description), OrUndefined(req.image), LabelOnCreate(req.labelId, labels), {})
  }

  /** The `!== undefined` assignments of `update`: each defined property
      replaces its field, every other field is kept. */
  function ApplyFields(w: Workflow, req: UpdateRequest): (r: Workflow)
    ensures req.title.None? ==> r.title == w.title
    ensures req.title.Some? ==> r.title == req.title.value
    ensures req.description.None? ==> r.description == w.description
    ensures req.description.Some? ==> r.description == req.description
    ensures req.image.None? ==> r.image == w.image
    ensures req.image.Some? ==> r.image == req.image
    ensures r.labelId == w.labelId && r.tags == w.tags
  {
    w.(title := req.title.GetOr(w.title),
       description := if req.description.Some? then req.description else w.description,
       image := if req.image.Some? then req.image else w.image)
  }

  /** `findOne({ where: { title } })`, saving a new tag when none has that
      title: the tag of a non-empty title, created at most once. */
  method TagFor(table: map<Id, string>, title: string) returns (table': map<Id, string>, id: Id)
    requires TitlesUnique(table) && title != ""
    ensures Extends(table, table') && TitlesUnique(table')
    ensures table'.Values == table.Values + {title}
    ensures id in table' && table'[id] == title
    ensures title in table.Values ==> table' == table
    ensures title !in table.Values ==> id !in table && table' == table[id := title]
  {
    if exists k :: k in table && table[k] == title {
      id :| id in table && table[id] == title;
      assert title in table.Values;
      table' := table;
    } else {
      FreshKeyExists(table.Keys);
      id :| id !in table;
      ValuesAfterInsert(table, id, title);
      table' := table[id := title];
    }
  }

  /** The state of the title loop after the first `i` titles. */
  ghost predicate Walked(table0: map<Id, string>, tagIds: seq<Id>, titles: seq<string>, i: nat,
                         table: map<Id, string>, ids: seq<Id>)
  {
    && i <= |titles|
    && Extends(table0, table) && TitlesUnique(table)
    && table.Values == table0.Values + TitleSet(titles[..i])
    && Distinct(ids)
    && (forall x :: x in ids ==> x in table)
    && Collected(table, tagIds, TitleSet(titles[..i]), ids)
  }

  lemma WalkStart(table0: map<Id, string>, tagIds: seq<Id>, titles: seq<string>)
    requires TitlesUnique(table0) && Distinct(tagIds) && AllKnown(tagIds, table0.Keys)
    ensures Walked(table0, tagIds, titles, 0, table0, tagIds)
  {
    assert titles[..0] == [];
  }

  lemma WalkBlank(table0: map<Id, string>, tagIds: seq<Id>, titles: seq<string>, i: nat,
                  table: map<Id, string>, ids: seq<Id>)
    requires i < |titles| && Blank(titles[i])
    requires Walked(table0, tagIds, titles, i, table, ids)
    ensures Walked(table0, tagIds, titles, i + 1, table, ids)
  {
    TitleSetStep(titles, i);
  }

  /** One non-blank title: `table'` and `id` are what `TagFor` answers for its
      trimmed text, `ids'` the list after the `includes` test. */
  lemma WalkTitle(table0: map<Id, string>, tagIds: seq<Id>, titles: seq<string>, i: nat,
                  table: map<Id, string>, ids: seq<Id>,
                  table': map<Id, string>, id: Id, ids': seq<Id>)
    requires i < |titles| && !Blank(titles[i])
    requires Walked(table0, tagIds, titles, i, table, ids)
    requires Extends(table, table') && TitlesUnique(table')
    requires table'.Values == table.Values + {Trim(titles[i])}
    requires id in table' && table'[id] == Trim(titles[i])
    requires (id in ids && ids' == ids) || (id !in ids && ids' == ids + [id])
    ensures Walked(table0, tagIds, titles, i + 1, table', ids')
  {
    var title := Trim(titles[i]);
    var named := TitleSet(titles[..i]);
    TitleSetStep(titles, i);
    CollectStep(table, table', tagIds, named, named + {title}, title, ids, ids', id);
    UnionStep(table'.Values, table.Values, table0.Values, named, title);
    if id !in ids {
      DistinctAppend(ids, id);
    }
  }

  lemma WalkDone(table0: map<Id, string>, tagIds: seq<Id>, titles: seq<string>,
                 table: map<Id, string>, ids: seq<Id>)
    requires Walked(table0, tagIds, titles, |titles|, table, ids)
    ensures TagsGrown(table0, table, titles)
    ensures Distinct(ids) && TagsResolved(table, tagIds, titles, Elems(ids))
    ensures forall x :: x in ids ==> x in table
  {
    assert titles[..|titles|] == titles;
  }

  /** One pass of the title loop: a blank title is skipped; otherwise the
      tag of the trimmed title is appended unless `includes` finds it. */
  method CollectTitle(table0: map<Id, string>, tagIds: seq<Id>, titles: seq<string>, i: nat,
                      table: map<Id, string>, ids: seq<Id>)
    returns (table': map<Id, string>, ids': seq<Id>)
    requires i < |titles| && Walked(table0, tagIds, titles, i, table, ids)
    ensures Walked(table0, tagIds, titles, i + 1, table', ids')
  {
    var t := titles[i];
    if Blank(t) {
      WalkBlank(table0, tagIds, titles, i, table, ids);
      return table, ids;
    }
    var title := Trim(t);
    var id;
    table', id := TagFor(table, title);
    ids' := if id in ids then ids else ids + [id];
    WalkTitle(table0, tagIds, titles, i, table, ids, table', id, ids');
  }

  /** The `for (const tagTitle of tagTitles)` loop: starting from the ids
      already collected, append the tag of each non-blank title unless it is
      already listed. */
  method CollectTitleTags(table0: map<Id, string>, tagIds: seq<Id>, titles: seq<string>)
    returns (table: map<Id, string>, ids: seq<Id>)
    requires TitlesUnique(table0) && Distinct(tagIds) && AllKnown(tagIds, table0.Keys)
    ensures TagsGrown(table0, table, titles)
    ensures Distinct(ids) && TagsResolved(table, tagIds, titles, Elems(ids))
    ensures forall x :: x in ids ==> x in table
  {
    table, ids := table0, tagIds;
    WalkStart(table0, tagIds, titles);
    var i := 0;
    while i < |titles|
      invariant i <= |titles|
      invariant Walked(table0, tagIds, titles, i, table, ids)
    {
      table, ids := CollectTitle(table0, tagIds, titles, i, table, ids);
      i := i + 1;
    }
    WalkDone(table0, tagIds, titles, table, ids);
  }

  // ---------------------------------------------------------------------
  // The service
  // ---------------------------------------------------------------------

  class WorkflowService {
    var workflows: map<Id, Workflow>
    /** The label table; this service only reads it. */
    var labels: set<Id>
    /** The tag table, id to title. */
    var tags: map<Id, string>

    /** Tag titles are unique and every workflow names existing tags and,
        if any, an existing label. */
    ghost predicate Valid()
      reads this
    {
      && TitlesUnique(tags)
      && (forall id :: id in workflows ==> workflows[id].tags <= tags.Keys)
      && (forall id :: id in workflows && workflows[id].labelId.Some? ==> workflows[id].labelId.value in labels)
    }

    constructor (labels: set<Id>, tags: map<Id, string>)
      requires TitlesUnique(tags)
      ensures Valid()
      ensures workflows == map[] && this.labels == labels && this.tags == tags
    {
      workflows := map[];
      this.labels := labels;
      this.tags := tags;
    }

    /** `getById(id)` */
    method GetById(id: Id) returns (r: Result<Workflow>)
      ensures id in workflows <==> r.Ok?
      ensures r.Ok? ==> r.value == workflows[id]
      ensures r.Err? ==> r.error == NotFound("Workflow not found")
    {
      if id !in workflows {
        return Err(NotFound("Workflow not found"));
      }
      return Ok(workflows[id]);
    }

    /** The tag part of `create` and `update`: check `tagIds`, then walk
        `tagTitles`, reusing or creating a tag per non-blank trimmed title,
        collecting ids without duplicates. */
    method ResolveTags(tagIds: seq<Id>, titles: seq<string>) returns (r: Result<seq<Id>>)
      requires TitlesUnique(tags)
      modifies this`tags
      ensures r.Err? <==> !(Distinct(tagIds) && AllKnown(tagIds, old(tags).Keys))
      ensures r.Err? ==> r.error == NotFound("One or more tags not found") && tags == old(tags)
      ensures r.Ok? ==> TagsGrown(old(tags), tags, titles)
      ensures r.Ok? ==> Distinct(r.value) && TagsResolved(tags, tagIds, titles, Elems(r.value))
      ensures r.Ok? ==> forall x :: x in r.value ==> x in tags
    {
      MatchCount(tagIds, tags.Keys);
      if |tagIds| > 0 && |Found(tagIds, tags.Keys)| != |tagIds| {
        return Err(NotFound("One or more tags not found"));
      }
      var table, ids := CollectTitleTags(tags, tagIds, titles);
      tags := table;
      return Ok(ids);
    }

    /** Whether `update` touches the tags at all. */
    static predicate TagsRequested(req: UpdateRequest) {
      req.tagIds.Some? || req.tagTitles.Some?
    }

    /** `create(dto)`: the new workflow's fields, label and tags; a bad
        `tagIds` list fails before any tag or workflow is written. */
    method Create(req: CreateRequest) returns (r: Result<Id>)
      requires Valid()
      modifies this`workflows, this`tags
      ensures Valid()
      ensures r.Err? <==> !(Distinct(req.tagIds.GetOr([])) && AllKnown(req.tagIds.GetOr([]), old(tags).Keys))
      ensures r.Err? ==> r.error == NotFound("One or more tags not found")
      ensures r.Err? ==> workflows == old(workflows) && tags == old(tags)
      ensures r.Ok? ==> r.value !in old(workflows) && r.value in workflows
      ensures r.Ok? ==> workflows == old(workflows)[r.value := workflows[r.value]]
      ensures r.Ok? ==> workflows[r.value] == NewWorkflow(req, labels).(tags := workflows[r.value].tags)
      ensures r.Ok? ==> TagsGrown(old(tags), tags, req.tagTitles.GetOr([]))
      ensures r.Ok? ==> TagsResolved(tags, req.tagIds.GetOr([]), req.tagTitles.GetOr([]), workflows[r.value].tags)
    {
      var w := NewWorkflow(req, labels);
      var resolved := ResolveTags(req.tagIds.GetOr([]), req.tagTitles.GetOr([]));
      if resolved.Err? {
        return Err(resolved.error);
      }
      w := w.(tags := Elems(resolved.value));
      FreshKeyExists(workflows.Keys);
      var id :| id !in workflows;
      workflows := workflows[id := w];
      return Ok(id);
    }

    /** `update(id, dto)`. The old image file is chosen for removal before the
        tag check, so it is reported even when that check then fails. */
    method Update(id: Id, req: UpdateRequest) returns (r: Result<Workflow>, removedImage: Option<string>)
      requires Valid()
      modifies this`workflows, this`tags
      ensures Valid()
      ensures id !in old(workflows) ==> r == Err(NotFound("Workflow not found")) && removedImage == None
      ensures id in old(workflows) ==> removedImage == FileToRemoveOnUpdate(old(workflows)[id].image, req.image)
      ensures r.Err? ==> workflows == old(workflows) && tags == old(tags)
      ensures id in old(workflows) ==>
        (r.Err? <==> TagsRequested(req) &&
                     !(Distinct(req.tagIds.GetOr([])) && AllKnown(req.tagIds.GetOr([]), old(tags).Keys)))
      ensures id in old(workflows) && r.Err? ==> r.error == NotFound("One or more tags not found")
      ensures r.Ok? ==> workflows == old(workflows)[id := r.value]
      ensures r.Ok? ==>
        r.value == ApplyFields(old(workflows)[id], req).(
          labelId := LabelOnUpdate(old(workflows)[id].labelId, req.labelId, labels),
          tags := r.value.tags)
      ensures r.Ok? && !TagsRequested(req) ==> r.value.tags == old(workflows)[id].tags && tags == old(tags)
      ensures r.Ok? && TagsRequested(req) ==> TagsGrown(old(tags), tags, req.tagTitles.GetOr([]))
      ensures r.Ok? && TagsRequested(req) ==>
        TagsResolved(tags, req.tagIds.GetOr([]), req.tagTitles.GetOr([]), r.value.tags)
    {
      if id !in workflows {
        return Err(NotFound("Workflow not found")), None;
      }
      var w := workflows[id];
      removedImage := FileToRemoveOnUpdate(w.image, req.image);
      w := ApplyFields(w, req);
      w := w.(labelId := LabelOnUpdate(w.labelId, req.labelId, labels));
      if TagsRequested(req) {
        var resolved := ResolveTags(req.tagIds.GetOr([]), req.tagTitles.GetOr([]));
        if resolved.Err? {
          return Err(resolved.error), removedImage;
        }
        w := w.(tags := Elems(resolved.value));
      }
      workflows := workflows[id := w];
      return Ok(w), removedImage;
    }

    /** `delete(id)`: the row goes, and its image file if it is a local one. */
    method Delete(id: Id) returns (r: Result<string>, removedImage: Option<string>)
      requires Valid()
      modifies this`workflows
      ensures Valid()
      ensures id !in old(workflows) ==>
        r == Err(NotFound("Workflow not found")) && removedImage == None && workflows == old(workflows)
      ensures id in old(workflows) ==>
        && r == Ok("Workflow deleted successfully")
        && removedImage == FileToRemoveOnDelete(old(workflows)[id].image)
        && workflows == old(workflows) - {id}
    {
      if id !in workflows {
        return Err(NotFound("Workflow not found")), None;
      }
      removedImage := FileToRemoveOnDelete(workflows[id].image);
      workflows := workflows - {id};
      return Ok("Workflow deleted successfully"), removedImage;
    }
  }

  /** Tags given but naming nothing (no ids, only blank titles) leave the
      workflow with no tags: `workflow.tags = []`. */
  lemma NoTagsNamedClearsTags(table: map<Id, string>, titles: seq<string>, result: set<Id>)
    requires forall i :: 0 <= i < |titles| ==> Blank(titles[i])
    requires TagsResolved(table, [], titles, result)
    ensures result == {}
  {
    assert TitleSet(titles) == {};
  }

  /** Every non-blank title ends up among the workflow's tags, as the tag
      whose title is its trimmed text. */
  lemma TitleTagIncluded(oldTags: map<Id, string>, newTags: map<Id, string>, tagIds: seq<Id>,
                         titles: seq<string>, result: set<Id>, i: nat)
    requires TagsGrown(oldTags, newTags, titles) && TagsResolved(newTags, tagIds, titles, result)
    requires i < |titles| && !Blank(titles[i])
    ensures exists x :: x in result && x in newTags && newTags[x] == Trim(titles[i])
  {
    assert Trim(titles[i]) in TitleSet(titles);
    assert Trim(titles[i]) in newTags.Values;
    var x :| x in newTags && newTags[x] == Trim(titles[i]);
    assert x in result;
  }

  /** Titles that all name existing tags create no tag. */
  lemma ExistingTitlesCreateNothing(oldTags: map<Id, string>, newTags: map<Id, string>, titles: seq<string>)
    requires TagsGrown(oldTags, newTags, titles)
    requires TitleSet(titles) <= oldTags.Values
    ensures newTags == oldTags
  {
    forall k | k in newTags
      ensures k in oldTags
    {
      assert newTags[k] in oldTags.Values;
      var k' :| k' in oldTags && oldTags[k'] == newTags[k];
      assert newTags[k'] == newTags[k];
    }
  }
}
