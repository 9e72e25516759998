/** The language service: languages are soft-deleted, hidden from the public
    reads and still visible to the admin reads. */
module Languages {
  import opened Wrappers

  type Id = string

  datatype Language = Language(title: string, deleted: bool)

  /** `CreateLanguageDto` */
  datatype CreateRequest = CreateRequest(title: string, deleted: Option<bool>)

  /** `UpdateLanguageDto`: both properties optional. */
  datatype UpdateRequest = UpdateRequest(title: Option<string>, deleted: Option<bool>)

  /** The `{ message, language }` body of `create` and `update`. */
  datatype Reply = Reply(message: string, id: Id, language: Language)

  /** What `update` makes of a language: each provided property replaces the
      stored one, `deleted` included. */
  function Revised(l: Language, req: UpdateRequest): (r: Language)
    ensures r.title == req.title.GetOr(l.title) && r.deleted == req.deleted.GetOr(l.deleted)
    ensures req == UpdateRequest(None, None) ==> r == l
  {
    Language(req.title.GetOr(l.title), req.deleted.GetOr(l.deleted))
  }

  class LanguageService {
    var languages: map<Id, Language>

    constructor ()
      ensures languages == map[]
    {
      languages := map[];
    }

    /** `getAll()`: the languages not deleted. */
    function GetAll(): (r: map<Id, Language>)
      reads this
      ensures forall id :: id in r <==> id in languages && !languages[id].deleted
      ensures forall id :: id in r ==> r[id] == languages[id]
    {
      map id | id in languages && !languages[id].deleted :: languages[id]
    }

    /** `getAllForAdmin()`: deleted or not. */
    function GetAllForAdmin(): (r: map<Id, Language>)
      reads this
      ensures r.Keys == languages.Keys
      ensures forall id :: id in GetAll() ==> id in r && r[id] == GetAll()[id]
    {
      languages
    }

    /** `getById(id)`: a deleted language is not found. */
    method GetById(id: Id) returns (r: Result<Language>)
      ensures r.Ok? <==> id in languages && !languages[id].deleted
      ensures r.Ok? ==> r.value == languages[id]
      ensures r.Err? ==> r.error == NotFound("Language not found")
    {
      if id !in languages || languages[id].deleted {
        return Err(NotFound("Language not found"));
      }
      return Ok(languages[id]);
    }

    /** `getByIdForAdmin(id)`: deleted languages are found too. */
    method GetByIdForAdmin(id: Id) returns (r: Result<Language>)
      ensures r.Ok? <==> id in languages
      ensures r.Ok? ==> r.value == languages[id]
      ensures r.Err? ==> r.error == NotFound("Language not found")
    {
      if id !in languages {
        return Err(NotFound("Language not found"));
      }
      return Ok(languages[id]);
    }

    /** `create(dto)`: `deleted` defaults to false. */
    method Create(req: CreateRequest) returns (r: Reply)
      modifies this`languages
      ensures r.message == "Language created successfully" && r.id !in old(languages)
      ensures r.language.title == req.title && r.language.deleted == req.deleted.GetOr(false)
      ensures languages == old(languages)[r.id := r.language]
    {
      var language := Language(req.title, req.deleted.GetOr(false));
      FreshKeyExists(languages.Keys);
      var id :| id !in languages;
      languages := languages[id := language];
      return Reply("Language created successfully", id, language);
    }

    /** `update(id, dto)`: finds deleted languages too, so it can restore one. */
    method Update(id: Id, req: UpdateRequest) returns (r: Result<Reply>)
      modifies this`languages
      ensures id !in old(languages) ==> r == Err(NotFound("Language not found")) && languages == old(languages)
      ensures id in old(languages) ==>
        && r == Ok(Reply("Language updated successfully", id, Revised(old(languages)[id], req)))
        && languages == old(languages)[id := r.value.language]
    {
      if id !in languages {
        return Err(NotFound("Language not found"));
      }
      var language := languages[id];
      if req.title.Some? {
        language := language.(title := req.title.value);
      }
      if req.deleted.Some? {
        language := language.(deleted := req.deleted.value);
      }
      languages := languages[id := language];
      return Ok(Reply("Language updated successfully", id, language));
    }

    /** `delete(id)`: marks the language deleted and keeps its row; a missing
        or already deleted language is not found. */
    method Delete(id: Id) returns (r: Result<string>)
      modifies this`languages
      ensures r.Ok? <==> id in old(languages) && !old(languages)[id].deleted
      ensures r.Err? ==> r == Err(NotFound("Language not found")) && languages == old(languages)
      ensures r.Ok? ==>
        && r.value == "Language deleted successfully"
        && languages == old(languages)[id := old(languages)[id].(deleted := true)]
      ensures languages.Keys == old(languages).Keys
      ensures id in languages ==> languages[id].deleted
    {
      if id !in languages || languages[id].deleted {
        return Err(NotFound("Language not found"));
      }
      var language := languages[id];
      language := language.(deleted := true);
      languages := languages[id := language];
      return Ok("Language deleted successfully");
    }
  }
}
