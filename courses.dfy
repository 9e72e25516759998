/** The course service: a course is free or paid, and only a paid course
    carries a non-zero amount. */
module Courses {
  import opened Wrappers
  import opened ImageFiles

  type Id = string

  datatype Level = Beginner | Intermediate | Advanced

  /** The `amount` decimal column is modelled as an integer. */
  datatype Course = Course(
    title: string,
    description: Option<string>,
    image: Option<string>,
    freeOrPaid: bool,
    amount: int,
    level: Level)

  /** `CreateCourseDto`; `None` is an absent property. */
  datatype CreateRequest = CreateRequest(
    title: string,
    description: Option<string>,
    image: Option<string>,
    freeOrPaid: Option<bool>,
    amount: Option<int>,
    level: Option<Level>)

  /** `UpdateCourseDto`: every property optional. */
  datatype UpdateRequest = UpdateRequest(
    title: Option<string>,
    description: Option<string>,
    image: Option<string>,
    freeOrPaid: Option<bool>,
    amount: Option<int>,
    level: Option<Level>)

  /** A free course costs nothing. */
  predicate FreeIsZero(c: Course) {
    !c.freeOrPaid ==> c.amount == 0
  }

  /** JavaScript truthiness of an optional number. */
  predicate TruthyAmount(a: Option<int>) {
    a.Some? && a.value != 0
  }

  /** The course `create` stores. */
  function NewCourse(req: CreateRequest): (c: Course)
    ensures c.title == req.title && c.description == req.description && c.image == req.image
    ensures c.freeOrPaid <==> req.freeOrPaid == Some(true)
    ensures req.level.None? ==> c.level == Beginner
    ensures req.level.Some? ==> c.level == req.level.value
    ensures c.amount != 0 <==> req.freeOrPaid == Some(true) && TruthyAmount(req.amount)
    ensures c.amount != 0 ==> c.amount == req.amount.value
    ensures FreeIsZero(c)
  {
    Course(
      req.title,
      req.description,
      req.image,
      req.freeOrPaid.GetOr(false),
      if req.freeOrPaid == Some(true) && TruthyAmount(req.amount) then req.amount.value else 0,
      req.level.GetOr(Beginner))
  }

  /** What `update` makes of a course, property by property. */
  ghost function Updated(c: Course, req: UpdateRequest): Course {
    Course(
      if req.title.Some? then req.title.value else c.title,
      if req.description.Some? then req.description else c.description,
      if req.image == Some("") then None else if req.image.Some? then req.image else c.image,
      if req.freeOrPaid.Some? then req.freeOrPaid.value else c.freeOrPaid,
      if req.amount.Some? then (if req.freeOrPaid == Some(true) then req.amount.value else 0)
      else if req.freeOrPaid == Some(false) then 0
      else c.amount,
      if req.level.Some? then req.level.value else c.level)
  }

  /** An empty image takes the image off the course. */
  lemma EmptyImageClears(c: Course, req: UpdateRequest)
    requires req.image == Some("")
    ensures Updated(c, req).image == None
    ensures Updated(c, req).(image := c.image) == Updated(c, req.(image := None))
  {
  }

  /** The row `update` leaves stored as the service is written. It clears
      the image by assigning `undefined`, and `save` does not write
      `undefined` properties, so an empty image keeps the stored path;
      every other property is stored as `Updated` computes it. `Updated` is
      the intended behaviour. */
  ghost function StoredAsWritten(c: Course, req: UpdateRequest): (s: Course)
    ensures req.image == Some("") ==> s.image == c.image
    ensures req.image != Some("") ==> s == Updated(c, req)
    ensures s.(image := Updated(c, req).image) == Updated(c, req)
  {
    if req.image == Some("") then Updated(c, req).(image := c.image) else Updated(c, req)
  }

  /** A course sent an empty image keeps its image in the row as written,
      while the intended update leaves it with none. */
  lemma EmptyImageIsKept(c: Course, req: UpdateRequest)
    requires req.image == Some("") && c.image.Some?
    ensures StoredAsWritten(c, req).image == c.image
    ensures StoredAsWritten(c, req) != Updated(c, req)
  {
    EmptyImageClears(c, req);
  }

  /** `update` keeps a free course at amount 0, whatever it is sent. */
  lemma UpdateKeepsFreeIsZero(c: Course, req: UpdateRequest)
    requires FreeIsZero(c)
    ensures FreeIsZero(Updated(c, req))
  {
  }

  /** An amount sent without `freeOrPaid: true` in the same request is stored
      as 0, even on a course that is already paid. */
  lemma AmountNeedsPaidFlag(c: Course, req: UpdateRequest)
    requires req.amount.Some? && req.freeOrPaid != Some(true)
    ensures Updated(c, req).amount == 0
  {
  }

  /** A paid course sent neither an amount nor a flag keeps its price. */
  lemma PriceKeptWithoutAmount(c: Course, req: UpdateRequest)
    requires req.amount.None? && req.freeOrPaid.None?
    ensures Updated(c, req).amount == c.amount && Updated(c, req).freeOrPaid == c.freeOrPaid
  {
  }

  /** The property assignments of `update`, in the order it makes them:
      `freeOrPaid = false` zeroes the amount, and an amount is kept only when
      the same request sets `freeOrPaid` to true. The service assigns
      step by step; its ensures proves the steps equal to `Updated`. */
  method AssignFields(course: Course, req: UpdateRequest) returns (c: Course)
    ensures c == Updated(course, req)
  {
    c := course;
    if req.title.Some? {
      c := c.(title := req.title.value);
    }
    if req.description.Some? {
      c := c.(description := req.description);
    }
    if req.image.Some? {
      c := c.(image := if req.image.value == "" then None else req.image);
    }
    if req.freeOrPaid.Some? {
      c := c.(freeOrPaid := req.freeOrPaid.value);
      if !req.freeOrPaid.value {
        c := c.(amount := 0);
      }
    }
    if req.amount.Some? {
      c := c.(amount := if req.freeOrPaid == Some(true) then req.amount.value else 0);
    }
    if req.level.Some? {
      c := c.(level := req.level.value);
    }
  }

  class CourseService {
    var courses: map<Id, Course>

    ghost predicate Valid()
      reads this
    {
      forall id :: id in courses ==> FreeIsZero(courses[id])
    }

    constructor ()
      ensures Valid() && courses == map[]
    {
      courses := map[];
    }

    /** `getById(id)` */
    method GetById(id: Id) returns (r: Result<Course>)
      ensures id in courses <==> r.Ok?
      ensures r.Ok? ==> r.value == courses[id]
      ensures r.Err? ==> r.error == NotFound("Course not found")
    {
      if id !in courses {
        return Err(NotFound("Course not found"));
      }
      return Ok(courses[id]);
    }

    /** `create(dto)` */
    method Create(req: CreateRequest) returns (id: Id, c: Course)
      requires Valid()
      modifies this
      ensures Valid()
      ensures id !in old(courses) && courses == old(courses)[id := c]
      ensures c == NewCourse(req)
    {
      c := NewCourse(req);
      FreshKeyExists(courses.Keys);
      id :| id !in courses;
      courses := courses[id := c];
    }

    /** `update(id, dto)`: the assignments in the order the service makes
        them, the amount possibly written twice. */
    method Update(id: Id, req: UpdateRequest) returns (r: Result<Course>, removedImage: Option<string>)
      requires Valid()
      modifies this
      ensures Valid()
      ensures id !in old(courses) ==>
        r == Err(NotFound("Course not found")) && removedImage == None && courses == old(courses)
      ensures id in old(courses) ==>
        && r == Ok(Updated(old(courses)[id], req))
        && courses == old(courses)[id := r.value]
        && removedImage == FileToRemoveOnUpdate(old(courses)[id].image, req.image)
    {
      if id !in courses {
        return Err(NotFound("Course not found")), None;
      }
      removedImage := FileToRemoveOnUpdate(courses[id].image, req.image);
      var c := AssignFields(courses[id], req);
      UpdateKeepsFreeIsZero(courses[id], req);
      courses := courses[id := c];
      return Ok(c), removedImage;
    }

    /** `delete(id)` */
    method Delete(id: Id) returns (r: Result<string>, removedImage: Option<string>)
      requires Valid()
      modifies this
      ensures Valid()
      ensures id !in old(courses) ==>
        r == Err(NotFound("Course not found")) && removedImage == None && courses == old(courses)
      ensures id in old(courses) ==>
        && r == Ok("Course deleted successfully")
        && removedImage == FileToRemoveOnDelete(old(courses)[id].image)
        && courses == old(courses) - {id}
    {
      if id !in courses {
        return Err(NotFound("Course not found")), None;
      }
      removedImage := FileToRemoveOnDelete(courses[id].image);
      courses := courses - {id};
      return Ok("Course deleted successfully"), removedImage;
    }
  }
}
