/** The store the request handlers mutate in place: one table per entity and
    one per asset kind. Each handler either commits its change or leaves the
    tables as they were. */
module Routes {
  import opened Models
  import opened AssetGate
  import opened Lifecycle

  class Store {
    var programs: map<Id, Program>
    var terms: map<Id, Term>
    var lessons: map<Id, Lesson>
    var programAssets: seq<Asset>
    var lessonAssets: seq<Asset>

    /** The tables as one snapshot value. */
    function State(): Db
      reads this
    {
      Db(programs, terms, lessons, programAssets, lessonAssets)
    }

    /** The schema's constraints hold. */
    ghost predicate Valid()
      reads this
    {
      Consistent(State())
    }

    constructor (db: Db)
      ensures State() == db
    {
      programs, terms, lessons := db.programs, db.terms, db.lessons;
      programAssets, lessonAssets := db.programAssets, db.lessonAssets;
    }

    /** `POST /lessons/<id>/publish`. */
    method PublishLesson(id: Id, now: Time) returns (r: PublishOutcome)
      modifies this
      ensures (r, State()) == Lifecycle.PublishLesson(old(State()), id, now)
      ensures old(Valid()) ==> Valid()
    {
      if id !in lessons {
        return NotFound;
      }
      var lesson := lessons[id];
      if !LessonHasRequiredThumbnails(lessonAssets, id, lesson) {
        return AssetsMissing;
      }
      lesson := lesson.(status := LessonStatus.Published);
      lesson := lesson.(publishedAt := Some(now));
      lessons := lessons[id := lesson];
      r := Success;
    }

    /** `POST /programs/<id>/publish`. */
    method PublishProgram(id: Id, now: Time) returns (r: PublishOutcome)
      modifies this
      ensures (r, State()) == Lifecycle.PublishProgram(old(State()), id, now)
      ensures old(Valid()) ==> Valid()
    {
      if id !in programs {
        return NotFound;
      }
      var program := programs[id];
      if !ProgramHasRequiredPosters(programAssets, id, program) {
        return AssetsMissing;
      }
      program := program.(status := ProgramStatus.Published);
      if program.publishedAt.None? {
        program := program.(publishedAt := Some(now));
      }
      programs := programs[id := program];
      r := Success;
    }

    /** `POST /ui/lessons/<id>/publish`: an unknown id is a 404, a failed gate
        flashes an error; the outcome and the effect are those of the API. */
    method UiPublishLesson(id: Id, now: Time) returns (r: PublishOutcome)
      modifies this
      ensures (r, State()) == Lifecycle.PublishLesson(old(State()), id, now)
      ensures old(Valid()) ==> Valid()
    {
      if id !in lessons {
        return NotFound;
      }
      if !LessonHasRequiredThumbnails(lessonAssets, id, lessons[id]) {
        return AssetsMissing;
      }
      lessons := lessons[id := lessons[id].(status := LessonStatus.Published, publishedAt := Some(now))];
      r := Success;
    }

    /** `POST /ui/programs/<id>/publish`, the twin of `PublishProgram`. */
    method UiPublishProgram(id: Id, now: Time) returns (r: PublishOutcome)
      modifies this
      ensures (r, State()) == Lifecycle.PublishProgram(old(State()), id, now)
      ensures old(Valid()) ==> Valid()
    {
      if id !in programs {
        return NotFound;
      }
      if !ProgramHasRequiredPosters(programAssets, id, programs[id]) {
        return AssetsMissing;
      }
      var stamp := if programs[id].publishedAt.None? then Some(now) else programs[id].publishedAt;
      programs := programs[id := programs[id].(status := ProgramStatus.Published, publishedAt := stamp)];
      r := Success;
    }

    /** `POST /programs` and `POST /ui/programs/create`; `id` is the fresh key. */
    method CreateProgram(id: Id, language: Language) returns (r: CreateOutcome)
      modifies this
      ensures (r, State()) == Lifecycle.CreateProgram(old(State()), id, language)
      ensures old(Valid()) ==> Valid()
    {
      if id in programs {
        return Rejected;
      }
      programs := programs[id := NewProgram(language)];
      r := Created;
    }

    /** `POST /terms` and `POST /ui/terms/create/<program_id>`. */
    method CreateTerm(id: Id, programId: Id, termNumber: int) returns (r: CreateOutcome)
      modifies this
      ensures (r, State()) == Lifecycle.CreateTerm(old(State()), id, programId, termNumber)
      ensures old(Valid()) ==> Valid()
    {
      if id in terms || programId !in programs || TermNumberTaken(terms, programId, termNumber) {
        return Rejected;
      }
      terms := terms[id := Term(programId, termNumber)];
      r := Created;
      if old(Valid()) {
        CreateTermPreservesConsistent(old(State()), id, programId, termNumber);
      }
    }

    /** `POST /lessons`: always a draft. */
    method CreateLesson(id: Id, termId: Id, lessonNumber: int, language: Language) returns (r: CreateOutcome)
      modifies this
      ensures (r, State()) == Lifecycle.CreateLesson(old(State()), id, termId, lessonNumber, language)
      ensures old(Valid()) ==> Valid()
    {
      r := Insert(id, NewLesson(termId, lessonNumber, language));
    }

    /** `POST /ui/lessons/create/<term_id>`: scheduled exactly when a
        `publish_at` is supplied. */
    method UiCreateLesson(id: Id, termId: Id, lessonNumber: int, publishAt: Option<Time>) returns (r: CreateOutcome)
      modifies this
      ensures (r, State()) == Lifecycle.UiCreateLesson(old(State()), id, termId, lessonNumber, publishAt)
      ensures old(Valid()) ==> Valid()
    {
      var status;
      if publishAt.Some? {
        status := LessonStatus.Scheduled;
      } else {
        status := LessonStatus.Draft;
      }
      r := Insert(id, Lesson(termId, lessonNumber, UiLessonLanguage, status, publishAt, None));
    }

    /** Adds a lesson row and commits, or rolls back on an integrity error. */
    method Insert(id: Id, l: Lesson) returns (r: CreateOutcome)
      modifies this
      ensures (r, State()) == InsertLesson(old(State()), id, l)
      ensures old(Valid()) ==> Valid()
    {
      if id in lessons || l.termId !in terms || LessonNumberTaken(lessons, l.termId, l.lessonNumber) {
        return Rejected;
      }
      lessons := lessons[id := l];
      r := Created;
      if old(Valid()) {
        InsertLessonPreservesConsistent(old(State()), id, l);
      }
    }
  }
}
