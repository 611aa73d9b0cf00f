/** The manual transitions of the admin API and UI, as functions from one
    store snapshot to the outcome and the next snapshot: gated publishing of a
    lesson or a program, and creation of programs, terms and lessons. A
    rejected request leaves the snapshot as it was (nothing is committed). */
module Lifecycle {
  import opened Models
  import opened AssetGate

  /** What a publish request answers: success, `NOT_FOUND` or `ASSETS_MISSING`. */
  datatype PublishOutcome = Success | NotFound | AssetsMissing

  /** What a create request answers: the row was committed, or the insert
      violated a key or a constraint and was rolled back. */
  datatype CreateOutcome = Created | Rejected

  /** Whether `key` is the only key whose value may differ between `m` and `m'`. */
  predicate OnlyChanged<K, V(==)>(m: map<K, V>, m': map<K, V>, key: K)
  {
    m'.Keys == m.Keys && forall k :: k in m && k != key ==> m'[k] == m[k]
  }

  /** Publishing a lesson: existence first, then the thumbnail gate, then the
      status and the publication time are written. The current status is not
      consulted, and `published_at` is overwritten on every success. */
  function PublishLesson(db: Db, id: Id, now: Time): (out: (PublishOutcome, Db))
    ensures out.0 == NotFound <==> id !in db.lessons
    ensures out.0 == AssetsMissing <==>
      id in db.lessons && !LessonHasRequiredThumbnails(db.lessonAssets, id, db.lessons[id])
    ensures out.0 != Success ==> out.1 == db
    ensures out.0 == Success ==>
      && OnlyChanged(db.lessons, out.1.lessons, id)
      && var (l, l') := (db.lessons[id], out.1.lessons[id]);
      && l'.status == LessonStatus.Published && l'.publishedAt == Some(now)
      && l'.termId == l.termId && l'.lessonNumber == l.lessonNumber
      && l'.language == l.language && l'.publishAt == l.publishAt
    ensures out.1.programs == db.programs && out.1.terms == db.terms
    ensures out.1.programAssets == db.programAssets && out.1.lessonAssets == db.lessonAssets
  {
    if id !in db.lessons then (NotFound, db)
    else if !LessonHasRequiredThumbnails(db.lessonAssets, id, db.lessons[id]) then (AssetsMissing, db)
    else
      var l := db.lessons[id];
      (Success, db.(lessons := db.lessons[id := l.(status := LessonStatus.Published, publishedAt := Some(now))]))
  }

  /** Publishing a program: existence first, then the poster gate, then the
      status is written; `published_at` is written only if it was unset. */
  function PublishProgram(db: Db, id: Id, now: Time): (out: (PublishOutcome, Db))
    ensures out.0 == NotFound <==> id !in db.programs
    ensures out.0 == AssetsMissing <==>
      id in db.programs && !ProgramHasRequiredPosters(db.programAssets, id, db.programs[id])
    ensures out.0 != Success ==> out.1 == db
    ensures out.0 == Success ==>
      && OnlyChanged(db.programs, out.1.programs, id)
      && var (p, p') := (db.programs[id], out.1.programs[id]);
      && p'.status == ProgramStatus.Published && p'.language == p.language
      && p'.publishedAt.Some?
      && (p.publishedAt.Some? ==> p'.publishedAt == p.publishedAt)
      && (p.publishedAt.None? ==> p'.publishedAt == Some(now))
    ensures out.1.terms == db.terms && out.1.lessons == db.lessons
    ensures out.1.programAssets == db.programAssets && out.1.lessonAssets == db.lessonAssets
  {
    if id !in db.programs then (NotFound, db)
    else if !ProgramHasRequiredPosters(db.programAssets, id, db.programs[id]) then (AssetsMissing, db)
    else
      var p := db.programs[id];
      var stamp := if p.publishedAt.None? then Some(now) else p.publishedAt;
      (Success, db.(programs := db.programs[id := p.(status := ProgramStatus.Published, publishedAt := stamp)]))
  }

  /** Whether another term of the program already has this number. */
  predicate TermNumberTaken(terms: map<Id, Term>, programId: Id, termNumber: int)
  {
    exists t :: t in terms && terms[t].programId == programId && terms[t].termNumber == termNumber
  }

  /** Whether another lesson of the term already has this number. */
  predicate LessonNumberTaken(lessons: map<Id, Lesson>, termId: Id, lessonNumber: int)
  {
    exists l :: l in lessons && lessons[l].termId == termId && lessons[l].lessonNumber == lessonNumber
  }

  /** Inserting a program row; only a clash of primary keys can fail. */
  function CreateProgram(db: Db, id: Id, language: Language): (out: (CreateOutcome, Db))
    ensures out.0 == Rejected <==> id in db.programs
    ensures out.0 == Rejected ==> out.1 == db
    ensures out.0 == Created ==>
      && id in out.1.programs && out.1.programs.Keys == db.programs.Keys + {id}
      && out.1.programs[id].status == ProgramStatus.Draft && out.1.programs[id].publishedAt == None
      && out.1.programs[id].language == language
      && (forall p :: p in db.programs ==> out.1.programs[p] == db.programs[p])
      && out.1.(programs := db.programs) == db
  {
    if id in db.programs then (Rejected, db)
    else (Created, db.(programs := db.programs[id := NewProgram(language)]))
  }

  /** Inserting a term row: a clash of primary keys, an unknown program or a
      term number already used in that program is an integrity error. */
  function CreateTerm(db: Db, id: Id, programId: Id, termNumber: int): (out: (CreateOutcome, Db))
    ensures out.0 == Rejected <==>
      id in db.terms || programId !in db.programs || TermNumberTaken(db.terms, programId, termNumber)
    ensures out.0 == Rejected ==> out.1 == db
    ensures out.0 == Created ==>
      && out.1.terms == db.terms[id := Term(programId, termNumber)] && id !in db.terms
      && out.1.(terms := db.terms) == db
  {
    if id in db.terms || programId !in db.programs || TermNumberTaken(db.terms, programId, termNumber) then
      (Rejected, db)
    else
      (Created, db.(terms := db.terms[id := Term(programId, termNumber)]))
  }

  /** Inserting a lesson row: a clash of primary keys, an unknown term or a
      lesson number already used in that term is an integrity error. */
  function InsertLesson(db: Db, id: Id, l: Lesson): (out: (CreateOutcome, Db))
    ensures out.0 == Rejected <==>
      id in db.lessons || l.termId !in db.terms || LessonNumberTaken(db.lessons, l.termId, l.lessonNumber)
    ensures out.0 == Rejected ==> out.1 == db
    ensures out.0 == Created ==>
      && out.1.lessons == db.lessons[id := l] && id !in db.lessons
      && out.1.(lessons := db.lessons) == db
  {
    if id in db.lessons || l.termId !in db.terms || LessonNumberTaken(db.lessons, l.termId, l.lessonNumber) then
      (Rejected, db)
    else
      (Created, db.(lessons := db.lessons[id := l]))
  }

  /** The API's lesson creation: always a draft with no scheduled time. */
  function CreateLesson(db: Db, id: Id, termId: Id, lessonNumber: int, language: Language): (out: (CreateOutcome, Db))
    ensures out.0 == Created ==>
      && id in out.1.lessons
      && out.1.lessons[id].status == LessonStatus.Draft
      && out.1.lessons[id].publishAt == None && out.1.lessons[id].publishedAt == None
  {
    InsertLesson(db, id, NewLesson(termId, lessonNumber, language))
  }

  /** The content language every lesson created from the admin UI gets. */
  const UiLessonLanguage: Language := "en"

  /** The admin UI's lesson creation: scheduled at `publishAt` when one is
      given, otherwise a draft without a scheduled time. */
  function UiCreateLesson(db: Db, id: Id, termId: Id, lessonNumber: int, publishAt: Option<Time>): (out: (CreateOutcome, Db))
    ensures out.0 == Created ==>
      && id in out.1.lessons
      && (out.1.lessons[id].status == LessonStatus.Scheduled <==> publishAt.Some?)
      && (publishAt.None? ==> out.1.lessons[id].status == LessonStatus.Draft)
      && out.1.lessons[id].publishAt == publishAt
      && out.1.lessons[id].publishedAt == None
      && out.1.lessons[id].language == UiLessonLanguage
  {
    var status := if publishAt.Some? then LessonStatus.Scheduled else LessonStatus.Draft;
    InsertLesson(db, id, Lesson(termId, lessonNumber, UiLessonLanguage, status, publishAt, None))
  }

  /** Re-publishing a published lesson succeeds again and moves its
      publication time to the later call's clock. */
  lemma LessonRepublishOverwritesTime(db: Db, id: Id, first: Time, second: Time)
    requires PublishLesson(db, id, first).0 == Success
    ensures var again := PublishLesson(PublishLesson(db, id, first).1, id, second);
      again.0 == Success && again.1.lessons[id].publishedAt == Some(second)
  {
    var db1 := PublishLesson(db, id, first).1;
    assert db1.lessons[id].language == db.lessons[id].language;
  }

  /** Re-publishing a program succeeds and changes nothing: the first
      publication time is kept. */
  lemma ProgramRepublishIsIdempotent(db: Db, id: Id, first: Time, second: Time)
    requires PublishProgram(db, id, first).0 == Success
    ensures var db1 := PublishProgram(db, id, first).1;
      PublishProgram(db1, id, second) == (Success, db1)
  {
    var db1 := PublishProgram(db, id, first).1;
    assert db1.programs[id].language == db.programs[id].language;
    assert db1.programs[id := db1.programs[id]] == db1.programs;
  }

  /** Neither manual publish consults the current status: any lesson or
      program that exists and passes its gate ends up published. */
  lemma PublishIgnoresStatus(db: Db, lesson: Id, program: Id, now: Time)
    requires lesson in db.lessons && LessonHasRequiredThumbnails(db.lessonAssets, lesson, db.lessons[lesson])
    requires program in db.programs && ProgramHasRequiredPosters(db.programAssets, program, db.programs[program])
    ensures PublishLesson(db, lesson, now).0 == Success
    ensures PublishLesson(db, lesson, now).1.lessons[lesson].status == LessonStatus.Published
    ensures PublishProgram(db, program, now).0 == Success
    ensures PublishProgram(db, program, now).1.programs[program].status == ProgramStatus.Published
  {
  }

  /** Manual publishing keeps every schema constraint and the invariant that
      published entities carry a publication time. */
  lemma PublishPreservesInvariants(db: Db, id: Id, now: Time)
    requires Consistent(db) && Stamped(db)
    ensures Consistent(PublishLesson(db, id, now).1) && Stamped(PublishLesson(db, id, now).1)
    ensures Consistent(PublishProgram(db, id, now).1) && Stamped(PublishProgram(db, id, now).1)
  {
    var l := PublishLesson(db, id, now).1;
    if id in db.lessons {
      assert forall k :: k in l.lessons ==> l.lessons[k].termId == db.lessons[k].termId;
      assert forall k :: k in l.lessons ==> l.lessons[k].lessonNumber == db.lessons[k].lessonNumber;
    }
  }

  /** Every creation keeps the schema constraints: a row that would break
      one is rejected. */
  lemma CreatePreservesConsistent(db: Db, id: Id, parent: Id, number: int, language: Language, publishAt: Option<Time>)
    requires Consistent(db)
    ensures Consistent(CreateProgram(db, id, language).1)
    ensures Consistent(CreateTerm(db, id, parent, number).1)
    ensures Consistent(CreateLesson(db, id, parent, number, language).1)
    ensures Consistent(UiCreateLesson(db, id, parent, number, publishAt).1)
  {
    CreateTermPreservesConsistent(db, id, parent, number);
    InsertLessonPreservesConsistent(db, id, NewLesson(parent, number, language));
    var status := if publishAt.Some? then LessonStatus.Scheduled else LessonStatus.Draft;
    InsertLessonPreservesConsistent(db, id, Lesson(parent, number, UiLessonLanguage, status, publishAt, None));
  }

  /** Adding a term keeps the schema constraints: a key clash, an unknown
      program or a taken term number is rejected. */
  lemma CreateTermPreservesConsistent(db: Db, id: Id, programId: Id, termNumber: int)
    requires Consistent(db)
    ensures Consistent(CreateTerm(db, id, programId, termNumber).1)
  {
  }

  lemma InsertLessonPreservesConsistent(db: Db, id: Id, l: Lesson)
    requires Consistent(db)
    ensures Consistent(InsertLesson(db, id, l).1)
  {
  }

  /** Creation never yields a published entity, so it keeps the invariant
      that published entities carry a publication time. */
  lemma CreatePreservesStamped(db: Db, id: Id, parent: Id, number: int, language: Language, publishAt: Option<Time>)
    requires Stamped(db)
    ensures Stamped(CreateProgram(db, id, language).1)
    ensures Stamped(CreateTerm(db, id, parent, number).1)
    ensures Stamped(CreateLesson(db, id, parent, number, language).1)
    ensures Stamped(UiCreateLesson(db, id, parent, number, publishAt).1)
  {
  }

  /** A lesson in draft with only a portrait thumbnail is refused and stays
      a draft. */
  lemma PortraitOnlyLessonIsRefused()
    ensures var db := Db(map["p" := Program("en", ProgramStatus.Draft, None)], map["t" := Term("p", 1)],
                         map["l" := Lesson("t", 1, "en", LessonStatus.Draft, None, None)],
                         [], [Asset("l", "en", Portrait, Thumbnail)]);
      PublishLesson(db, "l", 5) == (AssetsMissing, db)
  {
    var db := Db(map["p" := Program("en", ProgramStatus.Draft, None)], map["t" := Term("p", 1)],
                 map["l" := Lesson("t", 1, "en", LessonStatus.Draft, None, None)],
                 [], [Asset("l", "en", Portrait, Thumbnail)]);
    assert Asset("l", "en", Landscape, Thumbnail) !in db.lessonAssets;
  }

  /** A lesson and its program, both with portrait and landscape media: the
      lesson's publish leaves the program a draft; only the program's own
      publish publishes it. */
  lemma ExplicitProgramPublishIsNeeded(now: Time)
    ensures var db := Db(map["p" := Program("en", ProgramStatus.Draft, None)], map["t" := Term("p", 1)],
                         map["l" := Lesson("t", 1, "en", LessonStatus.Draft, None, None)],
                         [Asset("p", "en", Portrait, Poster), Asset("p", "en", Landscape, Poster)],
                         [Asset("l", "en", Portrait, Thumbnail), Asset("l", "en", Landscape, Thumbnail)]);
      var (r1, db1) := PublishLesson(db, "l", now);
      var (r2, db2) := PublishProgram(db1, "p", now);
      && r1 == Success && db1.programs["p"].status == ProgramStatus.Draft
      && r2 == Success && db2.programs["p"].status == ProgramStatus.Published
      && db2.programs["p"].publishedAt == Some(now)
  {
    var db := Db(map["p" := Program("en", ProgramStatus.Draft, None)], map["t" := Term("p", 1)],
                 map["l" := Lesson("t", 1, "en", LessonStatus.Draft, None, None)],
                 [Asset("p", "en", Portrait, Poster), Asset("p", "en", Landscape, Poster)],
                 [Asset("l", "en", Portrait, Thumbnail), Asset("l", "en", Landscape, Thumbnail)]);
    PortraitAndLandscapeOpenGate(db.lessonAssets, "l", "en", Thumbnail);
    PortraitAndLandscapeOpenGate(db.programAssets, "p", "en", Poster);
  }
}
