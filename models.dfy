/** The records of the content store (programs, terms, lessons and their
    media assets), the status sets the columns admit, and the constraints
    the database schema enforces on them. */
module Models {

  /** Primary keys are UUID strings; only their identity matters here. */
  type Id = string
  type Language = string
  /** Timestamps on one injected clock. */
  type Time = int

  datatype Option<T> = None | Some(value: T)

  /** `programs.status`: draft, published or archived. */
  datatype ProgramStatus = Draft | Published | Archived
  /** `lessons.status`: draft, scheduled, published or archived. */
  datatype LessonStatus = Draft | Scheduled | Published | Archived

  /** `variant` of an asset: portrait, landscape, square or banner. */
  datatype Variant = Portrait | Landscape | Square | Banner
  /** `asset_type`: programs carry posters, lessons carry thumbnails. */
  datatype AssetType = Poster | Thumbnail

  datatype Program = Program(language: Language, status: ProgramStatus, publishedAt: Option<Time>)

  /** A term belongs to exactly one program (a non-null foreign key). */
  datatype Term = Term(programId: Id, termNumber: int)

  /** A lesson belongs to exactly one term (a non-null foreign key). */
  datatype Lesson = Lesson(
    termId: Id,
    lessonNumber: int,
    language: Language,
    status: LessonStatus,
    publishAt: Option<Time>,
    publishedAt: Option<Time>)

  /** A row of `program_assets` or `lesson_assets`; `owner` is the program or
      lesson it belongs to (a non-null foreign key). */
  datatype Asset = Asset(owner: Id, language: Language, variant: Variant, assetType: AssetType)

  /** One snapshot of the store's tables. */
  datatype Db = Db(
    programs: map<Id, Program>,
    terms: map<Id, Term>,
    lessons: map<Id, Lesson>,
    programAssets: seq<Asset>,
    lessonAssets: seq<Asset>)

  /** A program row as the status column's default leaves it. */
  function NewProgram(language: Language): (p: Program)
    ensures p.status == ProgramStatus.Draft && p.publishedAt == None
  {
    Program(language, ProgramStatus.Draft, None)
  }

  /** A lesson row as the status column's default leaves it. */
  function NewLesson(termId: Id, lessonNumber: int, language: Language): (l: Lesson)
    ensures l.status == LessonStatus.Draft && l.publishAt == None && l.publishedAt == None
  {
    Lesson(termId, lessonNumber, language, LessonStatus.Draft, None, None)
  }

  /** `uq_program_term`: no two terms share (program_id, term_number). */
  predicate UniqueTermNumbers(terms: map<Id, Term>)
  {
    forall t, u :: t in terms && u in terms && t != u && terms[t].programId == terms[u].programId ==>
      terms[t].termNumber != terms[u].termNumber
  }

  /** `uq_term_lesson`: no two lessons share (term_id, lesson_number). */
  predicate UniqueLessonNumbers(lessons: map<Id, Lesson>)
  {
    forall l, m :: l in lessons && m in lessons && l != m && lessons[l].termId == lessons[m].termId ==>
      lessons[l].lessonNumber != lessons[m].lessonNumber
  }

  /** `uniq_program_asset` / `uniq_lesson_asset`: at most one row per
      (owner, language, variant, asset_type). */
  predicate UniqueAssets(assets: seq<Asset>)
  {
    forall i, j :: 0 <= i < j < |assets| ==> assets[i] != assets[j]
  }

  /** Every foreign key refers to an existing row. */
  predicate ReferencesResolve(db: Db)
  {
    && (forall t :: t in db.terms ==> db.terms[t].programId in db.programs)
    && (forall l :: l in db.lessons ==> db.lessons[l].termId in db.terms)
    && (forall i :: 0 <= i < |db.programAssets| ==> db.programAssets[i].owner in db.programs)
    && (forall i :: 0 <= i < |db.lessonAssets| ==> db.lessonAssets[i].owner in db.lessons)
  }

  /** All constraints the schema declares. */
  predicate Consistent(db: Db)
  {
    && UniqueTermNumbers(db.terms)
    && UniqueLessonNumbers(db.lessons)
    && UniqueAssets(db.programAssets)
    && UniqueAssets(db.lessonAssets)
    && ReferencesResolve(db)
  }

  /** Every published entity carries a publication time. The schema does not
      enforce this; every transition to published establishes it. */
  predicate Stamped(db: Db)
  {
    && (forall p :: p in db.programs && db.programs[p].status == ProgramStatus.Published ==>
          db.programs[p].publishedAt.Some?)
    && (forall l :: l in db.lessons && db.lessons[l].status == LessonStatus.Published ==>
          db.lessons[l].publishedAt.Some?)
  }
}
