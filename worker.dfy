/** One pass of the scheduling worker: every scheduled lesson whose time has
    come is published without any asset check, and the program above it is
    published too unless it already is. The pass commits as a whole or not
    at all. */
module Worker {
  import opened Models
  import opened AssetGate
  import Lifecycle
  import Catalog
  import Routes

  /** The worker's query: scheduled, with a `publish_at` at or before `now`.
      A scheduled lesson without `publish_at` never matches (`NULL <= now`
      is not true). */
  predicate IsDue(l: Lesson, now: Time)
  {
    l.status == LessonStatus.Scheduled && l.publishAt.Some? && l.publishAt.value <= now
  }

  /** The lessons a pass at `now` selects. */
  function DueLessons(lessons: map<Id, Lesson>, now: Time): set<Id>
  {
    set id | id in lessons && IsDue(lessons[id], now)
  }

  /** What the pass writes into a selected lesson. */
  function Promote(l: Lesson, now: Time): Lesson
  {
    l.(status := LessonStatus.Published, publishedAt := Some(now))
  }

  /** What the cascade writes into a program that is not yet published. */
  function PromoteProgram(p: Program, now: Time): Program
  {
    p.(status := ProgramStatus.Published, publishedAt := Some(now))
  }

  /** Whether lesson `l` resolves, through its term, to program `pid`. */
  predicate Reaches(db: Db, l: Id, pid: Id)
  {
    l in db.lessons && db.lessons[l].termId in db.terms && db.terms[db.lessons[l].termId].programId == pid
  }

  /** Whether one of the lessons `ls` resolves to program `pid`. */
  ghost predicate ReachedBy(db: Db, ls: set<Id>, pid: Id)
  {
    exists l :: l in ls && Reaches(db, l, pid)
  }

  /** The lessons after a pass: the selected ones promoted, the rest as they were. */
  function PromotedLessons(lessons: map<Id, Lesson>, now: Time): map<Id, Lesson>
  {
    map id | id in lessons :: if IsDue(lessons[id], now) then Promote(lessons[id], now) else lessons[id]
  }

  /** The programs after a pass: each unpublished program reached by a
      selected lesson is promoted, the rest are as they were. */
  ghost function CascadedPrograms(db: Db, now: Time): map<Id, Program>
  {
    map pid | pid in db.programs ::
      if ReachedBy(db, DueLessons(db.lessons, now), pid) && db.programs[pid].status != ProgramStatus.Published
      then PromoteProgram(db.programs[pid], now)
      else db.programs[pid]
  }

  /** The store after a committed pass at `now`. */
  ghost function Pass(db: Db, now: Time): Db
  {
    db.(lessons := PromotedLessons(db.lessons, now), programs := CascadedPrograms(db, now))
  }

  datatype PassOutcome = Committed(promoted: nat) | RolledBack

  /** `lessons` is the lesson table once the lessons `done` are processed. */
  ghost predicate LessonsAfter(db: Db, done: set<Id>, now: Time, lessons: map<Id, Lesson>)
  {
    && lessons.Keys == db.lessons.Keys
    && forall id :: id in db.lessons ==>
         lessons[id] == if id in done then Promote(db.lessons[id], now) else db.lessons[id]
  }

  /** `programs` is the program table once the lessons `done` are processed. */
  ghost predicate ProgramsAfter(db: Db, done: set<Id>, now: Time, programs: map<Id, Program>)
  {
    && programs.Keys == db.programs.Keys
    && forall pid :: pid in db.programs ==>
         programs[pid] ==
           if ReachedBy(db, done, pid) && db.programs[pid].status != ProgramStatus.Published
           then PromoteProgram(db.programs[pid], now)
           else db.programs[pid]
  }

  /** The cascade for one lesson: resolve its term, then its program, and
      promote that program unless it is already published. */
  function CascadeOne(terms: map<Id, Term>, programs: map<Id, Program>, termId: Id, now: Time): map<Id, Program>
  {
    if termId in terms && terms[termId].programId in programs
       && programs[terms[termId].programId].status != ProgramStatus.Published
    then programs[terms[termId].programId := PromoteProgram(programs[terms[termId].programId], now)]
    else programs
  }

  /** One iteration of the worker's loop. The loop edits the session's copies
      of the rows; the commit writes them to the store. `fails` stands for any
      exception raised during the pass, after which the session is rolled back
      and the store keeps its rows. */
  method RunPass(store: Routes.Store, now: Time, fails: bool) returns (outcome: PassOutcome)
    modifies store
    ensures outcome.RolledBack? <==> fails
    ensures fails ==> store.State() == old(store.State())
    ensures !fails ==> store.State() == Pass(old(store.State()), now)
    ensures !fails ==> outcome.promoted == |DueLessons(old(store.lessons), now)|
    ensures old(store.Valid()) ==> store.Valid()
  {
    ghost var db := store.State();
    var lessons, programs, terms := store.lessons, store.programs, store.terms;
    var selected := DueLessons(lessons, now);
    var todo := selected;
    while todo != {}
      invariant todo <= selected == DueLessons(db.lessons, now)
      invariant LessonsAfter(db, selected - todo, now, lessons)
      invariant ProgramsAfter(db, selected - todo, now, programs)
      modifies {}
      decreases todo
    {
      var id :| id in todo;
      ghost var done := selected - todo;
      LessonStep(db, done, now, lessons, id);
      ProgramStep(db, done, now, programs, id);
      lessons, programs := PublishOne(lessons, programs, terms, id, now);
      assert selected - (todo - {id}) == done + {id};
      todo := todo - {id};
    }
    if fails {
      return RolledBack;
    }
    PassComplete(db, now, lessons, programs);
    PassPreservesInvariants(db, now);
    store.lessons, store.programs := lessons, programs;
    return Committed(|selected|);
  }

  /** The body of the worker's `for` loop for one selected lesson: publish
      it, resolve its term and then its program, and publish that program
      unless it is already published. */
  method PublishOne(lessons: map<Id, Lesson>, programs: map<Id, Program>, terms: map<Id, Term>, id: Id, now: Time)
    returns (lessons': map<Id, Lesson>, programs': map<Id, Program>)
    requires id in lessons
    ensures lessons' == lessons[id := Promote(lessons[id], now)]
    ensures programs' == CascadeOne(terms, programs, lessons[id].termId, now)
  {
    var lesson := lessons[id];
    lessons' := lessons[id := lesson.(status := LessonStatus.Published, publishedAt := Some(now))];
    programs' := programs;
    if lesson.termId in terms {
      var term := terms[lesson.termId];
      if term.programId in programs {
        var program := programs[term.programId];
        if program.status != ProgramStatus.Published {
          programs' := programs[term.programId := program.(status := ProgramStatus.Published, publishedAt := Some(now))];
        }
      }
    }
  }

  /** Once every selected lesson is processed, the tables are those of `Pass`. */
  lemma PassComplete(db: Db, now: Time, lessons: map<Id, Lesson>, programs: map<Id, Program>)
    requires LessonsAfter(db, DueLessons(db.lessons, now), now, lessons)
    requires ProgramsAfter(db, DueLessons(db.lessons, now), now, programs)
    ensures lessons == PromotedLessons(db.lessons, now) && programs == CascadedPrograms(db, now)
  {
  }

  lemma LessonStep(db: Db, done: set<Id>, now: Time, lessons: map<Id, Lesson>, id: Id)
    requires LessonsAfter(db, done, now, lessons) && id in db.lessons && id !in done
    ensures LessonsAfter(db, done + {id}, now, lessons[id := Promote(db.lessons[id], now)])
  {
  }

  lemma ProgramStep(db: Db, done: set<Id>, now: Time, programs: map<Id, Program>, id: Id)
    requires ProgramsAfter(db, done, now, programs) && id in db.lessons
    ensures ProgramsAfter(db, done + {id}, now, CascadeOne(db.terms, programs, db.lessons[id].termId, now))
  {
    ReachedByStep(db, done, id);
  }

  /** Adding lesson `id` to the processed set reaches exactly the program of
      its term, if it has one. */
  lemma ReachedByStep(db: Db, done: set<Id>, id: Id)
    requires id in db.lessons
    ensures forall pid :: ReachedBy(db, done + {id}, pid) <==> ReachedBy(db, done, pid) || Reaches(db, id, pid)
  {
    forall pid | ReachedBy(db, done + {id}, pid)
      ensures ReachedBy(db, done, pid) || Reaches(db, id, pid)
    {
      var l :| l in done + {id} && Reaches(db, l, pid);
      if l != id {
        assert l in done;
      }
    }
  }

  /** A pass selects exactly the due lessons: drafts, published and archived
      lessons, and scheduled lessons without a time or with a later one, are
      left as they were; each due lesson becomes published at `now` with its
      other columns kept. Terms and assets are never touched. */
  lemma PassSelectsExactlyDue(db: Db, now: Time)
    ensures Pass(db, now).lessons.Keys == db.lessons.Keys
    ensures forall id :: id in db.lessons && db.lessons[id].status != LessonStatus.Scheduled ==>
      Pass(db, now).lessons[id] == db.lessons[id]
    ensures forall id :: id in db.lessons && db.lessons[id].publishAt.None? ==>
      Pass(db, now).lessons[id] == db.lessons[id]
    ensures forall id :: id in db.lessons && db.lessons[id].publishAt.Some? && db.lessons[id].publishAt.value > now ==>
      Pass(db, now).lessons[id] == db.lessons[id]
    ensures forall id :: id in db.lessons && IsDue(db.lessons[id], now) ==>
      && Pass(db, now).lessons[id].status == LessonStatus.Published
      && Pass(db, now).lessons[id].publishedAt == Some(now)
      && Pass(db, now).lessons[id].(status := db.lessons[id].status, publishedAt := db.lessons[id].publishedAt) == db.lessons[id]
    ensures Pass(db, now).terms == db.terms
    ensures Pass(db, now).programAssets == db.programAssets && Pass(db, now).lessonAssets == db.lessonAssets
  {
  }

  /** The worker publishes a due lesson that fails the thumbnail gate, which
      the manual publish refuses with `ASSETS_MISSING`. */
  lemma PassBypassesGate(db: Db, now: Time, id: Id)
    requires id in db.lessons && IsDue(db.lessons[id], now)
    requires !LessonHasRequiredThumbnails(db.lessonAssets, id, db.lessons[id])
    ensures Pass(db, now).lessons[id].status == LessonStatus.Published
    ensures Lifecycle.PublishLesson(db, id, now).0 == Lifecycle.AssetsMissing
  {
  }

  /** The cascade: the program of a due lesson's term is published after the
      pass. If it was not published before (a draft, or an archived program
      even with an earlier time) it gets `published_at = now`; if it was, it
      is left exactly as it was, even when several due lessons reach it. */
  lemma PassCascades(db: Db, now: Time, l: Id, pid: Id)
    requires l in DueLessons(db.lessons, now) && Reaches(db, l, pid) && pid in db.programs
    ensures pid in Pass(db, now).programs
    ensures Pass(db, now).programs[pid].status == ProgramStatus.Published
    ensures db.programs[pid].status != ProgramStatus.Published ==>
      Pass(db, now).programs[pid].publishedAt == Some(now)
    ensures db.programs[pid].status == ProgramStatus.Published ==>
      Pass(db, now).programs[pid] == db.programs[pid]
  {
    assert ReachedBy(db, DueLessons(db.lessons, now), pid);
  }

  /** A program no due lesson resolves to is left as it was. */
  lemma PassLeavesUnreachedPrograms(db: Db, now: Time, pid: Id)
    requires pid in db.programs
    requires forall l :: l in DueLessons(db.lessons, now) ==> !Reaches(db, l, pid)
    ensures Pass(db, now).programs[pid] == db.programs[pid]
  {
  }

  /** A due lesson whose term or program is missing is still published, and
      it adds nothing to the cascade: whatever else is due, the program table
      after the pass is the one the pass would give without that lesson. */
  lemma OrphanLessonPromotedWithoutCascade(db: Db, now: Time, l: Id)
    requires l in DueLessons(db.lessons, now)
    requires db.lessons[l].termId !in db.terms || db.terms[db.lessons[l].termId].programId !in db.programs
    ensures Pass(db, now).lessons[l] == Promote(db.lessons[l], now)
    ensures Pass(db, now).programs == Pass(db.(lessons := db.lessons - {l}), now).programs
  {
    var rest := db.(lessons := db.lessons - {l});
    assert DueLessons(rest.lessons, now) == DueLessons(db.lessons, now) - {l};
    forall pid | pid in db.programs
      ensures ReachedBy(db, DueLessons(db.lessons, now), pid) == ReachedBy(rest, DueLessons(rest.lessons, now), pid)
    {
      if ReachedBy(db, DueLessons(db.lessons, now), pid) {
        var x :| x in DueLessons(db.lessons, now) && Reaches(db, x, pid);
        assert x != l;
        assert Reaches(rest, x, pid);
      }
      if ReachedBy(rest, DueLessons(rest.lessons, now), pid) {
        var x :| x in DueLessons(rest.lessons, now) && Reaches(rest, x, pid);
        assert Reaches(db, x, pid);
      }
    }
  }

  /** After a pass no lesson is left scheduled at or before `now`. */
  lemma PassLeavesNothingDue(db: Db, now: Time)
    ensures DueLessons(Pass(db, now).lessons, now) == {}
  {
    var after := Pass(db, now).lessons;
    forall id | id in after
      ensures !IsDue(after[id], now)
    {
      assert after[id] == if IsDue(db.lessons[id], now) then Promote(db.lessons[id], now) else db.lessons[id];
    }
  }

  /** A second pass at the same `now` changes nothing. */
  lemma PassIsIdempotent(db: Db, now: Time)
    ensures Pass(Pass(db, now), now) == Pass(db, now)
  {
    var d1 := Pass(db, now);
    PassLeavesNothingDue(db, now);
    assert PromotedLessons(d1.lessons, now) == d1.lessons;
    forall pid | pid in d1.programs
      ensures !ReachedBy(d1, DueLessons(d1.lessons, now), pid)
    {
    }
    assert CascadedPrograms(d1, now) == d1.programs;
  }

  /** A pass keeps the schema's constraints and the invariant that published
      entities carry a publication time, each on its own. */
  lemma PassPreservesInvariants(db: Db, now: Time)
    ensures Consistent(db) ==> Consistent(Pass(db, now))
    ensures Stamped(db) ==> Stamped(Pass(db, now))
  {
    var d1 := Pass(db, now);
    assert forall id :: id in d1.lessons ==>
      d1.lessons[id].termId == db.lessons[id].termId && d1.lessons[id].lessonNumber == db.lessons[id].lessonNumber;
  }

  /** After a pass every program that a promoted lesson resolves to is both
      published and listed in the public catalog. */
  lemma PassMakesCascadedProgramsVisible(db: Db, now: Time, l: Id, pid: Id)
    requires l in DueLessons(db.lessons, now) && Reaches(db, l, pid) && pid in db.programs
    ensures Pass(db, now).programs[pid].status == ProgramStatus.Published
    ensures Catalog.Listed(Pass(db, now), pid)
  {
    PassCascades(db, now, l, pid);
    var d1 := Pass(db, now);
    assert Catalog.PublishedUnder(d1, l, pid);
    assert l in Catalog.PublishedLessonsOfProgram(d1, pid);
  }

  /** The first seeded program at time `t0`: a draft program with both posters, one
      term, two published lessons and a third scheduled two time units later,
      every lesson with both thumbnails. */
  function Seed(t0: Time): Db
  {
    Db(
      map["p1" := Program("en", ProgramStatus.Draft, None)],
      map["t1" := Term("p1", 1)],
      map["l1" := Lesson("t1", 1, "en", LessonStatus.Published, None, Some(t0)),
          "l2" := Lesson("t1", 2, "en", LessonStatus.Published, None, Some(t0)),
          "l3" := Lesson("t1", 3, "en", LessonStatus.Scheduled, Some(t0 + 2), None)],
      [Asset("p1", "en", Portrait, Poster), Asset("p1", "en", Landscape, Poster)],
      [Asset("l1", "en", Portrait, Thumbnail), Asset("l1", "en", Landscape, Thumbnail),
       Asset("l2", "en", Portrait, Thumbnail), Asset("l2", "en", Landscape, Thumbnail),
       Asset("l3", "en", Portrait, Thumbnail), Asset("l3", "en", Landscape, Thumbnail)])
  }

  /** On the first seeded program a pass before the scheduled time changes nothing;
      a pass at the scheduled time publishes the third lesson and cascades to
      the draft program. */
  lemma SeedScenario(t0: Time)
    ensures Pass(Seed(t0), t0 + 1) == Seed(t0)
    ensures Pass(Seed(t0), t0 + 2).lessons["l3"].status == LessonStatus.Published
    ensures Pass(Seed(t0), t0 + 2).lessons["l3"].publishedAt == Some(t0 + 2)
    ensures Pass(Seed(t0), t0 + 2).programs["p1"] == Program("en", ProgramStatus.Published, Some(t0 + 2))
    ensures Pass(Seed(t0), t0 + 2).lessons.Keys == Seed(t0).lessons.Keys
    ensures forall id :: id in Seed(t0).lessons && id != "l3" ==> Pass(Seed(t0), t0 + 2).lessons[id] == Seed(t0).lessons[id]
  {
    var db := Seed(t0);
    assert DueLessons(db.lessons, t0 + 1) == {};
    assert PromotedLessons(db.lessons, t0 + 1) == db.lessons;
    assert CascadedPrograms(db, t0 + 1) == db.programs;
    assert "l3" in DueLessons(db.lessons, t0 + 2) && Reaches(db, "l3", "p1");
    PassCascades(db, t0 + 2, "l3", "p1");
  }

  /** The seeded draft program is already listed in the catalog, through its
      two published lessons, before any pass publishes it. */
  lemma SeedDraftProgramIsListed(t0: Time)
    ensures Seed(t0).programs["p1"].status == ProgramStatus.Draft
    ensures Catalog.Listed(Seed(t0), "p1")
    ensures Catalog.PublishedLessonsOfProgram(Seed(t0), "p1") == {"l1", "l2"}
  {
    var db := Seed(t0);
    assert Catalog.PublishedUnder(db, "l1", "p1");
    assert Catalog.PublishedLessonsOfProgram(db, "p1") == {"l1", "l2"};
  }
}
