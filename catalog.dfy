/** The public catalog: read-only projections of the store that show programs
    through their published lessons. Neither projection looks at a program's
    own status. */
module Catalog {
  import opened Models
  import Lifecycle

  /** An entry of `GET /catalog/programs`. */
  datatype CatalogEntry = CatalogEntry(id: Id, termCount: nat, lessonCount: nat)

  /** A term as the catalog page shows it: its number and its published lessons. */
  datatype ShownTerm = ShownTerm(termId: Id, termNumber: int, lessons: set<Id>)

  /** A program as the catalog page shows it. */
  datatype ShownProgram = ShownProgram(id: Id, terms: seq<ShownTerm>)

  /** The terms of a program. */
  function ProgramTerms(db: Db, pid: Id): set<Id>
  {
    set t | t in db.terms && db.terms[t].programId == pid
  }

  /** The published lessons of a term. */
  function PublishedLessonsOfTerm(db: Db, tid: Id): set<Id>
  {
    set l | l in db.lessons && db.lessons[l].termId == tid && db.lessons[l].status == LessonStatus.Published
  }

  /** Whether lesson `l` is published and reaches program `pid` through an existing term. */
  predicate PublishedUnder(db: Db, l: Id, pid: Id)
  {
    && l in db.lessons && db.lessons[l].status == LessonStatus.Published
    && db.lessons[l].termId in db.terms && db.terms[db.lessons[l].termId].programId == pid
  }

  /** The published lessons of a program, across all of its terms. */
  function PublishedLessonsOfProgram(db: Db, pid: Id): (ls: set<Id>)
    ensures forall l :: l in ls <==>
      exists t :: t in ProgramTerms(db, pid) && l in PublishedLessonsOfTerm(db, t)
  {
    var ls := set l | l in db.lessons && PublishedUnder(db, l, pid);
    assert forall l :: l in ls ==> var t := db.lessons[l].termId; t in ProgramTerms(db, pid) && l in PublishedLessonsOfTerm(db, t);
    ls
  }

  /** The program join: a program is listed when one of its terms holds a
      published lesson. */
  predicate Listed(db: Db, pid: Id)
  {
    pid in db.programs && PublishedLessonsOfProgram(db, pid) != {}
  }

  /** A term is shown on the catalog page when it holds a published lesson. */
  predicate Shown(db: Db, pid: Id, t: Id)
  {
    t in ProgramTerms(db, pid) && PublishedLessonsOfTerm(db, t) != {}
  }

  /** A program is listed exactly when it exists and the catalog page shows
      at least one of its terms. */
  lemma ListedIffSomeTermShown(db: Db, pid: Id)
    ensures Listed(db, pid) <==> pid in db.programs && exists t :: Shown(db, pid, t)
  {
    if Listed(db, pid) {
      var l :| l in PublishedLessonsOfProgram(db, pid);
      var t :| t in ProgramTerms(db, pid) && l in PublishedLessonsOfTerm(db, t);
      assert Shown(db, pid, t);
    }
    if pid in db.programs && exists t :: Shown(db, pid, t) {
      var t :| Shown(db, pid, t);
      var l :| l in PublishedLessonsOfTerm(db, t);
      assert l in PublishedLessonsOfProgram(db, pid);
    }
  }

  /** A listed program counts at least one lesson, and never more lessons
      than the store holds. */
  lemma ListedLessonCountBounds(db: Db, pid: Id)
    requires Listed(db, pid)
    ensures 0 < |PublishedLessonsOfProgram(db, pid)| <= |db.lessons|
  {
    assert PublishedLessonsOfProgram(db, pid) <= db.lessons.Keys;
    SubsetCardinality(PublishedLessonsOfProgram(db, pid), db.lessons.Keys);
  }

  lemma SubsetCardinality<T>(a: set<T>, b: set<T>)
    requires a <= b
    ensures |a| <= |b|
  {
    assert b == a + (b - a);
  }

  /** `GET /catalog/programs`: one entry per listed program with its term
      count and its published-lesson count. */
  method ListCatalogPrograms(db: Db) returns (result: seq<CatalogEntry>)
    ensures forall i :: 0 <= i < |result| ==>
      && Listed(db, result[i].id)
      && result[i].termCount == |ProgramTerms(db, result[i].id)|
      && result[i].lessonCount == |PublishedLessonsOfProgram(db, result[i].id)|
    ensures forall p :: Listed(db, p) ==> exists i :: 0 <= i < |result| && result[i].id == p
    ensures forall i, j :: 0 <= i < j < |result| ==> result[i].id != result[j].id
  {
    var todo := set p | p in db.programs && Listed(db, p);
    result := [];
    while todo != {}
      invariant forall p :: p in todo ==> Listed(db, p)
      invariant forall i :: 0 <= i < |result| ==>
        && Listed(db, result[i].id) && result[i].id !in todo
        && result[i].termCount == |ProgramTerms(db, result[i].id)|
        && result[i].lessonCount == |PublishedLessonsOfProgram(db, result[i].id)|
      invariant forall p :: Listed(db, p) && p !in todo ==> exists i :: 0 <= i < |result| && result[i].id == p
      invariant forall i, j :: 0 <= i < j < |result| ==> result[i].id != result[j].id
      decreases todo
    {
      var p :| p in todo;
      var entry := CatalogEntry(p, |ProgramTerms(db, p)|, |PublishedLessonsOfProgram(db, p)|);
      ghost var before := result;
      result := result + [entry];
      assert result[|before|].id == p;
      assert forall i :: 0 <= i < |before| ==> result[i] == before[i];
      todo := todo - {p};
    }
  }

  /** `terms` lists exactly the shown terms of program `pid`, each once,
      with its number and its published lessons. */
  ghost predicate ShowsTerms(db: Db, pid: Id, terms: seq<ShownTerm>)
  {
    && (forall k :: 0 <= k < |terms| ==>
          && Shown(db, pid, terms[k].termId)
          && terms[k].termNumber == db.terms[terms[k].termId].termNumber
          && terms[k].lessons == PublishedLessonsOfTerm(db, terms[k].termId))
    && (forall t :: Shown(db, pid, t) ==> exists k :: 0 <= k < |terms| && terms[k].termId == t)
    && (forall k, m :: 0 <= k < m < |terms| ==> terms[k].termId != terms[m].termId)
  }

  /** A listed program shows at least one term. */
  lemma ListedShowsSomeTerm(db: Db, pid: Id, terms: seq<ShownTerm>)
    requires Listed(db, pid) && ShowsTerms(db, pid, terms)
    ensures |terms| > 0
  {
    ListedIffSomeTermShown(db, pid);
    var t :| Shown(db, pid, t);
    assert exists k :: 0 <= k < |terms| && terms[k].termId == t;
  }

  /** The inner loop of the catalog page: the terms of one program that hold
      a published lesson, each with those lessons. */
  method ShownTerms(db: Db, pid: Id) returns (terms: seq<ShownTerm>)
    ensures ShowsTerms(db, pid, terms)
  {
    var todo := ProgramTerms(db, pid);
    terms := [];
    while todo != {}
      invariant todo <= ProgramTerms(db, pid)
      invariant forall k :: 0 <= k < |terms| ==>
        && Shown(db, pid, terms[k].termId) && terms[k].termId !in todo
        && terms[k].termNumber == db.terms[terms[k].termId].termNumber
        && terms[k].lessons == PublishedLessonsOfTerm(db, terms[k].termId)
      invariant forall t :: Shown(db, pid, t) && t !in todo ==> exists k :: 0 <= k < |terms| && terms[k].termId == t
      invariant forall k, m :: 0 <= k < m < |terms| ==> terms[k].termId != terms[m].termId
      decreases todo
    {
      var t :| t in todo;
      var lessons := PublishedLessonsOfTerm(db, t);
      if lessons != {} {
        ghost var before := terms;
        terms := terms + [ShownTerm(t, db.terms[t].termNumber, lessons)];
        assert terms[|before|].termId == t;
        assert forall k :: 0 <= k < |before| ==> terms[k] == before[k];
      }
      todo := todo - {t};
    }
  }

  /** `GET /catalog-ui`: every listed program, each once, with the terms it
      shows; a listed program always shows at least one term. */
  method CatalogUi(db: Db) returns (data: seq<ShownProgram>)
    ensures forall i :: 0 <= i < |data| ==>
      Listed(db, data[i].id) && ShowsTerms(db, data[i].id, data[i].terms) && |data[i].terms| > 0
    ensures forall p :: Listed(db, p) ==> exists i :: 0 <= i < |data| && data[i].id == p
    ensures forall i, j :: 0 <= i < j < |data| ==> data[i].id != data[j].id
  {
    var todo := set p | p in db.programs && Listed(db, p);
    data := [];
    while todo != {}
      invariant forall p :: p in todo ==> Listed(db, p)
      invariant forall i :: 0 <= i < |data| ==>
        && Listed(db, data[i].id) && data[i].id !in todo
        && ShowsTerms(db, data[i].id, data[i].terms) && |data[i].terms| > 0
      invariant forall p :: Listed(db, p) && p !in todo ==> exists i :: 0 <= i < |data| && data[i].id == p
      invariant forall i, j :: 0 <= i < j < |data| ==> data[i].id != data[j].id
      decreases todo
    {
      var p :| p in todo;
      var terms := ShownTerms(db, p);
      ListedShowsSomeTerm(db, p, terms);
      ghost var before := data;
      data := data + [ShownProgram(p, terms)];
      assert data[|before|].id == p;
      assert forall i :: 0 <= i < |before| ==> data[i] == before[i];
      todo := todo - {p};
    }
  }

  /** The catalog does not look at program status: a manual lesson publish
      lists the lesson's program even while that program is a draft, and the
      lesson counts towards its lesson count. */
  lemma LessonPublishListsDraftProgram(db: Db, id: Id, now: Time, pid: Id)
    requires Lifecycle.PublishLesson(db, id, now).0 == Lifecycle.Success
    requires db.lessons[id].termId in db.terms && db.terms[db.lessons[id].termId].programId == pid
    requires pid in db.programs && db.programs[pid].status == ProgramStatus.Draft
    ensures var after := Lifecycle.PublishLesson(db, id, now).1;
      && Listed(after, pid) && after.programs[pid].status == ProgramStatus.Draft
      && id in PublishedLessonsOfProgram(after, pid)
  {
    var after := Lifecycle.PublishLesson(db, id, now).1;
    var t := db.lessons[id].termId;
    assert id in after.lessons && after.lessons[id].status == LessonStatus.Published;
    assert after.lessons[id].termId == t && after.terms == db.terms;
    assert t in ProgramTerms(after, pid);
    assert id in PublishedLessonsOfTerm(after, t);
    assert id in PublishedLessonsOfProgram(after, pid);
  }
}
