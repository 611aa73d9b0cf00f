# Publication lifecycle of a course catalogue, in Dafny

This project models the publication core of a small content-management
service. Content is organised as Programs, which hold Terms, which hold
Lessons. Programs and lessons each have a status. A program's status is
draft, published or archived. A lesson's status is draft, scheduled,
published or archived. Both carry media assets: posters for programs and
thumbnails for lessons, each tagged with a language and a variant (portrait,
landscape, square or banner).

Three paths change publication state:

- The **manual publish** handlers of the admin API and the admin UI. They
  check that the entity exists, then apply the **asset gate**: a portrait
  and a landscape asset in the entity's primary language must be present.
  Only then do they publish.
- The **creation** handlers. They insert programs, terms and lessons as
  drafts. A lesson created in the UI with a `publish_at` starts out
  scheduled. A row that would break a key or a reference is never
  committed: the UI handlers roll it back, and in the API handlers the
  integrity error fails the request before anything is committed. The
  model gives both as a rejection that leaves the store unchanged.
- The **scheduling worker**. On each pass it publishes every scheduled
  lesson whose time has come, with no asset check. It also publishes the
  lesson's program unless that program is already published. The whole pass
  commits at once, or rolls back at once.

The public **catalog** handlers list the programs that have published
lessons.

Modules:

- `Models` (models.dfy): the records, the status sets, a snapshot `Db` of the
  tables, and the schema's constraints (`Consistent`). It also holds the
  invariant that published entities carry a time (`Stamped`).
- `AssetGate` (asset_gate.dfy): the gate helpers.
- `Lifecycle` (lifecycle.dfy): manual publish and creation as functions from
  a snapshot to an outcome and the next snapshot, with lemmas about them.
- `Routes` (routes.dfy): the class `Store`. Its fields are the tables, as
  maps and sequences. Its handler methods update them in place and are
  proved equal to the `Lifecycle` functions.
- `Catalog` (catalog.dfy): the two catalog handlers, as loops over a
  snapshot, proved against set-valued specification functions.
- `Worker` (worker.dfy): one worker pass as a loop, proved equal to the
  specification function `Pass`, with lemmas about `Pass`.

How `published_at` is written differs between the writers, and the model
follows each of them:

- A lesson's `published_at` is overwritten on every successful manual
  publish (api/routes.py:106, api/routes.py:261) and for every lesson the
  worker promotes (worker/worker.py:65). A lesson re-publish therefore moves
  its time (`LessonRepublishOverwritesTime`).
- The worker overwrites the program's `published_at` whenever the program's
  status is not `published` (worker/worker.py:73-75). So an archived program
  that was published before gets a new time.
- Only the manual program publish keeps an existing time
  (api/routes.py:126-127). A program re-publish changes nothing
  (`ProgramRepublishIsIdempotent`).

## Model

| member | source | states |
|---|---|---|
| `Models.NewProgram` | api/models.py:14-15 | a new program row is a draft with no publication time |
| `Models.NewLesson` | api/models.py:69-71 | a new lesson row is a draft with neither a scheduled nor a publication time |
| `AssetGate.Variants` | api/routes.py:15-21 | a variant is in the set exactly when the asset record of this owner, language, variant and asset type is stored |
| `AssetGate.HasRequiredVariants` | api/routes.py:21-22 | the gate holds exactly when both the portrait record and the landscape record of this owner, language and asset type are stored |
| `AssetGate.ProgramHasRequiredPosters` | api/routes.py:14-22 | true iff a portrait poster and a landscape poster of this program in its primary language are stored |
| `AssetGate.LessonHasRequiredThumbnails` | api/routes.py:25-33 | true iff a portrait thumbnail and a landscape thumbnail of this lesson in its primary language are stored |
| `AssetGate.NoAssetsFailsGate` | api/routes.py:21-22 | an empty asset list never passes the gate |
| `AssetGate.GateDependsOnlyOnPresence` | api/routes.py:15-21 | two asset lists with the same members give the same answer, whatever their order or duplicates |
| `AssetGate.IrrelevantAssetIgnored` | api/routes.py:15-22 | adding an asset of another owner, language or type, or a square or banner asset, never changes the answer |
| `AssetGate.GateMonotone` | api/routes.py:21-22 | adding assets never makes a passing gate fail |
| `AssetGate.PortraitAndLandscapeOpenGate` | api/routes.py:21-22 | a matching portrait and a matching landscape asset open the gate whatever else is stored |
| `Lifecycle.PublishLesson` | api/routes.py:92-109 | `NotFound` iff the lesson is missing; `AssetsMissing` iff it exists and fails the gate; both leave the store unchanged; otherwise only that lesson changes: published, `published_at = now`, other columns kept; programs, terms and assets never change |
| `Lifecycle.PublishProgram` | api/routes.py:112-130 | `NotFound` iff the program is missing; `AssetsMissing` iff it exists and fails the gate; both leave the store unchanged; otherwise only that program changes: published, with its earlier `published_at` kept or `now` if it had none; terms and lessons never change |
| `Lifecycle.CreateProgram` | api/routes.py:40-52 | rejected iff the key is taken, leaving the store unchanged; otherwise exactly one new program, a draft without a publication time |
| `Lifecycle.CreateTerm` | api/routes.py:306-327 | rejected iff the key is taken, the program is unknown, or the program already has that term number; rejection changes nothing; otherwise exactly the new term is added |
| `Lifecycle.InsertLesson` | api/routes.py:358-368 | rejected iff the key is taken, the term is unknown, or the term already has that lesson number; rejection changes nothing; otherwise exactly the new lesson is added |
| `Lifecycle.CreateLesson` | api/routes.py:68-85 | a lesson created by the API is a draft with no scheduled or publication time |
| `Lifecycle.UiCreateLesson` | api/routes.py:330-370 | a UI-created lesson is scheduled iff `publish_at` was given, and keeps that `publish_at`; otherwise it is a draft; it is never published and its language is `en` |
| `Lifecycle.LessonRepublishOverwritesTime` | api/routes.py:105-106 | publishing a lesson a second time succeeds again and replaces `published_at` with the second call's time |
| `Lifecycle.ProgramRepublishIsIdempotent` | api/routes.py:125-127 | publishing a program a second time succeeds and changes nothing, so the first `published_at` is kept |
| `Lifecycle.PublishIgnoresStatus` | api/routes.py:99-130 | whatever the current status, an existing lesson or program that passes its gate is published |
| `Lifecycle.PublishPreservesInvariants` | api/routes.py:105-107 | manual publishing keeps every schema constraint and keeps every published entity stamped with a time |
| `Lifecycle.CreatePreservesConsistent` | api/models.py:45-47 | every creation handler keeps unique term numbers per program, unique lesson numbers per term and resolving foreign keys |
| `Lifecycle.CreateTermPreservesConsistent` | api/routes.py:55-65 | adding a term keeps unique term numbers per program and resolving foreign keys, because a clash or an unknown program is rejected |
| `Lifecycle.InsertLessonPreservesConsistent` | api/models.py:74-76 | inserting a lesson keeps the schema's constraints |
| `Lifecycle.CreatePreservesStamped` | api/routes.py:337-342 | no creation produces a published entity without a publication time |
| `Lifecycle.PortraitOnlyLessonIsRefused` | api/routes.py:99-103 | a draft lesson with only a portrait thumbnail is refused with `AssetsMissing` and the store is unchanged |
| `Lifecycle.ExplicitProgramPublishIsNeeded` | api/routes.py:105-130 | with full media, publishing the lesson leaves its program a draft; only the program's own publish publishes it, stamped with `now` |
| `Routes.Store.PublishLesson` | api/routes.py:92-109 | the outcome and the new tables are those of `Lifecycle.PublishLesson`; the constraints are kept |
| `Routes.Store.PublishProgram` | api/routes.py:112-130 | the outcome and the new tables are those of `Lifecycle.PublishProgram`; the constraints are kept |
| `Routes.Store.UiPublishLesson` | api/routes.py:252-265 | the UI twin has the same outcome and effect as the API's lesson publish |
| `Routes.Store.UiPublishProgram` | api/routes.py:268-282 | the UI twin has the same outcome and effect as the API's program publish |
| `Routes.Store.CreateProgram` | api/routes.py:289-303 | the new tables are those of `Lifecycle.CreateProgram`; the constraints are kept |
| `Routes.Store.CreateTerm` | api/routes.py:55-65 | the new tables are those of `Lifecycle.CreateTerm`; the constraints are kept |
| `Routes.Store.CreateLesson` | api/routes.py:68-85 | the new tables are those of `Lifecycle.CreateLesson`; the constraints are kept |
| `Routes.Store.UiCreateLesson` | api/routes.py:330-370 | the new tables are those of `Lifecycle.UiCreateLesson`; the constraints are kept |
| `Routes.Store.Insert` | api/routes.py:358-368 | commit or roll back one lesson row exactly as `Lifecycle.InsertLesson` says |
| `Catalog.PublishedLessonsOfProgram` | api/routes.py:190-193 | a lesson is counted for a program iff it is a published lesson of one of the program's terms |
| `Catalog.ListedIffSomeTermShown` | api/routes.py:415-435 | a program is listed iff it exists and the catalog page shows at least one of its terms |
| `Catalog.ListedLessonCountBounds` | api/routes.py:189-199 | a listed program counts at least one published lesson and no more lessons than are stored |
| `Catalog.ListedShowsSomeTerm` | api/routes.py:424-435 | a listed program shows a non-empty term list |
| `Catalog.ShownTerms` | api/routes.py:421-435 | lists exactly the program's terms that hold a published lesson, each once, with its number and exactly its published lessons |
| `Catalog.ListCatalogPrograms` | api/routes.py:179-202 | one entry for each program with a published lesson, each once, with its term count and its published-lesson count |
| `Catalog.CatalogUi` | api/routes.py:413-443 | one entry for each program with a published lesson, each once, with a non-empty list of exactly the terms that hold published lessons |
| `Catalog.LessonPublishListsDraftProgram` | api/routes.py:181-183 | once a lesson is published manually, its program is listed and counts the lesson, although the program is still a draft |
| `Worker.RunPass` | worker/worker.py:50-82 | the result is `RolledBack` iff the pass fails, and then the store is unchanged; otherwise the store becomes `Pass(old store, now)` and the count is the number of selected lessons; the schema's constraints are kept |
| `Worker.PublishOne` | worker/worker.py:64-75 | one selected lesson becomes published at `now`, and its program is published at `now` exactly when its term and program exist and the program is not yet published |
| `Worker.PassComplete` | worker/worker.py:60-78 | once every selected lesson is processed, the session tables equal those of `Pass` |
| `Worker.LessonStep` | worker/worker.py:64-65 | promoting one more selected lesson extends the processed set by that lesson |
| `Worker.ProgramStep` | worker/worker.py:67-75 | the cascade of one more lesson keeps the program table equal to the cascade over the processed set |
| `Worker.ReachedByStep` | worker/worker.py:68-73 | one more processed lesson reaches exactly the program of its term, if both exist |
| `Worker.PassSelectsExactlyDue` | worker/worker.py:52-65 | drafts, published and archived lessons, scheduled lessons without a time and those scheduled after `now` are untouched; each due lesson becomes published with `published_at = now` and keeps its other columns; terms and assets never change |
| `Worker.PassBypassesGate` | worker/worker.py:63-65 | any due lesson that fails the thumbnail gate is published by the pass, while the manual publish refuses it with `AssetsMissing` |
| `Worker.PassCascades` | worker/worker.py:67-75 | after the pass the program of a due lesson is published; if it was not before, its `published_at` is `now`; if it was, it is unchanged, even when several due lessons reach it |
| `Worker.PassLeavesUnreachedPrograms` | worker/worker.py:67-75 | a program that no due lesson resolves to is unchanged |
| `Worker.OrphanLessonPromotedWithoutCascade` | worker/worker.py:68-73 | a due lesson whose term or program is missing is still published, and whatever else is due, the program table after the pass equals the one the pass gives without that lesson |
| `Worker.PassLeavesNothingDue` | worker/worker.py:52-65 | after a pass no lesson is scheduled at or before `now` |
| `Worker.PassIsIdempotent` | worker/worker.py:52-78 | a second pass at the same `now` changes nothing |
| `Worker.PassPreservesInvariants` | worker/worker.py:64-75 | a pass keeps the schema's constraints, and on its own keeps every published entity stamped with a time |
| `Worker.PassMakesCascadedProgramsVisible` | worker/worker.py:67-75 | after a pass the program of each promoted lesson is published and listed in the catalog |
| `Worker.SeedScenario` | api/seed.py:20-111 | on the first seeded program a pass before the scheduled time changes nothing; a pass at that time publishes the third lesson and the draft program, both stamped with `now`, and leaves every other lesson exactly as it was |
| `Worker.SeedDraftProgramIsListed` | api/seed.py:20-72 | the first seeded program, a draft, is already listed through its two published lessons |

## Left out

- HTTP routing, JSON and HTML responses, status codes, `flash`, `redirect`
  and request parsing. Handler outcomes are the `PublishOutcome` and
  `CreateOutcome` datatypes.
- Login, sessions and role checks (api/auth.py), and the application wiring
  (api/app.py).
- The asset upload handlers (api/routes.py:137-172, api/routes.py:377-406)
  and the admin read-only pages. Assets are part of the given store.
- Descriptive columns (titles, descriptions, URLs, durations, subtitles,
  `is_paid`, `languages_available`) and the unused `Topic` and
  `ProgramTopic` tables. They play no part in publication.
- Time: the database clock (`func.now()`) and `datetime.utcnow()` are one
  integer `now` passed in. Every write in one pass or request uses that one
  value.
- UUID generation: a new row's key is a parameter. A key that is already
  taken is rejected like any other integrity error.
- A malformed `publish_at` in the UI form makes `fromisoformat` raise. That
  is a request failure with nothing committed, and it is not modelled. A
  given `publish_at` is an `Option<Time>`, and an empty form field counts as
  absent.
- The worker's endless loop, its 30-second sleep and its logging. `RunPass`
  is one iteration. Which exception makes a pass fail is not modelled: the
  `fails` parameter stands for any of them, since every failure ends the
  same way (rollback, store unchanged).
- Commit failures other than integrity errors in a request handler (for
  example at api/routes.py:107, api/routes.py:129, api/routes.py:262) are
  not modelled. Integrity errors are modelled as `Rejected` with the store
  unchanged. That covers both the API creation commits (api/routes.py:51,
  api/routes.py:64, api/routes.py:84), where the error escapes the handler
  and nothing is committed, and the explicit rollbacks in the UI
  (api/routes.py:319-320, api/routes.py:362-363). A failing worker pass is
  modelled by `fails`.
- Concurrency between the worker and the API processes, and SQL query
  mechanics.
- Catalog ordering. The model does not capture the order by `published_at`
  (api/routes.py:183), by term number (api/routes.py:421) or by lesson
  number (api/routes.py:428). The catalog page's lessons of a term are
  given as a set.
- Referential integrity is modelled as the database enforcing foreign keys.
  A term or lesson whose parent is missing is rejected at creation. The
  worker does not rely on this and handles missing parents.
