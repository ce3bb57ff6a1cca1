# Predesk portfolio API — a Dafny model of its route logic

Predesk is an Express/MySQL backend for a personal portfolio site. This project models
four of its route files and proves properties of them:

- `GET /api/search` and `GET /api/search/advanced` (`Predesk/routes/search.js`);
- the skills routes (`Predesk/routes/skills.js`);
- the profile routes (`routes/profile.js`);
- the projects routes (`Predesk/routes/projects.js`).

The database is an in-memory value: the tables of `config/database.js`.

**Modules.**

- `Schema`: the rows of the six tables. It also defines the `proficiency_level` ENUM, JavaScript truthiness (`!x`), the HTTP statuses the routes answer with, and the `ORDER BY` orders the queries use.
- `Text`: the string functions the routes rely on:
  - `String.prototype.trim` over the ECMAScript white-space set;
  - the substring test behind `LIKE '%term%'`;
  - code-point string order for `ORDER BY name`;
  - the comma join of `GROUP_CONCAT` and `split(',')`.
- `Sorting`: a stable insertion sort against a "comes before" relation. It stands for `Array.prototype.sort` with a comparator, and for `ORDER BY` (ties keep table order). It has:
  - the pure definition;
  - an in-place array version proved equal to it;
  - lemmas that the result is a sorted permutation and that ties keep their input order.
- `Database`: the `Db` class, whose fields are the tables and the `AUTO_INCREMENT` counters. `Db.Valid()` holds the declared constraints:
  - primary keys;
  - `UNIQUE` skill names;
  - the single profile's unique email;
  - the composite primary keys and foreign keys of `project_skills` and `profile_skills`.

  Work-experience ids are not constrained: no route writes that table, so no operation needs its key.

  The module also has the pure helpers the routes share. One of them is `InsertLinks`, the `INSERT` loop over `skill_ids`. It stops at the first key violation, and the rows it already added stay, because there is no transaction.
- `Search`, `SkillRoutes`, `ProfileRoutes`, `ProjectRoutes`: one module per route file.
  - A read route is a function of the tables.
  - A write route is a method on `Db` that keeps `Db.Valid()`. It states its status and its exact new state, as a pure function of the old state.
  - Lemmas beside each write method state what a later read then returns. For `POST /api/profile/skills`, ProfileRoutes.SetSkillsSpec gives the new links, and ProfileRoutes.GetProfileSpec turns links into the skills that `GET /api/profile` shows.

**Representation.**

- Tables are sequences in primary-key order, the scan order MySQL returns them in. Link tables are sets of `(owner, skill)` pairs.
- A nullable column is an `Option`.
- Timestamps and dates are integers, where larger means later.
- A request field is `Option<string>`: `None` is an absent field or JSON `null`. A `skill_ids` field that is not an array is `None`.
- The clock (`CURRENT_TIMESTAMP`) is a parameter `now`.

## Model

| member | source | states |
|---|---|---|
| Schema.ParseProficiency | config/database.js:62 | a value that parses is one of the four ENUM names and prints back to the text it came from |
| Schema.ParseProficiencyName | config/database.js:62 | every ENUM value parses from its own name (round trip) |
| Schema.ByProficiencyThenNameIsStrictWeakOrder | Predesk/routes/skills.js:15 | `ORDER BY proficiency_level DESC, name ASC` is a strict weak order, so sorting by it is well defined |
| Schema.ByNameIsStrictWeakOrder | Predesk/routes/projects.js:69 | `ORDER BY s.name ASC` is a strict weak order |
| Schema.ProjectsNewestFirstIsStrictWeakOrder | Predesk/routes/projects.js:26 | `ORDER BY p.created_at DESC` is a strict weak order |
| Schema.ByStartDateDescIsStrictWeakOrder | routes/profile.js:31 | `ORDER BY start_date DESC` is a strict weak order; NULL dates sort last |
| Text.LeadingSpaces | Predesk/routes/search.js:10 | the count of leading characters `trim` removes: each of them is white space and the next one is not |
| Text.TrailingSpaces | Predesk/routes/search.js:10 | the count of trailing characters `trim` removes: each of them is white space and the one before is not |
| Text.TrimIsInfix | Predesk/routes/search.js:10 | `q.trim()` is the infix of `q` between the first and last non-space; everything cut is white space; the result neither starts nor ends with white space |
| Text.TrimKeepsMiddle | Predesk/routes/search.js:14 | the trimmed text is, character by character, `q` from its first non-space on |
| Text.TrimCutsSpace | Predesk/routes/search.js:14 | everything after the trimmed text in `q` is white space |
| Text.TrimEndsInNonSpace | Predesk/routes/search.js:10 | a non-empty trimmed text starts and ends with a non-space |
| Text.TrimIdempotent | Predesk/routes/search.js:14 | trimming an already trimmed query changes nothing |
| Text.Utf16Length | Predesk/routes/search.js:10 | `length` counts UTF-16 code units: between one and two per character, and exactly one each iff no character lies outside the Basic Multilingual Plane |
| Text.AstralCharHasLengthTwo | Predesk/routes/search.js:10 | a single character outside the Basic Multilingual Plane has `length` 2 |
| Text.Contains | Predesk/routes/search.js:22 | `LIKE '%term%'` holds iff the term occurs at some offset of the field |
| Text.StringLessIrreflexive | Predesk/routes/skills.js:15 | no name sorts before itself under `ORDER BY name ASC` |
| Text.StringLessTransitive | Predesk/routes/skills.js:15 | name order is transitive |
| Text.StringLessTotal | Predesk/routes/skills.js:15 | of two different names one sorts first |
| Text.NotStringLessTransitive | Predesk/routes/skills.js:15 | "not before" is transitive too, which makes name order a strict weak order |
| Text.Split | Predesk/routes/projects.js:33 | `split(',')` returns at least one piece and no piece contains a comma |
| Text.SplitNoSeparator | Predesk/routes/projects.js:33 | a comma-free string splits into itself alone |
| Text.SplitAfterPiece | Predesk/routes/projects.js:33 | splitting `a + ',' + b` yields `a` followed by the pieces of `b` |
| Text.SplitJoin | Predesk/routes/projects.js:13 | splitting the `GROUP_CONCAT` of non-empty, comma-free names gives the names back |
| Text.JoinSplit | Predesk/routes/projects.js:33 | joining the pieces of `split(',')` with commas restores the string |
| Text.CommaInNameSplits | Predesk/routes/projects.js:33 | a skill named `C,C++` comes back from the project list as two names, `C` and `C++` |
| Sorting.Insert | Predesk/routes/search.js:62-67 | inserting into a sorted prefix adds exactly one element (multiset) |
| Sorting.StableSort | Predesk/routes/search.js:62-67 | the sort returns a permutation of its input |
| Sorting.Take | Predesk/routes/search.js:75 | `slice(0, n)` is the prefix of length `min(n, length)` |
| Sorting.TiesWith | Predesk/routes/search.js:62-67 | every element it returns occurs in the input and is tied with `e` |
| Sorting.TiesWithSubMultiset | Predesk/routes/search.js:62-67 | the ties take no element more often than the input holds it |
| Sorting.MapSeq | Predesk/routes/search.js:55-58 | `map` keeps the length and applies `f` at every index |
| Sorting.Filter | Predesk/routes/search.js:22 | a `WHERE` keeps exactly the rows that satisfy it |
| Sorting.FilterSubMultiset | Predesk/routes/search.js:22 | a `WHERE` returns no row more often than the table holds it |
| Sorting.InsertStep | Predesk/routes/search.js:62-67 | one pass of in-place insertion leaves the prefix alone and turns the suffix into `Insert` of its first element into the rest |
| Sorting.SortInPlace | Predesk/routes/search.js:62 | sorting the array in place leaves exactly `StableSort` of its old contents |
| Sorting.SortedArray | Predesk/routes/search.js:62 | a fresh array holding `StableSort` of the rows |
| Sorting.InsertSorted | Predesk/routes/search.js:62-67 | inserting into a sorted sequence keeps it sorted |
| Sorting.StableSortSorted | Predesk/routes/search.js:62-67 | the sort result has no element behind one it comes strictly before |
| Sorting.InsertKeepsTies | Predesk/routes/search.js:62-67 | insertion keeps the relative order of elements tied with any `e` |
| Sorting.StableSortKeepsTies | Predesk/routes/search.js:62-67 | stability: tied elements keep their input order |
| Sorting.TiesWithKeepsSorted | Predesk/routes/search.js:62-67 | a subsequence of tied elements of a sorted list is still sorted |
| Sorting.TieBreakSurvives | Predesk/routes/search.js:151 | sorting by `minor`, then stably by `major`, leaves each `major` tie in `minor` order |
| Sorting.StableSortMembers | Predesk/routes/search.js:62-67 | the sort neither adds nor loses a value |
| Sorting.MapSeqMembers | Predesk/routes/search.js:70 | every mapped value comes from an input and every input is mapped |
| Sorting.InsertMap | Predesk/routes/search.js:70 | insertion commutes with a projection that preserves the order |
| Sorting.StableSortMap | Predesk/routes/search.js:70 | sorting commutes with a projection that preserves the order |
| Sorting.SortProjectSortMembers | Predesk/routes/search.js:207 | sorting rows, projecting, and sorting again keeps exactly the projections of the rows |
| Sorting.ProjectedTieBreak | Predesk/routes/search.js:207 | re-sorting projected rows equals projecting rows re-sorted by the same key; ties keep the SQL order |
| Sorting.StableSortOfSorted | Predesk/routes/search.js:62-67 | sorting an already sorted sequence changes nothing |
| Database.FindSkill | Predesk/routes/skills.js:57-60 | `SELECT ... WHERE id = ?` finds the row with that id, and none iff no skill has it |
| Database.FindProject | Predesk/routes/projects.js:52-55 | the same lookup on `projects` |
| Database.RemoveAt | Predesk/routes/skills.js:202 | `DELETE` drops one row and keeps the others in order |
| Database.RemoveSkillIds | Predesk/routes/skills.js:202 | deleting a skill removes exactly its id from the table's keys |
| Database.RemoveProjectIds | Predesk/routes/projects.js:203 | deleting a project removes exactly its id from the table's keys |
| Database.InsertLinksOutcome | Predesk/routes/projects.js:105-112 | the insert loop succeeds iff no id is unknown or repeated or already linked; on success it adds exactly one link per id; on failure the links before the offending id stay inserted |
| Database.InsertLinksWithinKeys | config/database.js:98-100 | every link the loop adds has the given owner and an existing skill (foreign key) |
| Database.InsertFreshOwner | routes/profile.js:146-154 | for an owner without links, the loop succeeds iff all ids are skills and pairwise distinct; the links are then the old ones plus owner x ids |
| Database.Db.constructor | config/database.js:44-112 | the empty tables satisfy every declared constraint and the counters start at 1 |
| Search.ProfileRows | Predesk/routes/search.js:18-23 | exactly the profiles whose name or education contains the term, as `profile` results |
| Search.ProjectRows | Predesk/routes/search.js:26-31 | exactly the projects whose title or description contains the term |
| Search.SkillRows | Predesk/routes/search.js:34-40 | exactly the skills whose name, category or level contains the term |
| Search.WorkRows | Predesk/routes/search.js:43-49 | exactly the work entries whose company, position or description contains the term |
| Search.Weigh | Predesk/routes/search.js:54-59 | each row gets the given relevance, in order |
| Search.GlobalSearch | Predesk/routes/search.js:10-15 | 400 iff `q` is missing or shorter than 2 UTF-16 code units after trimming; otherwise `total_results` counts every match of the four queries and at most 50 are returned |
| Search.HandleSearch | Predesk/routes/search.js:6-76 | the handler, which sorts an array in place, answers `GlobalSearch` of the current tables |
| Search.ByRelevanceIsStrictWeakOrder | Predesk/routes/search.js:62-67 | the comparator (relevance, then date, both descending) is a strict weak order |
| Search.StripWeigh | Predesk/routes/search.js:70 | removing the relevance field restores the rows |
| Search.WeighKind | Predesk/routes/search.js:54-59 | rows of one table get that table's relevance |
| Search.MergedWeights | Predesk/routes/search.js:54-59 | profiles weigh 3, projects and skills 2, work 1, and stripping the merge gives all four row lists |
| Search.RankedSortsAllRows | Predesk/routes/search.js:62-70 | sorting the weighted rows and stripping the weights is sorting the rows by relevance |
| Search.RankedIsPermutation | Predesk/routes/search.js:62-74 | the ranked list holds every matching row exactly once |
| Search.RankedOrder | Predesk/routes/search.js:62-67 | higher relevance first; within one relevance, newer first |
| Search.RankedKeepsTies | Predesk/routes/search.js:62-67 | rows equal on both keys stay in query order |
| Search.GlobalPageIsTop | Predesk/routes/search.js:75 | the page is a prefix of the ranked list, and no row left out outranks a returned one |
| Search.GlobalSearchTrimmed | Predesk/routes/search.js:14 | searching `q` and `q.trim()` is accepted alike and returns the same results and total |
| Search.RequestedKind | Predesk/routes/search.js:99 | a type filter applies iff it is one of `profile`, `project`, `skill`, `work` |
| Search.EchoOrAll | Predesk/routes/search.js:211-213 | a truthy filter is echoed; an absent or empty one reads `all` |
| Search.AdvancedSearch | Predesk/routes/search.js:89-216 | 400 iff `q` is missing or shorter than 2 UTF-16 code units after trimming; otherwise the echoed filters; `total_results` counts every selected row; `results` is the head of the date-sorted list of them, at most 50 long |
| Search.HandleAdvancedSearch | Predesk/routes/search.js:85-216 | the handler answers `AdvancedSearch` of the current tables |
| Search.NewerIsStrictWeakOrder | Predesk/routes/search.js:207 | "newer first" is a strict weak order |
| Search.AdvancedNewestFirst | Predesk/routes/search.js:207 | advanced results are in `created_at` descending order |
| Search.AdvancedPageIsTop | Predesk/routes/search.js:207-216 | the returned page is newest first, and no selected row left off it is newer than a returned one |
| Search.EmojiIsLongEnough | Predesk/routes/search.js:10 | a query of one emoji passes the length check, because it is two UTF-16 code units |
| Search.AdvancedUntypedIsGlobal | Predesk/routes/search.js:169-201 | without a type filter, the advanced search returns the same rows as the global one |
| Search.AdvancedProfiles | Predesk/routes/search.js:101-109 | `type=profile` returns exactly the matching profiles |
| Search.ProjectResultsNewestFirst | Predesk/routes/search.js:130 | projects in `created_at DESC` order stay newest first once turned into results |
| Search.AdvancedProjects | Predesk/routes/search.js:111-134 | `type=project` returns exactly the matching projects, and with `skill` only those linked to a skill whose name contains it |
| Search.AdvancedSkills | Predesk/routes/search.js:136-155 | `type=skill` returns exactly the matching skills, and with `category` only skills of that category |
| Search.AdvancedSkillsTieBreak | Predesk/routes/search.js:151 | skills created at the same moment stay in `proficiency_level DESC, name ASC` order |
| Search.AdvancedWork | Predesk/routes/search.js:157-167 | `type=work` returns exactly the matching work entries |
| Search.AdvancedWorkTieBreak | Predesk/routes/search.js:164 | work entries created at the same moment stay in `start_date DESC` order |
| SkillRoutes.Counted | Predesk/routes/skills.js:10-14 | one row per skill, with `project_count` the number of its project links |
| SkillRoutes.CountedByProficiencyThenNameIsStrictWeakOrder | Predesk/routes/skills.js:15 | the list order over counted rows is a strict weak order |
| SkillRoutes.ListSkillsSpec | Predesk/routes/skills.js:10-16 | the list holds each skill once with its count, higher level first, then by name |
| SkillRoutes.ListSkillsStrict | Predesk/routes/skills.js:15 | since names are unique, no two listed skills tie: the order is strict |
| SkillRoutes.MoreUsedIsStrictWeakOrder | Predesk/routes/skills.js:38 | `project_count DESC, proficiency_level DESC` is a strict weak order |
| SkillRoutes.TopSkills | Predesk/routes/skills.js:30-40 | the default limit is 10; a negative `LIMIT` is a server error; otherwise at most `limit` rows |
| SkillRoutes.TopSkillsSpec | Predesk/routes/skills.js:33-40 | exactly `min(limit, skills)` rows, a prefix of the usage ranking of all skills, most used first, and no skill left out is used more than a returned one |
| SkillRoutes.GetSkill | Predesk/routes/skills.js:57-65 | 404 iff no skill has the id; otherwise that skill |
| SkillRoutes.GetSkillProjects | Predesk/routes/skills.js:68-73 | the projects linked to the skill, newest first |
| SkillRoutes.AddSkillConsistent | Predesk/routes/skills.js:111-114 | appending a skill with the next id and an unused name keeps every constraint |
| SkillRoutes.NewSkillFound | Predesk/routes/skills.js:111-123 | a newly created skill is found by `GET /api/skills/:id`, with no projects |
| SkillRoutes.CreateSkillStatus | Predesk/routes/skills.js:93-114 | 400 iff no name; 409 iff the name is taken; 500 iff the level is not an ENUM value; otherwise 201 |
| SkillRoutes.CreateSkill | Predesk/routes/skills.js:89-123 | answers `CreateSkillStatus`; on 201 appends the skill (level defaulting to `intermediate`) and echoes it; otherwise changes nothing |
| SkillRoutes.UpdatedLevel | Predesk/routes/skills.js:168-172 | an absent level stores NULL, an ENUM name stores that level, anything else is rejected |
| SkillRoutes.ReplaceSkillConsistent | Predesk/routes/skills.js:168-172 | replacing a skill in place, keeping its id and with a name no other skill holds, keeps every constraint |
| SkillRoutes.UpdateSkillStatus | Predesk/routes/skills.js:137-172 | 400 iff no name; 404 iff no such id; 409 iff another skill holds the name; 500 iff the level is not an ENUM value; otherwise 200 |
| SkillRoutes.UpdateSkill | Predesk/routes/skills.js:132-176 | answers `UpdateSkillStatus`; on 200 overwrites name, level and category of that row only |
| SkillRoutes.OwnNameNoConflict | Predesk/routes/skills.js:155-165 | a skill keeping its own name never conflicts |
| SkillRoutes.RemoveSkillConsistent | Predesk/routes/skills.js:201-202 | deleting a skill with its links (cascade) keeps every constraint, and the skill is no longer found |
| SkillRoutes.UpdatedSkillFound | Predesk/routes/skills.js:160-176 | after a 200, `GET /api/skills/:id` returns the overwritten row with the same projects as before |
| SkillRoutes.DeleteSkill | Predesk/routes/skills.js:185-206 | 404 iff no such id; otherwise removes the skill and every project and profile link to it, after which GET answers 404 |
| ProfileRoutes.GetProfile | routes/profile.js:11-18 | 404 iff there is no profile; otherwise the first profile row |
| ProfileRoutes.GetProfileSpec | routes/profile.js:21-40 | exactly the profile's linked skills, higher level first then by name, and all work entries, latest start first and undated last |
| ProfileRoutes.CreateProfileStatus | routes/profile.js:53-64 | 400 iff name or email is missing; 409 iff a profile exists; otherwise 201 |
| ProfileRoutes.NewProfile | routes/profile.js:67-70 | the inserted row carries the request's fields, the next id and the current time |
| ProfileRoutes.AddProfileConsistent | routes/profile.js:67-70 | inserting the only profile keeps every constraint; no profile link can exist yet |
| ProfileRoutes.NewProfileRead | routes/profile.js:67-82 | after creation `GET /api/profile` returns the new profile with no skills |
| ProfileRoutes.CreateProfile | routes/profile.js:49-82 | answers `CreateProfileStatus`; on 201 stores and echoes the profile; otherwise changes nothing |
| ProfileRoutes.UpdateProfileStatus | routes/profile.js:95-106 | 400 iff name or email is missing; 404 iff there is no profile; otherwise 200 |
| ProfileRoutes.UpdatedProfile | routes/profile.js:109-113 | the update overwrites the six fields and keeps id and creation time |
| ProfileRoutes.UpdateProfileConsistent | routes/profile.js:109-113 | updating the profile keeps every constraint; GET then shows the new fields and the same skills |
| ProfileRoutes.UpdateProfile | routes/profile.js:91-117 | answers `UpdateProfileStatus`; on 200 replaces the profile row and nothing else |
| ProfileRoutes.SetSkillsRefusal | routes/profile.js:130-141 | 400 iff `skill_ids` is not a non-empty array; 404 iff there is no profile |
| ProfileRoutes.ClearProfileLinksConsistent | routes/profile.js:146 | clearing the profile's links keeps every constraint |
| ProfileRoutes.AddProfileLinkConsistent | routes/profile.js:150-153 | adding a link between an existing profile and an existing skill keeps every constraint |
| ProfileRoutes.InsertProfileLinks | routes/profile.js:149-154 | the loop leaves exactly the links `InsertLinks` computes and reports whether an insert failed |
| ProfileRoutes.SetProfileSkills | routes/profile.js:126-158 | a refusal changes nothing; otherwise the profile's links are cleared and re-inserted, 500 if an insert failed (earlier inserts stay) |
| ProfileRoutes.SetSkillsSpec | routes/profile.js:146-154 | the replacement succeeds iff every id is a skill and no id repeats; the profile's links are then exactly the given ids |
| ProjectRoutes.SkillNames | Predesk/routes/projects.js:13 | the names of the grouped skills, in order |
| ProjectRoutes.GroupConcat | Predesk/routes/projects.js:13 | `GROUP_CONCAT` is NULL iff there is nothing to concatenate |
| ProjectRoutes.ListProjects | Predesk/routes/projects.js:11-34 | one listing per selected project, newest first, each with its skills parsed from the concatenation |
| ProjectRoutes.ProjectListedIff | Predesk/routes/projects.js:21-24 | with `?skill=`, a project is listed iff one of its skills has a name containing the filter |
| ProjectRoutes.ListProjectsSpec | Predesk/routes/projects.js:26 | the listed projects are exactly the selected ones, each once, newest first |
| ProjectRoutes.ListingSkills | Predesk/routes/projects.js:31-34 | when skill names are non-empty and comma-free, `skills` is exactly the names of the project's linked (and filtered) skills |
| ProjectRoutes.GetProject | Predesk/routes/projects.js:52-60 | 404 iff no project has the id; otherwise that project |
| ProjectRoutes.GetProjectSpec | Predesk/routes/projects.js:65-70 | exactly the project's linked skills, ordered by name |
| ProjectRoutes.NewProject | Predesk/routes/projects.js:97-100 | the inserted row carries the request's fields, the next id and the current time |
| ProjectRoutes.AddProjectConsistent | Predesk/routes/projects.js:97-102 | appending a project with the next id keeps every constraint, and no link to it exists yet |
| ProjectRoutes.AddProjectLinkConsistent | Predesk/routes/projects.js:107-110 | adding a link between an existing project and an existing skill keeps every constraint |
| ProjectRoutes.InsertProjectLinks | Predesk/routes/projects.js:105-112 | the loop leaves exactly the links `InsertLinks` computes and reports whether an insert failed |
| ProjectRoutes.AppendProject | Predesk/routes/projects.js:97-102 | the insert appends the row, advances the counter and keeps every constraint |
| ProjectRoutes.CreateProject | Predesk/routes/projects.js:86-123 | 400 iff title or description is missing; otherwise the project is stored, its links are inserted, and the answer is 201 or 500; on 500 the project and the earlier links stay |
| ProjectRoutes.CreateProjectSpec | Predesk/routes/projects.js:97-112 | the new project is found by GET; the links succeed iff the ids are known skills without repeats; they are then exactly the given ids |
| ProjectRoutes.UpdateProjectRefusal | Predesk/routes/projects.js:137-152 | 400 iff title or description is missing; 404 iff no such project |
| ProjectRoutes.UpdatedProject | Predesk/routes/projects.js:155-159 | the update overwrites the five fields and keeps id and creation time |
| ProjectRoutes.ReplaceProjectConsistent | Predesk/routes/projects.js:155-159 | replacing a project row with the same id keeps every constraint and the key set |
| ProjectRoutes.UpdateProject | Predesk/routes/projects.js:132-177 | a refusal changes nothing; otherwise the row is overwritten and, when `skill_ids` is an array, the links are replaced; 500 if an insert failed |
| ProjectRoutes.UpdatedProjectFound | Predesk/routes/projects.js:132-177 | after an update, `GET /api/projects/:id` returns the overwritten row and exactly the skills the links now hold: the old ones without an array, and after a 200 with one exactly the given ids |
| ProjectRoutes.ReplaceLinksSpec | Predesk/routes/projects.js:162-173 | without an array the links stay; with one, success iff the ids are known and distinct, after which the project's links are exactly those ids and other projects' links are untouched |
| ProjectRoutes.RemoveProjectConsistent | Predesk/routes/projects.js:202-203 | deleting a project with its links (cascade) keeps every constraint |
| ProjectRoutes.DeleteProject | Predesk/routes/projects.js:186-207 | 404 iff no such id; otherwise the project and its links are removed, after which GET answers 404 |

## Left out

- Connections, `async`, the pool and concurrency are not modelled; each handler runs atomically against the tables.
- Only three failures are modelled: an ENUM violation, a key violation of the link inserts and the negative `LIMIT` of SkillRoutes.TopSkills. The other `catch` branches (a lost connection, a failed query) answer 500 without a model.
- Every string comparison in SQL is modelled under a binary collation: exact `=` (the 409 name checks of SkillRoutes.CreateSkillStatus and SkillRoutes.UpdateSkillStatus, the `category = ?` of Search.AdvancedSkills), the `UNIQUE` skill name of Database.Consistent, the `ENUM` values, `ORDER BY name` (Text.StringLess) and `LIKE`. MySQL's default collations compare case-insensitively: MySQL 5.7's `utf8mb4_general_ci` also ignores trailing spaces (PAD SPACE), and MySQL 8.0's `utf8mb4_0900_ai_ci` keeps them (NO PAD) but ignores accents. The database is created without a character set, so the server's default applies. For example, `{name: "react"}` with `React` stored answers 409 in MySQL, but the model answers 201.
- Search.Like is a plain substring test. In MySQL a `%` or `_` inside the user's term acts as a wildcard, and a `\` escapes the next character; neither is modelled.
- Search.RankedOrder compares `created_at` as integers. `new Date(...)` parsing and time zones are not modelled.
- A SQL `ORDER BY` that ties is assumed to keep primary-key (table) order, and so is the order of names inside `GROUP_CONCAT`. SQL leaves both unspecified.
- Request fields that are present but not strings are not modelled (numbers, objects, string ids from the URL). Ids are integers.
- SkillRoutes.CreateSkill, SkillRoutes.UpdatedLevel, SkillRoutes.UpdateSkill, ProfileRoutes.NewProfile, ProfileRoutes.UpdatedProfile, ProjectRoutes.NewProject, ProjectRoutes.UpdatedProject: an absent body field binds as NULL. mysql2 actually rejects `undefined` bind values, so the source answers 500 instead. For example, `POST /api/skills` with `{name: "Go"}` sends `undefined` for `category` and answers 500, where the model answers 201; the same holds for `PUT /api/skills/:id` without `proficiency_level`.
- SkillRoutes.TopSkills takes `limit` already parsed as an integer. `parseInt` of a non-numeric text (NaN) is not modelled.
- SkillRoutes.TopSkills assumes a server that accepts a number bound to `LIMIT ?` in a prepared statement. mysql2 sends a JavaScript number as a DOUBLE, which MySQL 8.0.22 and later refuse ("Incorrect arguments to mysqld_stmt_execute"); there every request would answer 500.
- Column widths (`VARCHAR(255)`, `VARCHAR(500)`) and the `group_concat_max_len` truncation are not modelled.
- `updated_at` is not modelled.
- Work experience has no write route among these files; its table is only read.
- `server.js`, `scripts/migrate.js`, `scripts/seed.js`, `public/script.js` and `test-api.js` are not part of this model.
- The profile's `UNIQUE` email holds trivially, because at most one profile can exist.
