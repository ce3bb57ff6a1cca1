/** The search routes (Predesk/routes/search.js): a global search that ranks
    matches from the four tables by a fixed relevance per table, and an advanced
    search that can restrict itself to one table and sorts by date only. */
module Search {
  import opened Text
  import opened Sorting
  import opened Schema
  import opened Database

  datatype Kind = ProfileKind | ProjectKind | SkillKind | WorkKind

  /** The `type` column of a result, and the `type` filter value that selects it. */
  function KindName(k: Kind): string {
    match k
    case ProfileKind => "profile"
    case ProjectKind => "project"
    case SkillKind => "skill"
    case WorkKind => "work"
  }

  /** One entry of `results`: a row projected onto the common result columns. */
  datatype SearchResult = SearchResult(
    kind: Kind, id: int, title: string, description: Option<string>, createdAt: int,
    category: Option<string>)

  /** The 400 answer: "Search query must be at least 2 characters long". */
  datatype SearchError = QueryTooShort

  const MinQueryLength: nat := 2
  const PageSize: nat := 50

  /** `q` is present and, once trimmed, at least two UTF-16 code units long
      (JavaScript's `length`). */
  predicate ValidQuery(q: Option<string>) {
    Truthy(q) && Utf16Length(Trim(q.value)) >= MinQueryLength
  }

  /** `field LIKE '%term%'`; a NULL field never matches. */
  predicate Like(field: Option<string>, term: string) {
    field.Some? && Contains(field.value, term)
  }

  // ---------------------------------------------------------------------------
  // Per-table matching and projection (the four SELECTs)

  predicate ProfileMatches(p: Profile, term: string) {
    Like(Some(p.name), term) || Like(p.education, term)
  }

  predicate ProjectMatches(p: Project, term: string) {
    Like(Some(p.title), term) || Like(p.description, term)
  }

  function ProficiencyText(p: Option<Proficiency>): Option<string> {
    if p.None? then None else Some(ProficiencyName(p.value))
  }

  predicate SkillMatches(s: Skill, term: string) {
    Like(Some(s.name), term) || Like(s.category, term) || Like(ProficiencyText(s.proficiency), term)
  }

  predicate WorkMatches(w: Work, term: string) {
    Like(Some(w.company), term) || Like(Some(w.position), term) || Like(w.description, term)
  }

  function ProfileResult(p: Profile): SearchResult {
    SearchResult(ProfileKind, p.id, p.name, p.education, p.createdAt, Some("profile"))
  }

  function ProjectResult(p: Project): SearchResult {
    SearchResult(ProjectKind, p.id, p.title, p.description, p.createdAt, Some("project"))
  }

  /** `CONCAT(proficiency_level, ' level ', category, ' skill')`, NULL when either is NULL. */
  function SkillDescription(s: Skill): Option<string> {
    if s.proficiency.None? || s.category.None? then None
    else Some(ProficiencyName(s.proficiency.value) + " level " + s.category.value + " skill")
  }

  function SkillResult(s: Skill): SearchResult {
    SearchResult(SkillKind, s.id, s.name, SkillDescription(s), s.createdAt, s.category)
  }

  /** `CONCAT(company, ' - ', description)`, NULL when the description is NULL. */
  function WorkDescription(w: Work): Option<string> {
    if w.description.None? then None else Some(w.company + " - " + w.description.value)
  }

  function WorkResult(w: Work): SearchResult {
    SearchResult(WorkKind, w.id, w.position, WorkDescription(w), w.createdAt, Some("work"))
  }

  /** The matching profiles, projected, in table order. */
  function ProfileRows(profiles: seq<Profile>, term: string): (r: seq<SearchResult>)
    ensures forall p :: p in profiles && ProfileMatches(p, term) ==> ProfileResult(p) in r
    ensures forall x :: x in r ==> exists p :: p in profiles && ProfileMatches(p, term) && x == ProfileResult(p)
    ensures forall x :: x in r ==> x.kind == ProfileKind && x.category == Some("profile")
  {
    var kept := Filter(profiles, p => ProfileMatches(p, term));
    var r := MapSeq(kept, ProfileResult);
    forall p | p in kept ensures ProfileResult(p) in r {
      var i :| 0 <= i < |kept| && kept[i] == p;
      assert r[i] == ProfileResult(p);
    }
    forall x | x in r ensures exists p :: p in profiles && ProfileMatches(p, term) && x == ProfileResult(p) {
      var i :| 0 <= i < |r| && r[i] == x;
      assert kept[i] in kept;
    }
    r
  }

  function ProjectRows(projects: seq<Project>, term: string): (r: seq<SearchResult>)
    ensures forall p :: p in projects && ProjectMatches(p, term) ==> ProjectResult(p) in r
    ensures forall x :: x in r ==> exists p :: p in projects && ProjectMatches(p, term) && x == ProjectResult(p)
    ensures forall x :: x in r ==> x.kind == ProjectKind && x.category == Some("project")
  {
    var kept := Filter(projects, p => ProjectMatches(p, term));
    var r := MapSeq(kept, ProjectResult);
    forall p | p in kept ensures ProjectResult(p) in r {
      var i :| 0 <= i < |kept| && kept[i] == p;
      assert r[i] == ProjectResult(p);
    }
    forall x | x in r ensures exists p :: p in projects && ProjectMatches(p, term) && x == ProjectResult(p) {
      var i :| 0 <= i < |r| && r[i] == x;
      assert kept[i] in kept;
    }
    r
  }

  function SkillRows(skills: seq<Skill>, term: string): (r: seq<SearchResult>)
    ensures forall s :: s in skills && SkillMatches(s, term) ==> SkillResult(s) in r
    ensures forall x :: x in r ==> exists s :: s in skills && SkillMatches(s, term) && x == SkillResult(s)
    ensures forall x :: x in r ==> x.kind == SkillKind
  {
    var kept := Filter(skills, s => SkillMatches(s, term));
    var r := MapSeq(kept, SkillResult);
    forall s | s in kept ensures SkillResult(s) in r {
      var i :| 0 <= i < |kept| && kept[i] == s;
      assert r[i] == SkillResult(s);
    }
    forall x | x in r ensures exists s :: s in skills && SkillMatches(s, term) && x == SkillResult(s) {
      var i :| 0 <= i < |r| && r[i] == x;
      assert kept[i] in kept;
    }
    r
  }

  function WorkRows(work: seq<Work>, term: string): (r: seq<SearchResult>)
    ensures forall w :: w in work && WorkMatches(w, term) ==> WorkResult(w) in r
    ensures forall x :: x in r ==> exists w :: w in work && WorkMatches(w, term) && x == WorkResult(w)
    ensures forall x :: x in r ==> x.kind == WorkKind && x.category == Some("work")
  {
    var kept := Filter(work, w => WorkMatches(w, term));
    var r := MapSeq(kept, WorkResult);
    forall w | w in kept ensures WorkResult(w) in r {
      var i :| 0 <= i < |kept| && kept[i] == w;
      assert r[i] == WorkResult(w);
    }
    forall x | x in r ensures exists w :: w in work && WorkMatches(w, term) && x == WorkResult(w) {
      var i :| 0 <= i < |r| && r[i] == x;
      assert kept[i] in kept;
    }
    r
  }

  /** All four result sets concatenated: profiles, projects, skills, work. */
  function AllRows(t: Tables, term: string): seq<SearchResult> {
    ProfileRows(t.profiles, term) + ProjectRows(t.projects, term)
      + SkillRows(t.skills, term) + WorkRows(t.work, term)
  }

  // ---------------------------------------------------------------------------
  // Global search: GET /api/search?q=

  /** The fixed relevance each table's matches carry. */
  function Relevance(k: Kind): int {
    match k
    case ProfileKind => 3
    case ProjectKind => 2
    case SkillKind => 2
    case WorkKind => 1
  }

  /** A result with the `relevance` field the route adds before sorting. */
  datatype Weighted = Weighted(result: SearchResult, relevance: int)

  function Weigh(rows: seq<SearchResult>, relevance: int): (r: seq<Weighted>)
    ensures |r| == |rows|
    ensures forall i :: 0 <= i < |r| ==> r[i] == Weighted(rows[i], relevance)
  {
    MapSeq(rows, x => Weighted(x, relevance))
  }

  /** `allResults` before sorting. */
  function Merged(t: Tables, term: string): seq<Weighted> {
    Weigh(ProfileRows(t.profiles, term), 3) + Weigh(ProjectRows(t.projects, term), 2)
      + Weigh(SkillRows(t.skills, term), 2) + Weigh(WorkRows(t.work, term), 1)
  }

  /** The comparator of the global sort: relevance descending, then newest first. */
  predicate MoreRelevant(a: Weighted, b: Weighted) {
    a.relevance > b.relevance || (a.relevance == b.relevance && a.result.createdAt > b.result.createdAt)
  }

  function WeightedResult(w: Weighted): SearchResult {
    w.result
  }

  /** `allResults.map(({ relevance, ...item }) => item)` */
  function Strip(ws: seq<Weighted>): seq<SearchResult> {
    MapSeq(ws, WeightedResult)
  }

  /** Every match, sorted and stripped: the list `total_results` counts. */
  function Ranked(t: Tables, term: string): seq<SearchResult> {
    Strip(StableSort(Merged(t, term), MoreRelevant))
  }

  datatype SearchResponse = SearchResponse(query: string, totalResults: nat, results: seq<SearchResult>)

  function GlobalSearch(q: Option<string>, t: Tables): (r: Result<SearchResponse, SearchError>)
    ensures r.Failure? <==> !ValidQuery(q)
    ensures r.Success? ==>
      var term := Trim(q.value);
      && r.value.query == q.value
      && r.value.totalResults == |ProfileRows(t.profiles, term)| + |ProjectRows(t.projects, term)|
                                 + |SkillRows(t.skills, term)| + |WorkRows(t.work, term)|
      && |r.value.results| == if r.value.totalResults <= PageSize then r.value.totalResults else PageSize
  {
    if !ValidQuery(q) then Failure(QueryTooShort)
    else
      var all := Ranked(t, Trim(q.value));
      Success(SearchResponse(q.value, |all|, Take(all, PageSize)))
  }

  /** The route handler: validate, run the four queries, weight, sort the array in
      place, strip, and cut to one page. */
  method HandleSearch(q: Option<string>, db: Db) returns (r: Result<SearchResponse, SearchError>)
    ensures r == GlobalSearch(q, db.Snapshot())
  {
    if !Truthy(q) || Utf16Length(Trim(q.value)) < MinQueryLength {
      return Failure(QueryTooShort);
    }
    var term := Trim(q.value);
    var merged := Merged(db.Snapshot(), term);
    var allResults := SortedArray(merged, MoreRelevant);
    var results := Strip(allResults[..]);
    return Success(SearchResponse(q.value, |results|, Take(results, PageSize)));
  }

  /** The global order on stripped results: higher table relevance first, then newer. */
  predicate ByRelevance(a: SearchResult, b: SearchResult) {
    || Relevance(a.kind) > Relevance(b.kind)
    || (Relevance(a.kind) == Relevance(b.kind) && a.createdAt > b.createdAt)
  }

  lemma ByRelevanceIsStrictWeakOrder()
    ensures StrictWeakOrder(ByRelevance)
  {
  }

  lemma StripWeigh(rows: seq<SearchResult>, relevance: int)
    ensures Strip(Weigh(rows, relevance)) == rows
  {
  }

  /** The rows of one table, weighted with that table's relevance. */
  lemma WeighKind(rows: seq<SearchResult>, k: Kind)
    requires forall x :: x in rows ==> x.kind == k
    ensures forall w :: w in Weigh(rows, Relevance(k)) ==> w.relevance == Relevance(w.result.kind)
  {
    var ws := Weigh(rows, Relevance(k));
    forall w | w in ws ensures w.relevance == Relevance(w.result.kind) {
      var i :| 0 <= i < |ws| && ws[i] == w;
      assert rows[i] in rows;
    }
  }

  lemma StripAppend(a: seq<Weighted>, b: seq<Weighted>)
    ensures Strip(a + b) == Strip(a) + Strip(b)
  {
  }

  /** Every weighted row carries its own table's relevance, and stripping the
      weights gives the four result sets back in order. */
  lemma MergedWeights(t: Tables, term: string)
    ensures forall w :: w in Merged(t, term) ==> w.relevance == Relevance(w.result.kind)
    ensures Strip(Merged(t, term)) == AllRows(t, term)
  {
    var a, b, c, d := ProfileRows(t.profiles, term), ProjectRows(t.projects, term),
                      SkillRows(t.skills, term), WorkRows(t.work, term);
    WeighKind(a, ProfileKind);
    WeighKind(b, ProjectKind);
    WeighKind(c, SkillKind);
    WeighKind(d, WorkKind);
    var wa, wb, wc, wd := Weigh(a, 3), Weigh(b, 2), Weigh(c, 2), Weigh(d, 1);
    StripWeigh(a, 3);
    StripWeigh(b, 2);
    StripWeigh(c, 2);
    StripWeigh(d, 1);
    StripAppend(wa, wb);
    StripAppend(wa + wb, wc);
    StripAppend(wa + wb + wc, wd);
  }

  /** The global ranking is the four result sets, concatenated and stably sorted
      by table relevance and date: the `relevance` field is an artefact of the
      implementation. */
  lemma RankedSortsAllRows(t: Tables, term: string)
    ensures Ranked(t, term) == StableSort(AllRows(t, term), ByRelevance)
  {
    MergedWeights(t, term);
    StableSortMap(Merged(t, term), WeightedResult, MoreRelevant, ByRelevance);
  }

  /** The ranking lists exactly the rows that matched, each as often as it matched. */
  lemma RankedIsPermutation(t: Tables, term: string)
    ensures multiset(Ranked(t, term)) == multiset(AllRows(t, term))
  {
    RankedSortsAllRows(t, term);
  }

  /** Profiles come first, then projects and skills, then work; within one
      relevance, newer first. */
  lemma RankedOrder(t: Tables, term: string)
    ensures var r := Ranked(t, term);
      forall i, j :: 0 <= i < j < |r| ==>
        || Relevance(r[i].kind) > Relevance(r[j].kind)
        || (Relevance(r[i].kind) == Relevance(r[j].kind) && r[i].createdAt >= r[j].createdAt)
  {
    RankedSortsAllRows(t, term);
    ByRelevanceIsStrictWeakOrder();
    StableSortSorted(AllRows(t, term), ByRelevance);
  }

  /** Results of equal relevance and equal date keep the order they were
      concatenated in: profiles, projects, skills, work, each in table order. */
  lemma RankedKeepsTies(t: Tables, term: string, e: SearchResult)
    ensures TiesWith(Ranked(t, term), e, ByRelevance) == TiesWith(AllRows(t, term), e, ByRelevance)
  {
    RankedSortsAllRows(t, term);
    ByRelevanceIsStrictWeakOrder();
    StableSortKeepsTies(AllRows(t, term), e, ByRelevance);
  }

  /** The page is the head of the ranking: no match left off it outranks one shown. */
  lemma GlobalPageIsTop(q: Option<string>, t: Tables)
    requires ValidQuery(q)
    ensures var r, all := GlobalSearch(q, t), Ranked(t, Trim(q.value));
      && r.Success?
      && r.value.totalResults == |all|
      && r.value.results <= all
      && forall i, j :: 0 <= i < |r.value.results| <= j < |all| ==> !ByRelevance(all[j], r.value.results[i])
  {
    var term := Trim(q.value);
    RankedSortsAllRows(t, term);
    ByRelevanceIsStrictWeakOrder();
    StableSortSorted(AllRows(t, term), ByRelevance);
  }

  /** Searching for the trimmed query finds the same results. */
  lemma GlobalSearchTrimmed(q: string, t: Tables)
    ensures var a, b := GlobalSearch(Some(q), t), GlobalSearch(Some(Trim(q)), t);
      && (a.Success? <==> b.Success?)
      && (a.Success? ==> a.value.results == b.value.results && a.value.totalResults == b.value.totalResults)
  {
    var term := Trim(q);
    TrimIdempotent(q);
    if Utf16Length(term) >= MinQueryLength {
      assert q != [] && term != [];
      var all := Ranked(t, term);
      assert GlobalSearch(Some(q), t) == Success(SearchResponse(q, |all|, Take(all, PageSize)));
      assert GlobalSearch(Some(term), t) == Success(SearchResponse(term, |all|, Take(all, PageSize)));
    } else {
      assert !ValidQuery(Some(q)) && !ValidQuery(Some(term));
    }
  }

  // ---------------------------------------------------------------------------
  // Advanced search: GET /api/search/advanced?q=&type=&category=&skill=

  /** The table a `type` filter selects; any other value selects none. */
  function RequestedKind(searchType: Option<string>): (r: Option<Kind>)
    ensures r.Some? <==> searchType.Some? && searchType.value in {"profile", "project", "skill", "work"}
    ensures r.Some? ==> KindName(r.value) == searchType.value
  {
    if searchType == Some("profile") then Some(ProfileKind)
    else if searchType == Some("project") then Some(ProjectKind)
    else if searchType == Some("skill") then Some(SkillKind)
    else if searchType == Some("work") then Some(WorkKind)
    else None
  }

  /** `value || 'all'` */
  function EchoOrAll(v: Option<string>): (r: string)
    ensures Truthy(v) ==> r == v.value
    ensures !Truthy(v) ==> r == "all"
  {
    if Truthy(v) then v.value else "all"
  }

  /** Project `p` is linked to a skill whose name contains `skill`. */
  predicate LinkedToSkillLike(p: Project, t: Tables, skill: string) {
    exists s :: s in t.skills && Link(p.id, s.id) in t.projectSkills && Contains(s.name, skill)
  }

  predicate ProjectSelected(p: Project, t: Tables, term: string, skill: Option<string>) {
    ProjectMatches(p, term) && (!Truthy(skill) || LinkedToSkillLike(p, t, skill.value))
  }

  predicate SkillSelected(s: Skill, term: string, category: Option<string>) {
    SkillMatches(s, term) && (!Truthy(category) || s.category == Some(category.value))
  }

  /** The DISTINCT matching projects (linked to a matching skill when `skill`
      is given), in table order. */
  function SelectedProjects(t: Tables, term: string, skill: Option<string>): seq<Project> {
    Filter(t.projects, p => ProjectSelected(p, t, term, skill))
  }

  /** `type=project`: the selected projects, `ORDER BY created_at DESC`. */
  function ProjectsOfType(t: Tables, term: string, skill: Option<string>): seq<Project> {
    StableSort(SelectedProjects(t, term, skill), ProjectsNewestFirst)
  }

  /** The matching skills (of exactly `category` when given), in table order. */
  function SelectedSkills(t: Tables, term: string, category: Option<string>): seq<Skill> {
    Filter(t.skills, s => SkillSelected(s, term, category))
  }

  lemma SelectedSkillsMembers(t: Tables, term: string, category: Option<string>)
    ensures forall s :: s in SelectedSkills(t, term, category) <==> s in t.skills && SkillSelected(s, term, category)
  {
  }

  /** `type=skill`: the selected skills, `ORDER BY proficiency_level DESC, name ASC`. */
  function SkillsOfType(t: Tables, term: string, category: Option<string>): seq<Skill> {
    StableSort(SelectedSkills(t, term, category), ByProficiencyThenName)
  }

  /** The matching work rows, in table order. */
  function MatchingWork(t: Tables, term: string): seq<Work> {
    Filter(t.work, w => WorkMatches(w, term))
  }

  lemma MatchingWorkMembers(t: Tables, term: string)
    ensures forall w :: w in MatchingWork(t, term) <==> w in t.work && WorkMatches(w, term)
  {
  }

  /** `type=work`: the matching work rows, `ORDER BY start_date DESC`. */
  function WorkOfType(t: Tables, term: string): seq<Work> {
    StableSort(MatchingWork(t, term), ByStartDateDesc)
  }

  /** `results` as the `switch` (or the search over all four tables) leaves it. */
  function AdvancedRows(kind: Option<Kind>, category: Option<string>, skill: Option<string>, t: Tables, term: string): seq<SearchResult> {
    match kind
    case Some(ProfileKind) => ProfileRows(t.profiles, term)
    case Some(ProjectKind) => MapSeq(ProjectsOfType(t, term, skill), ProjectResult)
    case Some(SkillKind) => MapSeq(SkillsOfType(t, term, category), SkillResult)
    case Some(WorkKind) => MapSeq(WorkOfType(t, term), WorkResult)
    case None => AllRows(t, term)
  }

  /** The comparator of the advanced sort: newest first. */
  predicate Newer(a: SearchResult, b: SearchResult) {
    a.createdAt > b.createdAt
  }

  /** Every selected row, sorted newest first: the list `total_results` counts. */
  function AdvancedAll(searchType: Option<string>, category: Option<string>, skill: Option<string>, t: Tables, term: string): seq<SearchResult> {
    StableSort(AdvancedRows(RequestedKind(searchType), category, skill, t, term), Newer)
  }

  datatype AdvancedResponse = AdvancedResponse(
    query: string, searchType: string, category: string, skill: string,
    totalResults: nat, results: seq<SearchResult>)

  function AdvancedSearch(q: Option<string>, searchType: Option<string>, category: Option<string>, skill: Option<string>, t: Tables): (r: Result<AdvancedResponse, SearchError>)
    ensures r.Failure? <==> !ValidQuery(q)
    ensures r.Success? ==>
      && r.value.query == q.value
      && r.value.searchType == EchoOrAll(searchType)
      && r.value.category == EchoOrAll(category)
      && r.value.skill == EchoOrAll(skill)
      && r.value.totalResults == |AdvancedRows(RequestedKind(searchType), category, skill, t, Trim(q.value))|
      && r.value.totalResults == |AdvancedAll(searchType, category, skill, t, Trim(q.value))|
      && r.value.results <= AdvancedAll(searchType, category, skill, t, Trim(q.value))
      && |r.value.results| == if r.value.totalResults <= PageSize then r.value.totalResults else PageSize
  {
    if !ValidQuery(q) then Failure(QueryTooShort)
    else
      var all := AdvancedAll(searchType, category, skill, t, Trim(q.value));
      Success(AdvancedResponse(q.value, EchoOrAll(searchType), EchoOrAll(category), EchoOrAll(skill),
                               |all|, Take(all, PageSize)))
  }

  /** The route handler: validate, fill `results` from one table or all four, sort
      the array in place by date, and cut to one page. */
  method HandleAdvancedSearch(q: Option<string>, searchType: Option<string>, category: Option<string>, skill: Option<string>, db: Db)
    returns (r: Result<AdvancedResponse, SearchError>)
    ensures r == AdvancedSearch(q, searchType, category, skill, db.Snapshot())
  {
    if !Truthy(q) || Utf16Length(Trim(q.value)) < MinQueryLength {
      return Failure(QueryTooShort);
    }
    var term := Trim(q.value);
    var t := db.Snapshot();
    var rows := AdvancedRows(RequestedKind(searchType), category, skill, t, term);
    var results := SortedArray(rows, Newer);
    var all := results[..];
    return Success(AdvancedResponse(q.value, EchoOrAll(searchType), EchoOrAll(category), EchoOrAll(skill),
                                    |all|, Take(all, PageSize)));
  }

  // ---------------------------------------------------------------------------
  // Properties of the advanced search

  lemma NewerIsStrictWeakOrder()
    ensures StrictWeakOrder(Newer)
  {
  }

  /** The advanced results are newest first, whatever the filters. */
  lemma AdvancedNewestFirst(searchType: Option<string>, category: Option<string>, skill: Option<string>, t: Tables, term: string)
    ensures var r := AdvancedAll(searchType, category, skill, t, term);
      forall i, j :: 0 <= i < j < |r| ==> r[i].createdAt >= r[j].createdAt
  {
    NewerIsStrictWeakOrder();
    StableSortSorted(AdvancedRows(RequestedKind(searchType), category, skill, t, term), Newer);
  }

  /** The page holds the newest rows: it is newest first, and no row left off it
      is newer than one on it. */
  lemma AdvancedPageIsTop(q: Option<string>, searchType: Option<string>, category: Option<string>, skill: Option<string>, t: Tables)
    requires ValidQuery(q)
    ensures var r, all := AdvancedSearch(q, searchType, category, skill, t), AdvancedAll(searchType, category, skill, t, Trim(q.value));
      && r.Success?
      && (forall i, j :: 0 <= i < j < |r.value.results| ==> r.value.results[i].createdAt >= r.value.results[j].createdAt)
      && (forall i, j :: 0 <= i < |r.value.results| <= j < |all| ==> all[j].createdAt <= r.value.results[i].createdAt)
  {
    AdvancedNewestFirst(searchType, category, skill, t, Trim(q.value));
    NewestPrefix(AdvancedSearch(q, searchType, category, skill, t).value.results,
                 AdvancedAll(searchType, category, skill, t, Trim(q.value)));
  }

  /** A prefix of a newest-first list is newest first and at least as new as the rest. */
  lemma NewestPrefix(page: seq<SearchResult>, all: seq<SearchResult>)
    requires page <= all
    requires forall i, j :: 0 <= i < j < |all| ==> all[i].createdAt >= all[j].createdAt
    ensures forall i, j :: 0 <= i < j < |page| ==> page[i].createdAt >= page[j].createdAt
    ensures forall i, j :: 0 <= i < |page| <= j < |all| ==> all[j].createdAt <= page[i].createdAt
  {
    assert forall i :: 0 <= i < |page| ==> page[i] == all[i];
  }

  /** An emoji is one code point but two UTF-16 code units, so it is a long
      enough query on its own. */
  lemma EmojiIsLongEnough()
    ensures ValidQuery(Some("\U{1F600}"))
  {
    var q := "\U{1F600}";
    assert LeadingSpaces(q) == 0 && TrailingSpaces(q) == 0;
    assert Trim(q) == q;
    AstralCharHasLengthTwo('\U{1F600}');
  }

  /** Without a recognised `type` the advanced search finds exactly what the
      global search finds; only the order differs. */
  lemma AdvancedUntypedIsGlobal(searchType: Option<string>, category: Option<string>, skill: Option<string>, t: Tables, term: string)
    requires RequestedKind(searchType).None?
    ensures multiset(AdvancedAll(searchType, category, skill, t, term)) == multiset(Ranked(t, term))
  {
    RankedIsPermutation(t, term);
  }

  /** `type=profile` lists exactly the matching profiles. */
  lemma AdvancedProfiles(searchType: Option<string>, category: Option<string>, skill: Option<string>, t: Tables, term: string)
    requires RequestedKind(searchType) == Some(ProfileKind)
    ensures var r := AdvancedAll(searchType, category, skill, t, term);
      && (forall x :: x in r ==> exists p :: p in t.profiles && ProfileMatches(p, term) && x == ProfileResult(p))
      && (forall p :: p in t.profiles && ProfileMatches(p, term) ==> ProfileResult(p) in r)
  {
    StableSortMembers(ProfileRows(t.profiles, term), Newer);
  }

  /** A project list sorted by date stays sorted once projected. */
  lemma ProjectResultsNewestFirst(ps: seq<Project>)
    requires Sorted(ps, ProjectsNewestFirst)
    ensures Sorted(MapSeq(ps, ProjectResult), Newer)
  {
    var r := MapSeq(ps, ProjectResult);
    forall i, j | 0 <= i < j < |r| ensures !Newer(r[j], r[i]) {
      assert !ProjectsNewestFirst(ps[j], ps[i]);
    }
  }

  /** `type=project` lists exactly the matching projects (linked to a skill
      whose name contains `skill`, when given), in the order of the SQL
      `ORDER BY created_at DESC`, which the date sort in the route leaves as it is. */
  lemma AdvancedProjects(searchType: Option<string>, category: Option<string>, skill: Option<string>, t: Tables, term: string)
    requires RequestedKind(searchType) == Some(ProjectKind)
    ensures var r := AdvancedAll(searchType, category, skill, t, term);
      && r == MapSeq(ProjectsOfType(t, term, skill), ProjectResult)
      && (forall x :: x in r ==> exists p :: p in t.projects && ProjectSelected(p, t, term, skill) && x == ProjectResult(p))
      && (forall p :: p in t.projects && ProjectSelected(p, t, term, skill) ==> ProjectResult(p) in r)
  {
    var kept := SelectedProjects(t, term, skill);
    var ps := ProjectsOfType(t, term, skill);
    ProjectsNewestFirstIsStrictWeakOrder();
    StableSortSorted(kept, ProjectsNewestFirst);
    ProjectResultsNewestFirst(ps);
    NewerIsStrictWeakOrder();
    StableSortOfSorted(MapSeq(ps, ProjectResult), Newer);
    StableSortMembers(kept, ProjectsNewestFirst);
    MapSeqMembers(ps, ProjectResult);
  }

  /** `type=skill` lists exactly the matching skills (of exactly `category`,
      when given). */
  lemma AdvancedSkills(searchType: Option<string>, category: Option<string>, skill: Option<string>, t: Tables, term: string)
    requires RequestedKind(searchType) == Some(SkillKind)
    ensures var r := AdvancedAll(searchType, category, skill, t, term);
      && (forall x :: x in r ==> exists s :: s in t.skills && SkillSelected(s, term, category) && x == SkillResult(s))
      && (forall s :: s in t.skills && SkillSelected(s, term, category) ==> SkillResult(s) in r)
      && (Truthy(category) ==> forall x :: x in r ==> x.category == Some(category.value))
  {
    var kept := SelectedSkills(t, term, category);
    assert AdvancedRows(Some(SkillKind), category, skill, t, term) == MapSeq(SkillsOfType(t, term, category), SkillResult);
    assert AdvancedAll(searchType, category, skill, t, term)
        == StableSort(MapSeq(StableSort(kept, ByProficiencyThenName), SkillResult), Newer);
    SortProjectSortMembers(kept, SkillResult, ByProficiencyThenName, Newer);
    SelectedSkillsMembers(t, term, category);
    forall x | x in AdvancedAll(searchType, category, skill, t, term)
      ensures exists s :: s in t.skills && SkillSelected(s, term, category) && x == SkillResult(s)
    {
      var s :| s in kept && x == SkillResult(s);
    }
  }

  /** `created_at DESC` on skill rows. */
  predicate SkillNewer(a: Skill, b: Skill) {
    a.createdAt > b.createdAt
  }

  /** In `type=skill`, skills created at the same moment stay in the SQL order:
      higher proficiency first, then by name. */
  lemma AdvancedSkillsTieBreak(searchType: Option<string>, category: Option<string>, skill: Option<string>, t: Tables, term: string)
    requires RequestedKind(searchType) == Some(SkillKind)
    ensures var ss := StableSort(SkillsOfType(t, term, category), SkillNewer);
      && AdvancedAll(searchType, category, skill, t, term) == MapSeq(ss, SkillResult)
      && Sorted(ss, SkillNewer)
      && forall e :: Sorted(TiesWith(ss, e, SkillNewer), ByProficiencyThenName)
  {
    var kept := SelectedSkills(t, term, category);
    var sorted := SkillsOfType(t, term, category);
    assert sorted == StableSort(kept, ByProficiencyThenName);
    assert AdvancedAll(searchType, category, skill, t, term) == StableSort(MapSeq(sorted, SkillResult), Newer);
    ByProficiencyThenNameIsStrictWeakOrder();
    assert forall a, c :: SkillNewer(a, c) == Newer(SkillResult(a), SkillResult(c));
    ProjectedTieBreak(kept, SkillResult, ByProficiencyThenName, SkillNewer, Newer);
  }

  /** `type=work` lists exactly the matching work rows. */
  lemma AdvancedWork(searchType: Option<string>, category: Option<string>, skill: Option<string>, t: Tables, term: string)
    requires RequestedKind(searchType) == Some(WorkKind)
    ensures var r := AdvancedAll(searchType, category, skill, t, term);
      && (forall x :: x in r ==> exists w :: w in t.work && WorkMatches(w, term) && x == WorkResult(w))
      && (forall w :: w in t.work && WorkMatches(w, term) ==> WorkResult(w) in r)
  {
    var kept := MatchingWork(t, term);
    assert AdvancedRows(Some(WorkKind), category, skill, t, term) == MapSeq(WorkOfType(t, term), WorkResult);
    assert AdvancedAll(searchType, category, skill, t, term)
        == StableSort(MapSeq(StableSort(kept, ByStartDateDesc), WorkResult), Newer);
    SortProjectSortMembers(kept, WorkResult, ByStartDateDesc, Newer);
    MatchingWorkMembers(t, term);
    forall x | x in AdvancedAll(searchType, category, skill, t, term)
      ensures exists w :: w in t.work && WorkMatches(w, term) && x == WorkResult(w)
    {
      var w :| w in kept && x == WorkResult(w);
    }
  }

  /** `created_at DESC` on work rows. */
  predicate WorkNewer(a: Work, b: Work) {
    a.createdAt > b.createdAt
  }

  /** In `type=work`, rows created at the same moment stay in the SQL order:
      latest start date first, undated last. */
  lemma AdvancedWorkTieBreak(searchType: Option<string>, category: Option<string>, skill: Option<string>, t: Tables, term: string)
    requires RequestedKind(searchType) == Some(WorkKind)
    ensures var ws := StableSort(WorkOfType(t, term), WorkNewer);
      && AdvancedAll(searchType, category, skill, t, term) == MapSeq(ws, WorkResult)
      && Sorted(ws, WorkNewer)
      && forall e :: Sorted(TiesWith(ws, e, WorkNewer), ByStartDateDesc)
  {
    var kept := MatchingWork(t, term);
    var sorted := WorkOfType(t, term);
    assert sorted == StableSort(kept, ByStartDateDesc);
    assert AdvancedAll(searchType, category, skill, t, term) == StableSort(MapSeq(sorted, WorkResult), Newer);
    ByStartDateDescIsStrictWeakOrder();
    assert forall a, c :: WorkNewer(a, c) == Newer(WorkResult(a), WorkResult(c));
    ProjectedTieBreak(kept, WorkResult, ByStartDateDesc, WorkNewer, Newer);
  }
}
