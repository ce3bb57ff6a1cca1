/** The skill routes (Predesk/routes/skills.js): three reads over the tables and
    create, update and delete on the store. */
module SkillRoutes {
  import opened Text
  import opened Sorting
  import opened Schema
  import opened Database

  // ---------------------------------------------------------------------------
  // GET /api/skills and GET /api/skills/top

  /** A skill row with `COUNT(ps.project_id) AS project_count`. */
  datatype SkillWithCount = SkillWithCount(skill: Skill, projectCount: nat)

  /** The number of projects linked to skill `id`. */
  function ProjectCount(links: set<Link>, id: int): nat {
    |set l | l in links && l.skill == id|
  }

  /** Every skill with its project count, in table order (`LEFT JOIN ... GROUP BY s.id`). */
  function Counted(t: Tables): (r: seq<SkillWithCount>)
    ensures |r| == |t.skills|
    ensures forall i :: 0 <= i < |r| ==> r[i].skill == t.skills[i] && r[i].projectCount == ProjectCount(t.projectSkills, t.skills[i].id)
  {
    MapSeq(t.skills, (s: Skill) => SkillWithCount(s, ProjectCount(t.projectSkills, s.id)))
  }

  predicate CountedByProficiencyThenName(a: SkillWithCount, b: SkillWithCount) {
    ByProficiencyThenName(a.skill, b.skill)
  }

  /** `ORDER BY s.proficiency_level DESC, s.name ASC` */
  function ListSkills(t: Tables): seq<SkillWithCount> {
    StableSort(Counted(t), CountedByProficiencyThenName)
  }

  lemma CountedByProficiencyThenNameIsStrictWeakOrder()
    ensures StrictWeakOrder(CountedByProficiencyThenName)
  {
    ByProficiencyThenNameIsStrictWeakOrder();
    assert forall a, b :: CountedByProficiencyThenName(a, b) == ByProficiencyThenName(a.skill, b.skill);
  }

  /** The list holds every skill once, with its own project count, ordered by
      proficiency (highest first) and then by name. */
  lemma ListSkillsSpec(t: Tables)
    ensures var r := ListSkills(t);
      && multiset(r) == multiset(Counted(t))
      && (forall x :: x in r <==> x.skill in t.skills && x.projectCount == ProjectCount(t.projectSkills, x.skill.id))
      && (forall i, j :: 0 <= i < j < |r| ==>
            || EnumIndex(r[i].skill.proficiency) > EnumIndex(r[j].skill.proficiency)
            || (EnumIndex(r[i].skill.proficiency) == EnumIndex(r[j].skill.proficiency) && !StringLess(r[j].skill.name, r[i].skill.name)))
  {
    var c := Counted(t);
    CountedByProficiencyThenNameIsStrictWeakOrder();
    StableSortSorted(c, CountedByProficiencyThenName);
    StableSortMembers(c, CountedByProficiencyThenName);
    forall x ensures x in c <==> x.skill in t.skills && x.projectCount == ProjectCount(t.projectSkills, x.skill.id) {
      if x.skill in t.skills && x.projectCount == ProjectCount(t.projectSkills, x.skill.id) {
        var i :| 0 <= i < |t.skills| && t.skills[i] == x.skill;
        assert c[i] == x;
      }
    }
  }

  /** With unique names the order is total: no two skills tie, so the list does
      not depend on the order rows are stored in. */
  lemma ListSkillsStrict(t: Tables)
    requires forall i, j :: 0 <= i < j < |t.skills| ==> t.skills[i].name != t.skills[j].name
    ensures var r := ListSkills(t);
      forall i, j :: 0 <= i < j < |r| ==> CountedByProficiencyThenName(r[i], r[j])
  {
    var c := Counted(t);
    var r := ListSkills(t);
    CountedByProficiencyThenNameIsStrictWeakOrder();
    StableSortSorted(c, CountedByProficiencyThenName);
    DistinctNames(c, r);
    forall i, j | 0 <= i < j < |r| ensures CountedByProficiencyThenName(r[i], r[j]) {
      assert !CountedByProficiencyThenName(r[j], r[i]);
      StringLessTotal(r[i].skill.name, r[j].skill.name);
    }
  }

  /** A permutation of rows with pairwise different names has pairwise different names. */
  lemma DistinctNames(c: seq<SkillWithCount>, r: seq<SkillWithCount>)
    requires multiset(r) == multiset(c)
    requires forall i, j :: 0 <= i < j < |c| ==> c[i].skill.name != c[j].skill.name
    ensures forall i, j :: 0 <= i < j < |r| ==> r[i].skill.name != r[j].skill.name
  {
    forall i, j | 0 <= i < j < |r| ensures r[i].skill.name != r[j].skill.name {
      assert r[i] in multiset(c) && r[j] in multiset(c);
      var a :| 0 <= a < |c| && c[a] == r[i];
      var b :| 0 <= b < |c| && c[b] == r[j];
      if a == b {
        CountTwice(r, i, j);
        CountOnce(c, a);
      }
    }
  }

  /** An element at two positions occurs at least twice. */
  lemma CountTwice<T>(r: seq<T>, i: nat, j: nat)
    requires i < j < |r| && r[i] == r[j]
    ensures multiset(r)[r[i]] >= 2
  {
    assert r == r[..i] + [r[i]] + r[i + 1..j] + [r[j]] + r[j + 1..];
  }

  /** In a sequence of rows with pairwise different names a row occurs once. */
  lemma CountOnce(c: seq<SkillWithCount>, a: nat)
    requires a < |c|
    requires forall i, j :: 0 <= i < j < |c| ==> c[i].skill.name != c[j].skill.name
    ensures multiset(c)[c[a]] == 1
  {
    var front, back := c[..a], c[a + 1..];
    assert c == front + [c[a]] + back;
    assert c[a] !in front by {
      forall k | 0 <= k < |front| ensures front[k] != c[a] { assert front[k] == c[k]; }
    }
    assert c[a] !in back by {
      forall k | 0 <= k < |back| ensures back[k] != c[a] { assert back[k] == c[a + 1 + k]; }
    }
  }

  /** `ORDER BY project_count DESC, s.proficiency_level DESC` */
  predicate MoreUsed(a: SkillWithCount, b: SkillWithCount) {
    || a.projectCount > b.projectCount
    || (a.projectCount == b.projectCount && EnumIndex(a.skill.proficiency) > EnumIndex(b.skill.proficiency))
  }

  lemma MoreUsedIsStrictWeakOrder()
    ensures StrictWeakOrder(MoreUsed)
  {
  }

  /** `const { limit = 10 } = req.query` */
  const DefaultTopLimit: int := 10

  /** Every skill by usage, before the `LIMIT`. */
  function ByUsage(t: Tables): seq<SkillWithCount> {
    StableSort(Counted(t), MoreUsed)
  }

  /** `GET /api/skills/top`: the `limit` most used skills; a negative `LIMIT` is
      an SQL error. */
  function TopSkills(t: Tables, limit: Option<int>): (r: Result<seq<SkillWithCount>, Status>)
    ensures r.Failure? <==> limit.Some? && limit.value < 0
    ensures r.Failure? ==> r.error == ServerError
    ensures r.Success? ==> |r.value| <= (if limit.Some? then limit.value else DefaultTopLimit)
  {
    var n := if limit.Some? then limit.value else DefaultTopLimit;
    if n < 0 then Failure(ServerError) else Success(Take(ByUsage(t), n))
  }

  /** The top list is the head of the usage order: sorted by project count and
      then proficiency, and no skill left off it is used more than one shown. */
  lemma TopSkillsSpec(t: Tables, limit: Option<int>)
    requires TopSkills(t, limit).Success?
    ensures var r, all := TopSkills(t, limit).value, ByUsage(t);
      && |r| == (var n := if limit.Some? then limit.value else DefaultTopLimit; if |t.skills| <= n then |t.skills| else n)
      && (forall i, j :: 0 <= i < j < |r| ==> !MoreUsed(r[j], r[i]))
      && (forall i, j :: 0 <= i < |r| <= j < |all| ==> !MoreUsed(all[j], r[i]))
      && r <= all
      && (forall x :: x in r ==> x in Counted(t))
  {
    var all := ByUsage(t);
    MoreUsedIsStrictWeakOrder();
    StableSortSorted(Counted(t), MoreUsed);
    StableSortMembers(Counted(t), MoreUsed);
  }

  // ---------------------------------------------------------------------------
  // GET /api/skills/:id

  datatype SkillDetail = SkillDetail(skill: Skill, projects: seq<Project>)

  /** The projects linked to skill `id`, in table order. */
  function LinkedProjects(t: Tables, id: int): seq<Project> {
    Filter(t.projects, (p: Project) => Link(p.id, id) in t.projectSkills)
  }

  function GetSkill(t: Tables, id: int): (r: Result<SkillDetail, Status>)
    ensures r.Failure? <==> id !in SkillIds(t.skills)
    ensures r.Failure? ==> r.error == NotFound
    ensures r.Success? ==> r.value.skill in t.skills && r.value.skill.id == id
  {
    var k := FindSkill(t.skills, id);
    if k.None? then Failure(NotFound)
    else Success(SkillDetail(t.skills[k.value], StableSort(LinkedProjects(t, id), ProjectsNewestFirst)))
  }

  /** A found skill comes with exactly the projects that use it, newest first. */
  lemma GetSkillProjects(t: Tables, id: int)
    requires GetSkill(t, id).Success?
    ensures var ps := GetSkill(t, id).value.projects;
      && (forall p :: p in ps <==> p in t.projects && Link(p.id, id) in t.projectSkills)
      && (forall i, j :: 0 <= i < j < |ps| ==> ps[i].createdAt >= ps[j].createdAt)
  {
    var linked := LinkedProjects(t, id);
    ProjectsNewestFirstIsStrictWeakOrder();
    StableSortSorted(linked, ProjectsNewestFirst);
    StableSortMembers(linked, ProjectsNewestFirst);
  }

  // ---------------------------------------------------------------------------
  // POST, PUT, DELETE

  /** `proficiency_level || 'intermediate'` */
  function LevelOrDefault(level: Option<string>): string {
    if Truthy(level) then level.value else "intermediate"
  }

  /** The 201 body: the new id and the stored values. */
  datatype SkillCreated = SkillCreated(id: int, name: string, proficiencyLevel: string, category: Option<string>)

  /** Appending a skill under the next id with a name no skill has keeps the
      store consistent. */
  lemma AddSkillConsistent(t: Tables, np: int, ns: int, nj: int, s: Skill)
    requires Consistent(t, np, ns, nj)
    requires s.id == ns && !NameHeldByOther(t.skills, s.name, None)
    ensures Consistent(t.(skills := t.skills + [s]), np, ns + 1, nj)
    ensures SkillIds(t.skills + [s]) == SkillIds(t.skills) + {s.id}
  {
    var skills := t.skills + [s];
    forall i, j | 0 <= i < j < |skills| ensures skills[i].name != skills[j].name {
      if j == |t.skills| { assert skills[i] in t.skills; }
    }
  }

  /** A new skill is found under its id, with no projects yet. */
  lemma NewSkillFound(t: Tables, s: Skill)
    requires s.id !in SkillIds(t.skills)
    requires forall l :: l in t.projectSkills ==> l.skill in SkillIds(t.skills)
    ensures GetSkill(t.(skills := t.skills + [s]), s.id) == Success(SkillDetail(s, []))
  {
    var t' := t.(skills := t.skills + [s]);
    var k := FindSkill(t'.skills, s.id);
    assert t'.skills[|t.skills|].id == s.id;
    forall i | 0 <= i < |t.skills| ensures t'.skills[i].id != s.id {
      assert t.skills[i] in t.skills;
    }
    FilterNone(t'.projects, (p: Project) => Link(p.id, s.id) in t'.projectSkills);
  }

  /** The answer `POST /api/skills` gives: 400 without a name, 409 when the name
      is taken, 500 when the ENUM column refuses the level, 201 otherwise. */
  function CreateSkillStatus(skills: seq<Skill>, name: Option<string>, level: Option<string>): (r: Status)
    ensures r == BadRequest <==> !Truthy(name)
    ensures r == Conflict <==> Truthy(name) && NameHeldByOther(skills, name.value, None)
    ensures r == ServerError <==>
      Truthy(name) && !NameHeldByOther(skills, name.value, None) && ParseProficiency(LevelOrDefault(level)).None?
    ensures r == Created <==>
      Truthy(name) && !NameHeldByOther(skills, name.value, None) && ParseProficiency(LevelOrDefault(level)).Some?
  {
    if !Truthy(name) then BadRequest
    else if NameHeldByOther(skills, name.value, None) then Conflict
    else if ParseProficiency(LevelOrDefault(level)).None? then ServerError
    else Created
  }

  /** `POST /api/skills`. `now` is the `created_at` the database stamps. An
      unknown proficiency level is refused by the ENUM column (500). */
  method CreateSkill(db: Db, name: Option<string>, level: Option<string>, category: Option<string>, now: int)
    returns (status: Status, body: Option<SkillCreated>)
    requires db.Valid()
    modifies db
    ensures db.Valid()
    ensures status == CreateSkillStatus(old(db.skills), name, level)
    ensures status != Created ==> body.None? && db.Snapshot() == old(db.Snapshot()) && db.nextSkillId == old(db.nextSkillId)
    ensures status == Created ==>
      var s := Skill(old(db.nextSkillId), name.value, ParseProficiency(LevelOrDefault(level)), category, now);
      && db.Snapshot() == old(db.Snapshot()).(skills := old(db.skills) + [s])
      && db.nextSkillId == old(db.nextSkillId) + 1
      && body == Some(SkillCreated(s.id, name.value, LevelOrDefault(level), category))
    ensures db.nextProfileId == old(db.nextProfileId) && db.nextProjectId == old(db.nextProjectId)
  {
    if !Truthy(name) {
      return BadRequest, None;
    }
    if NameHeldByOther(db.skills, name.value, None) {
      return Conflict, None;
    }
    var proficiency := ParseProficiency(LevelOrDefault(level));
    if proficiency.None? {
      return ServerError, None;
    }
    ghost var t := db.Snapshot();
    var s := Skill(db.nextSkillId, name.value, proficiency, category, now);
    AddSkillConsistent(t, db.nextProfileId, db.nextSkillId, db.nextProjectId, s);
    db.skills := db.skills + [s];
    db.nextSkillId := db.nextSkillId + 1;
    assert db.Snapshot() == t.(skills := t.skills + [s]);
    assert db.Valid();
    status, body := Created, Some(SkillCreated(s.id, name.value, LevelOrDefault(level), category));
  }

  /** The ENUM value an update stores: NULL when absent, refused when unknown. */
  function UpdatedLevel(level: Option<string>): (r: Option<Option<Proficiency>>)
    ensures r.None? <==> level.Some? && ParseProficiency(level.value).None?
    ensures r.Some? && r.value.Some? ==> level == Some(ProficiencyName(r.value.value))
    ensures r == Some(None) <==> level.None?
  {
    if level.None? then Some(None)
    else
      var p := ParseProficiency(level.value);
      if p.None? then None else Some(p)
  }

  /** Overwriting one skill, keeping its id, with a name no other skill has
      keeps the store consistent. */
  lemma ReplaceSkillConsistent(t: Tables, np: int, ns: int, nj: int, k: nat, s: Skill)
    requires Consistent(t, np, ns, nj)
    requires k < |t.skills| && s.id == t.skills[k].id
    requires !NameHeldByOther(t.skills, s.name, Some(s.id))
    ensures Consistent(t.(skills := t.skills[k := s]), np, ns, nj)
  {
    var skills := t.skills[k := s];
    assert SkillIds(skills) == SkillIds(t.skills) by {
      assert forall i :: 0 <= i < |skills| ==> skills[i].id == t.skills[i].id;
      forall x | x in SkillIds(t.skills) ensures x in SkillIds(skills) {
        var i :| 0 <= i < |t.skills| && t.skills[i].id == x;
        assert skills[i].id == x;
      }
    }
    forall i, j | 0 <= i < j < |skills| ensures skills[i].name != skills[j].name {
      if i == k {
        assert t.skills[j] in t.skills;
      } else if j == k {
        assert t.skills[i] in t.skills;
      }
    }
  }

  /** The answer `PUT /api/skills/:id` gives: 400 without a name, 404 for an
      unknown id, 409 when another skill has the name, 500 when the ENUM column
      refuses the level, 200 otherwise. */
  function UpdateSkillStatus(skills: seq<Skill>, id: int, name: Option<string>, level: Option<string>): (r: Status)
    ensures r == BadRequest <==> !Truthy(name)
    ensures r == NotFound <==> Truthy(name) && id !in SkillIds(skills)
    ensures r == Conflict <==>
      Truthy(name) && id in SkillIds(skills) && NameHeldByOther(skills, name.value, Some(id))
    ensures r == ServerError <==>
      Truthy(name) && id in SkillIds(skills) && !NameHeldByOther(skills, name.value, Some(id))
      && UpdatedLevel(level).None?
    ensures r == Ok <==>
      Truthy(name) && id in SkillIds(skills) && !NameHeldByOther(skills, name.value, Some(id))
      && UpdatedLevel(level).Some?
  {
    if !Truthy(name) then BadRequest
    else if FindSkill(skills, id).None? then NotFound
    else if NameHeldByOther(skills, name.value, Some(id)) then Conflict
    else if UpdatedLevel(level).None? then ServerError
    else Ok
  }

  /** `PUT /api/skills/:id`: overwrite name, level and category of that one skill. */
  method UpdateSkill(db: Db, id: int, name: Option<string>, level: Option<string>, category: Option<string>)
    returns (status: Status)
    requires db.Valid()
    modifies db
    ensures db.Valid()
    ensures status == UpdateSkillStatus(old(db.skills), id, name, level)
    ensures status != Ok ==> db.Snapshot() == old(db.Snapshot())
    ensures status == Ok ==>
      var k := FindSkill(old(db.skills), id).value;
      var s := old(db.skills)[k].(name := name.value, proficiency := UpdatedLevel(level).value, category := category);
      db.Snapshot() == old(db.Snapshot()).(skills := old(db.skills)[k := s])
    ensures db.nextSkillId == old(db.nextSkillId) && db.nextProfileId == old(db.nextProfileId)
    ensures db.nextProjectId == old(db.nextProjectId)
  {
    if !Truthy(name) {
      return BadRequest;
    }
    var k := FindSkill(db.skills, id);
    if k.None? {
      return NotFound;
    }
    if NameHeldByOther(db.skills, name.value, Some(id)) {
      return Conflict;
    }
    var proficiency := UpdatedLevel(level);
    if proficiency.None? {
      return ServerError;
    }
    var s := db.skills[k.value].(name := name.value, proficiency := proficiency.value, category := category);
    ghost var t := db.Snapshot();
    ReplaceSkillConsistent(t, db.nextProfileId, db.nextSkillId, db.nextProjectId, k.value, s);
    db.skills := db.skills[k.value := s];
    assert db.Snapshot() == t.(skills := t.skills[k.value := s]);
    status := Ok;
  }

  /** After a 200, `GET /api/skills/:id` shows the updated row with the same
      projects as before. */
  lemma UpdatedSkillFound(t: Tables, id: int, name: Option<string>, level: Option<string>, category: Option<string>)
    requires UpdateSkillStatus(t.skills, id, name, level) == Ok
    ensures var k := FindSkill(t.skills, id).value;
      var s := t.skills[k].(name := name.value, proficiency := UpdatedLevel(level).value, category := category);
      GetSkill(t.(skills := t.skills[k := s]), id) == Success(SkillDetail(s, GetSkill(t, id).value.projects))
  {
    var k := FindSkill(t.skills, id).value;
    var s := t.skills[k].(name := name.value, proficiency := UpdatedLevel(level).value, category := category);
    FindSkillReplace(t.skills, id, s);
  }

  /** Keeping a skill's own name is never a conflict, because the conflict query
      skips the skill's own id and names are unique. */
  lemma OwnNameNoConflict(skills: seq<Skill>, k: nat)
    requires k < |skills|
    requires forall i, j :: 0 <= i < j < |skills| ==> skills[i].name != skills[j].name
    ensures !NameHeldByOther(skills, skills[k].name, Some(skills[k].id))
  {
    forall s | s in skills && s.name == skills[k].name ensures s.id == skills[k].id {
      var i :| 0 <= i < |skills| && skills[i] == s;
      assert skills[i].name == skills[k].name;
    }
  }

  /** Removing a skill together with every link to it keeps the store consistent. */
  lemma RemoveSkillConsistent(t: Tables, np: int, ns: int, nj: int, k: nat)
    requires Consistent(t, np, ns, nj)
    requires k < |t.skills|
    ensures var id := t.skills[k].id;
      && Consistent(t.(skills := RemoveAt(t.skills, k), projectSkills := LinksNotTo(t.projectSkills, id),
                       profileSkills := LinksNotTo(t.profileSkills, id)), np, ns, nj)
      && id !in SkillIds(RemoveAt(t.skills, k))
      && GetSkill(t.(skills := RemoveAt(t.skills, k), projectSkills := LinksNotTo(t.projectSkills, id),
                     profileSkills := LinksNotTo(t.profileSkills, id)), id) == Failure(NotFound)
  {
    RemoveSkillIds(t.skills, k);
    var skills := RemoveAt(t.skills, k);
    forall i, j | 0 <= i < j < |skills| ensures skills[i].id < skills[j].id && skills[i].name != skills[j].name {
      var i', j' := if i < k then i else i + 1, if j < k then j else j + 1;
      assert skills[i] == t.skills[i'] && skills[j] == t.skills[j'];
    }
  }

  /** `DELETE /api/skills/:id`: remove the skill; `ON DELETE CASCADE` removes
      every project and profile link to it. */
  method DeleteSkill(db: Db, id: int) returns (status: Status)
    requires db.Valid()
    modifies db
    ensures db.Valid()
    ensures status == NotFound <==> id !in SkillIds(old(db.skills))
    ensures status != NotFound ==> status == Ok
    ensures status == NotFound ==> db.Snapshot() == old(db.Snapshot())
    ensures status == Ok ==>
      var k := FindSkill(old(db.skills), id).value;
      && db.Snapshot() == old(db.Snapshot()).(skills := RemoveAt(old(db.skills), k),
                                              projectSkills := LinksNotTo(old(db.projectSkills), id),
                                              profileSkills := LinksNotTo(old(db.profileSkills), id))
      && GetSkill(db.Snapshot(), id) == Failure(NotFound)
    ensures db.nextSkillId == old(db.nextSkillId) && db.nextProfileId == old(db.nextProfileId)
    ensures db.nextProjectId == old(db.nextProjectId)
  {
    var k := FindSkill(db.skills, id);
    if k.None? {
      return NotFound;
    }
    ghost var t := db.Snapshot();
    RemoveSkillConsistent(t, db.nextProfileId, db.nextSkillId, db.nextProjectId, k.value);
    db.skills := RemoveAt(db.skills, k.value);
    db.projectSkills := LinksNotTo(db.projectSkills, id);
    db.profileSkills := LinksNotTo(db.profileSkills, id);
    assert db.Snapshot() == t.(skills := RemoveAt(t.skills, k.value), projectSkills := LinksNotTo(t.projectSkills, id),
                               profileSkills := LinksNotTo(t.profileSkills, id));
    status := Ok;
  }
}
