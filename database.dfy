/** The relational store under the routes: the six tables of config/database.js
    as fields of one object, with the constraints the schema declares (primary
    keys, the unique skill name, the foreign keys of the two link tables) and the
    one the routes keep (at most one profile) as its invariant. */
module Database {
  import opened Schema

  function SkillIds(skills: seq<Skill>): set<int> {
    set s | s in skills :: s.id
  }

  function ProjectIds(projects: seq<Project>): set<int> {
    set p | p in projects :: p.id
  }

  function ProfileIds(profiles: seq<Profile>): set<int> {
    set p | p in profiles :: p.id
  }

  /** Where the skill with primary key `id` sits in the table, if anywhere
      (`SELECT id FROM skills WHERE id = ?`). */
  function FindSkill(skills: seq<Skill>, id: int): (r: Option<nat>)
    ensures r.Some? ==> r.value < |skills| && skills[r.value].id == id
    ensures r.None? <==> id !in SkillIds(skills)
  {
    if skills == [] then None
    else if skills[0].id == id then Some(0)
    else
      var r := FindSkill(skills[1..], id);
      assert SkillIds(skills) == {skills[0].id} + SkillIds(skills[1..]) by {
        assert skills == [skills[0]] + skills[1..];
      }
      if r.None? then None else Some(r.value + 1)
  }

  /** Where the project with primary key `id` sits in the table, if anywhere. */
  function FindProject(projects: seq<Project>, id: int): (r: Option<nat>)
    ensures r.Some? ==> r.value < |projects| && projects[r.value].id == id
    ensures r.None? <==> id !in ProjectIds(projects)
  {
    if projects == [] then None
    else if projects[0].id == id then Some(0)
    else
      var r := FindProject(projects[1..], id);
      assert ProjectIds(projects) == {projects[0].id} + ProjectIds(projects[1..]) by {
        assert projects == [projects[0]] + projects[1..];
      }
      if r.None? then None else Some(r.value + 1)
  }

  /** Overwriting the row a lookup finds with a row of the same id leaves the
      lookup where it was. */
  lemma {:induction false} FindSkillReplace(skills: seq<Skill>, id: int, s: Skill)
    requires FindSkill(skills, id).Some? && s.id == id
    ensures FindSkill(skills[FindSkill(skills, id).value := s], id) == FindSkill(skills, id)
  {
    var k := FindSkill(skills, id).value;
    if k != 0 {
      assert skills[k := s][1..] == skills[1..][k - 1 := s];
      FindSkillReplace(skills[1..], id, s);
    }
  }

  lemma {:induction false} FindProjectReplace(projects: seq<Project>, id: int, p: Project)
    requires FindProject(projects, id).Some? && p.id == id
    ensures FindProject(projects[FindProject(projects, id).value := p], id) == FindProject(projects, id)
  {
    var k := FindProject(projects, id).value;
    if k != 0 {
      assert projects[k := p][1..] == projects[1..][k - 1 := p];
      FindProjectReplace(projects[1..], id, p);
    }
  }

  /** Some skill other than `id` is called `name` (`SELECT id FROM skills WHERE name = ? AND id != ?`). */
  predicate NameHeldByOther(skills: seq<Skill>, name: string, id: Option<int>) {
    exists s :: s in skills && s.name == name && (id.None? || s.id != id.value)
  }

  function RemoveAt<T>(s: seq<T>, k: nat): (r: seq<T>)
    requires k < |s|
    ensures |r| == |s| - 1
    ensures forall i :: 0 <= i < k ==> r[i] == s[i]
    ensures forall i :: k <= i < |r| ==> r[i] == s[i + 1]
  {
    s[..k] + s[k + 1..]
  }

  /** `s` is its part before `k`, its element at `k` and its part after `k`. */
  lemma SplitAt<T>(s: seq<T>, k: nat)
    requires k < |s|
    ensures s == s[..k] + [s[k]] + s[k + 1..]
    ensures RemoveAt(s, k) == s[..k] + s[k + 1..]
  {
  }

  /** Removing a row whose key no other row shares removes exactly that key. */
  lemma RemoveSkillIds(skills: seq<Skill>, k: nat)
    requires k < |skills|
    requires forall i :: 0 <= i < |skills| && i != k ==> skills[i].id != skills[k].id
    ensures SkillIds(RemoveAt(skills, k)) == SkillIds(skills) - {skills[k].id}
  {
    var front, back := skills[..k], skills[k + 1..];
    var key := skills[k].id;
    SplitAt(skills, k);
    SkillIdsAppend(front + [skills[k]], back);
    SkillIdsAppend(front, [skills[k]]);
    SkillIdsAppend(front, back);
    forall row | row in front ensures row.id != key {
      var i :| 0 <= i < |front| && front[i] == row;
      assert skills[i] == row;
    }
    forall row | row in back ensures row.id != key {
      var i :| 0 <= i < |back| && back[i] == row;
      assert skills[k + 1 + i] == row;
    }
    assert SkillIds([skills[k]]) == {key};
    assert key !in SkillIds(front) && key !in SkillIds(back);
  }

  lemma SkillIdsAppend(a: seq<Skill>, b: seq<Skill>)
    ensures SkillIds(a + b) == SkillIds(a) + SkillIds(b)
  {
  }

  lemma RemoveProjectIds(projects: seq<Project>, k: nat)
    requires k < |projects|
    requires forall i :: 0 <= i < |projects| && i != k ==> projects[i].id != projects[k].id
    ensures ProjectIds(RemoveAt(projects, k)) == ProjectIds(projects) - {projects[k].id}
  {
    var front, back := projects[..k], projects[k + 1..];
    var key := projects[k].id;
    SplitAt(projects, k);
    ProjectIdsAppend(front + [projects[k]], back);
    ProjectIdsAppend(front, [projects[k]]);
    ProjectIdsAppend(front, back);
    forall row | row in front ensures row.id != key {
      var i :| 0 <= i < |front| && front[i] == row;
      assert projects[i] == row;
    }
    forall row | row in back ensures row.id != key {
      var i :| 0 <= i < |back| && back[i] == row;
      assert projects[k + 1 + i] == row;
    }
    assert ProjectIds([projects[k]]) == {key};
    assert key !in ProjectIds(front) && key !in ProjectIds(back);
  }

  lemma ProjectIdsAppend(a: seq<Project>, b: seq<Project>)
    ensures ProjectIds(a + b) == ProjectIds(a) + ProjectIds(b)
  {
  }

  /** The link rows whose owner is not `owner` (`DELETE ... WHERE project_id = ?`). */
  function LinksNotOwnedBy(links: set<Link>, owner: int): set<Link> {
    set l | l in links && l.owner != owner
  }

  /** The link rows that do not point at skill `id` (the `ON DELETE CASCADE` of `skill_id`). */
  function LinksNotTo(links: set<Link>, id: int): set<Link> {
    set l | l in links && l.skill != id
  }

  /** One link from `owner` to each of `ids`. */
  function LinksFor(owner: int, ids: seq<int>): set<Link> {
    set i | 0 <= i < |ids| :: Link(owner, ids[i])
  }

  // ---------------------------------------------------------------------------
  // Inserting link rows one at a time

  datatype InsertOutcome = InsertOutcome(links: set<Link>, failed: bool)

  /** `INSERT INTO ..._skills (owner, skill_id) VALUES (?, ?)` for each id in
      turn, stopping at the first row that repeats an existing key (composite
      primary key) or names no skill (foreign key); the rows inserted before it
      stay. */
  function InsertLinks(links: set<Link>, owner: int, ids: seq<int>, skillIds: set<int>): (r: InsertOutcome)
    decreases |ids|
  {
    if ids == [] then InsertOutcome(links, false)
    else if Link(owner, ids[0]) in links || ids[0] !in skillIds then InsertOutcome(links, true)
    else InsertLinks(links + {Link(owner, ids[0])}, owner, ids[1..], skillIds)
  }

  /** The inserts from position `i` on: the one for `ids[i]`, then the rest. */
  lemma InsertLinksFrom(links: set<Link>, owner: int, ids: seq<int>, i: nat, skillIds: set<int>)
    requires i < |ids|
    ensures InsertLinks(links, owner, ids[i..], skillIds)
         == if Link(owner, ids[i]) in links || ids[i] !in skillIds then InsertOutcome(links, true)
            else InsertLinks(links + {Link(owner, ids[i])}, owner, ids[i + 1..], skillIds)
  {
    assert ids[i..][0] == ids[i] && ids[i..][1..] == ids[i + 1..];
  }

  /** Every id can be inserted: it names a skill, is not linked yet, and is not repeated. */
  ghost predicate Insertable(links: set<Link>, owner: int, ids: seq<int>, skillIds: set<int>) {
    && (forall i :: 0 <= i < |ids| ==> ids[i] in skillIds && Link(owner, ids[i]) !in links)
    && (forall i, j :: 0 <= i < j < |ids| ==> ids[i] != ids[j])
  }

  /** The inserts succeed exactly when every id is insertable, and then the new
      rows are exactly one per id. When they fail, the rows for a prefix of the
      ids were added and the next id is the one that broke a key. */
  lemma {:induction false} InsertLinksOutcome(links: set<Link>, owner: int, ids: seq<int>, skillIds: set<int>)
    ensures var r := InsertLinks(links, owner, ids, skillIds);
      && (!r.failed <==> Insertable(links, owner, ids, skillIds))
      && (!r.failed ==> r.links == links + LinksFor(owner, ids))
      && (r.failed ==> exists k :: 0 <= k < |ids| && r.links == links + LinksFor(owner, ids[..k])
                         && (Link(owner, ids[k]) in r.links || ids[k] !in skillIds))
    decreases |ids|
  {
    var r := InsertLinks(links, owner, ids, skillIds);
    if ids == [] {
      assert LinksFor(owner, ids) == {};
    } else if Link(owner, ids[0]) in links || ids[0] !in skillIds {
      assert LinksFor(owner, ids[..0]) == {};
    } else {
      var links' := links + {Link(owner, ids[0])};
      var rest := ids[1..];
      InsertLinksOutcome(links', owner, rest, skillIds);
      forall k | 0 <= k <= |rest| ensures LinksFor(owner, ids[..k + 1]) == {Link(owner, ids[0])} + LinksFor(owner, rest[..k]) {
        LinksForCons(owner, ids, k);
      }
      assert rest[..|rest|] == rest && ids[..|ids|] == ids;
      if r.failed {
        var k :| 0 <= k < |rest| && r.links == links' + LinksFor(owner, rest[..k])
                 && (Link(owner, rest[k]) in r.links || rest[k] !in skillIds);
        assert r.links == links + LinksFor(owner, ids[..k + 1]);
        assert ids[k + 1] == rest[k];
      }
      InsertableStep(links, owner, ids, skillIds);
    }
  }

  lemma LinksForCons(owner: int, ids: seq<int>, k: nat)
    requires k < |ids|
    ensures LinksFor(owner, ids[..k + 1]) == {Link(owner, ids[0])} + LinksFor(owner, ids[1..][..k])
  {
    var a, b := ids[..k + 1], ids[1..][..k];
    forall l | l in LinksFor(owner, a) ensures l in {Link(owner, ids[0])} + LinksFor(owner, b) {
      var i :| 0 <= i < |a| && l == Link(owner, a[i]);
      if i > 0 { assert a[i] == b[i - 1]; }
    }
    forall l | l in LinksFor(owner, b) ensures l in LinksFor(owner, a) {
      var i :| 0 <= i < |b| && l == Link(owner, b[i]);
      assert b[i] == a[i + 1];
    }
    assert Link(owner, ids[0]) == Link(owner, a[0]);
  }

  lemma InsertableStep(links: set<Link>, owner: int, ids: seq<int>, skillIds: set<int>)
    requires ids != [] && Link(owner, ids[0]) !in links && ids[0] in skillIds
    ensures Insertable(links, owner, ids, skillIds)
        <==> Insertable(links + {Link(owner, ids[0])}, owner, ids[1..], skillIds)
  {
    if Insertable(links + {Link(owner, ids[0])}, owner, ids[1..], skillIds) {
      forall i, j | 0 <= i < j < |ids| ensures ids[i] != ids[j] {
        if i == 0 {
          assert ids[j] == ids[1..][j - 1];
        } else {
          assert ids[i] == ids[1..][i - 1] && ids[j] == ids[1..][j - 1];
        }
      }
      forall i | 0 <= i < |ids| ensures ids[i] in skillIds && Link(owner, ids[i]) !in links {
        if i > 0 { assert ids[i] == ids[1..][i - 1]; }
      }
    }
  }

  /** Inserting never adds a row outside the given owner and skills, so the
      foreign keys keep holding. */
  lemma {:induction false} InsertLinksWithinKeys(links: set<Link>, owner: int, ids: seq<int>, skillIds: set<int>)
    ensures var r := InsertLinks(links, owner, ids, skillIds);
      forall l :: l in r.links ==> l in links || (l.owner == owner && l.skill in skillIds)
    decreases |ids|
  {
    if ids != [] && Link(owner, ids[0]) !in links && ids[0] in skillIds {
      InsertLinksWithinKeys(links + {Link(owner, ids[0])}, owner, ids[1..], skillIds);
    }
  }

  /** Inserting the links of an owner that has none yet: it succeeds exactly
      when every id names a skill and no id repeats, and then the owner is
      linked to exactly those ids and every other row stays. */
  lemma InsertFreshOwner(links: set<Link>, owner: int, ids: seq<int>, skillIds: set<int>)
    requires forall l :: l in links ==> l.owner != owner
    ensures var out := InsertLinks(links, owner, ids, skillIds);
      && (!out.failed <==> (forall i :: 0 <= i < |ids| ==> ids[i] in skillIds)
                           && (forall i, j :: 0 <= i < j < |ids| ==> ids[i] != ids[j]))
      && (!out.failed ==> forall l :: l in out.links <==> l in links || (l.owner == owner && l.skill in ids))
  {
    InsertLinksOutcome(links, owner, ids, skillIds);
    var out := InsertLinks(links, owner, ids, skillIds);
    if !out.failed {
      forall l: Link | l.owner == owner && l.skill in ids ensures l in out.links {
        var i :| 0 <= i < |ids| && ids[i] == l.skill;
        assert l == Link(owner, ids[i]);
      }
    }
  }

  // ---------------------------------------------------------------------------
  // The store

  /** The declared constraints, and the one the routes keep, given the next
      AUTO_INCREMENT value of each table the routes insert into. */
  ghost predicate Consistent(t: Tables, nextProfileId: int, nextSkillId: int, nextProjectId: int) {
    // primary keys: ascending in table order and below the next AUTO_INCREMENT value
    && (forall i, j :: 0 <= i < j < |t.skills| ==> t.skills[i].id < t.skills[j].id)
    && (forall i :: 0 <= i < |t.skills| ==> t.skills[i].id < nextSkillId)
    && (forall i, j :: 0 <= i < j < |t.projects| ==> t.projects[i].id < t.projects[j].id)
    && (forall i :: 0 <= i < |t.projects| ==> t.projects[i].id < nextProjectId)
    && (forall i :: 0 <= i < |t.profiles| ==> t.profiles[i].id < nextProfileId)
    // at most one profile (kept by POST /api/profile)
    && |t.profiles| <= 1
    // skills.name is UNIQUE
    && (forall i, j :: 0 <= i < j < |t.skills| ==> t.skills[i].name != t.skills[j].name)
    // foreign keys of the link tables
    && (forall l :: l in t.projectSkills ==> l.owner in ProjectIds(t.projects) && l.skill in SkillIds(t.skills))
    && (forall l :: l in t.profileSkills ==> l.owner in ProfileIds(t.profiles) && l.skill in SkillIds(t.skills))
  }

  class Db {
    var profiles: seq<Profile>
    var skills: seq<Skill>
    var projects: seq<Project>
    var work: seq<Work>
    var projectSkills: set<Link>
    var profileSkills: set<Link>
    /** The next AUTO_INCREMENT value of each table the routes insert into. */
    var nextProfileId: int
    var nextSkillId: int
    var nextProjectId: int

    ghost predicate Valid()
      reads this
    {
      Consistent(Snapshot(), nextProfileId, nextSkillId, nextProjectId)
    }

    /** An empty database, every AUTO_INCREMENT counter at 1. */
    constructor ()
      ensures Valid()
      ensures profiles == [] && skills == [] && projects == [] && work == []
      ensures projectSkills == {} && profileSkills == {}
      ensures nextProfileId == 1 && nextSkillId == 1 && nextProjectId == 1
    {
      profiles, skills, projects, work := [], [], [], [];
      projectSkills, profileSkills := {}, {};
      nextProfileId, nextSkillId, nextProjectId := 1, 1, 1;
    }

    function Snapshot(): Tables
      reads this
    {
      Tables(profiles, skills, projects, work, projectSkills, profileSkills)
    }
  }
}
