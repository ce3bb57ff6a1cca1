/** The project routes (Predesk/routes/projects.js): the list with its optional
    skill filter and comma-split skill names, one project with its skills, and
    create, update and delete with the project's skill links. */
module ProjectRoutes {
  import opened Text
  import opened Sorting
  import opened Schema
  import opened Database

  // ---------------------------------------------------------------------------
  // GET /api/projects

  /** A project's columns spread into the answer, with `skills` as a list of names. */
  datatype ProjectListing = ProjectListing(project: Project, skills: seq<string>)

  /** The skills the joins put on project `id`'s group, in table order: every
      linked skill, or only those whose name contains the filter when one is
      given (`WHERE s.name LIKE '%skill%'` runs before `GROUP BY`). */
  function ListedSkills(t: Tables, id: int, skill: Option<string>): seq<Skill> {
    Filter(t.skills, (s: Skill) => Link(id, s.id) in t.projectSkills && (!Truthy(skill) || Contains(s.name, skill.value)))
  }

  function SkillNames(skills: seq<Skill>): (r: seq<string>)
    ensures |r| == |skills| && forall i :: 0 <= i < |r| ==> r[i] == skills[i].name
  {
    MapSeq(skills, (s: Skill) => s.name)
  }

  /** `GROUP_CONCAT(s.name)`: NULL for a group with no name. */
  function GroupConcat(names: seq<string>): (r: Option<string>)
    ensures r.None? <==> names == []
  {
    if names == [] then None else Some(Join(names, ','))
  }

  /** `project.skills ? project.skills.split(',') : []` */
  function SkillList(concat: Option<string>): seq<string> {
    if Truthy(concat) then Split(concat.value, ',') else []
  }

  /** A project is in the list when no filter is given, or when the filter
      keeps at least one of its rows. */
  predicate ProjectListed(t: Tables, p: Project, skill: Option<string>) {
    !Truthy(skill) || ListedSkills(t, p.id, skill) != []
  }

  function Listing(t: Tables, skill: Option<string>, p: Project): ProjectListing {
    ProjectListing(p, SkillList(GroupConcat(SkillNames(ListedSkills(t, p.id, skill)))))
  }

  function SelectedProjects(t: Tables, skill: Option<string>): seq<Project> {
    Filter(t.projects, (p: Project) => ProjectListed(t, p, skill))
  }

  /** The listed projects, `ORDER BY p.created_at DESC`. */
  function OrderedProjects(t: Tables, skill: Option<string>): seq<Project> {
    StableSort(SelectedProjects(t, skill), ProjectsNewestFirst)
  }

  /** `GET /api/projects`: the listed projects in order, each with its skills. */
  function ListProjects(t: Tables, skill: Option<string>): (r: seq<ProjectListing>)
    ensures |r| == |OrderedProjects(t, skill)|
    ensures forall i :: 0 <= i < |r| ==>
      r[i].project == OrderedProjects(t, skill)[i] && r[i] == Listing(t, skill, r[i].project)
  {
    MapSeq(OrderedProjects(t, skill), (p: Project) => Listing(t, skill, p))
  }

  /** With a filter, a project is listed exactly when one of its skills has a
      name containing the filter. */
  lemma ProjectListedIff(t: Tables, p: Project, skill: Option<string>)
    requires Truthy(skill)
    ensures ProjectListed(t, p, skill) <==>
      exists s :: s in t.skills && Link(p.id, s.id) in t.projectSkills && Contains(s.name, skill.value)
  {
    var listed := ListedSkills(t, p.id, skill);
    if exists s :: s in t.skills && Link(p.id, s.id) in t.projectSkills && Contains(s.name, skill.value) {
      var s :| s in t.skills && Link(p.id, s.id) in t.projectSkills && Contains(s.name, skill.value);
      assert s in listed;
    }
    if listed != [] {
      assert listed[0] in listed;
    }
  }

  /** The list shows exactly the selected projects, each once, newest first. */
  lemma ListProjectsSpec(t: Tables, skill: Option<string>)
    ensures var ps := OrderedProjects(t, skill);
      && multiset(ps) == multiset(SelectedProjects(t, skill))
      && (forall p :: p in ps <==> p in t.projects && ProjectListed(t, p, skill))
      && (forall i, j :: 0 <= i < j < |ps| ==> ps[i].createdAt >= ps[j].createdAt)
  {
    var selected := SelectedProjects(t, skill);
    ProjectsNewestFirstIsStrictWeakOrder();
    StableSortSorted(selected, ProjectsNewestFirst);
    StableSortMembers(selected, ProjectsNewestFirst);
  }

  /** When the names of the listed skills are non-empty and hold no comma, the
      comma join and split give them back, in table order; a project with no
      listed skill shows `[]`. A name holding a comma would come back as
      several names (`Text.CommaInNameSplits`). */
  lemma ListingSkills(t: Tables, skill: Option<string>, p: Project)
    requires forall s :: s in t.skills ==> s.name != "" && ',' !in s.name
    ensures Listing(t, skill, p).skills == SkillNames(ListedSkills(t, p.id, skill))
  {
    var listed := ListedSkills(t, p.id, skill);
    var names := SkillNames(listed);
    if names != [] {
      forall i | 0 <= i < |names| ensures ',' !in names[i] {
        assert listed[i] in listed;
      }
      assert listed[0] in listed;
      assert Join(names, ',') != "" by {
        if |names| > 1 {
          assert |Join(names, ',')| >= |names[0]|;
        }
      }
      SplitJoin(names, ',');
    }
  }

  // ---------------------------------------------------------------------------
  // GET /api/projects/:id

  datatype ProjectDetail = ProjectDetail(project: Project, skills: seq<Skill>)

  /** `SELECT * FROM projects WHERE id = ?`, then its skills `ORDER BY s.name ASC`. */
  function GetProject(t: Tables, id: int): (r: Result<ProjectDetail, Status>)
    ensures r.Failure? <==> id !in ProjectIds(t.projects)
    ensures r.Failure? ==> r.error == NotFound
    ensures r.Success? ==> r.value.project in t.projects && r.value.project.id == id
  {
    var k := FindProject(t.projects, id);
    if k.None? then Failure(NotFound)
    else Success(ProjectDetail(t.projects[k.value], StableSort(ListedSkills(t, id, None), ByName)))
  }

  /** A found project comes with exactly the skills linked to it, by name. */
  lemma GetProjectSpec(t: Tables, id: int)
    requires GetProject(t, id).Success?
    ensures var ss := GetProject(t, id).value.skills;
      && (forall s :: s in ss <==> s in t.skills && Link(id, s.id) in t.projectSkills)
      && (forall i, j :: 0 <= i < j < |ss| ==> !StringLess(ss[j].name, ss[i].name))
  {
    var linked := ListedSkills(t, id, None);
    ByNameIsStrictWeakOrder();
    StableSortSorted(linked, ByName);
    StableSortMembers(linked, ByName);
  }

  // ---------------------------------------------------------------------------
  // POST, PUT, DELETE

  /** The fields of the request body; an absent field is NULL, and `skillIds`
      is `None` when `skill_ids` is not an array. */
  datatype ProjectRequest = ProjectRequest(
    title: Option<string>, description: Option<string>, githubLink: Option<string>,
    liveLink: Option<string>, imageUrl: Option<string>, skillIds: Option<seq<int>>)

  /** `!title || !description` */
  predicate MissingRequired(req: ProjectRequest) {
    !Truthy(req.title) || !Truthy(req.description)
  }

  /** The 201 body: the new id and the request's fields. */
  datatype ProjectCreated = ProjectCreated(
    id: int, title: string, description: string,
    githubLink: Option<string>, liveLink: Option<string>, imageUrl: Option<string>)

  /** The row `INSERT INTO projects` stores. */
  function NewProject(id: int, req: ProjectRequest, now: int): (p: Project)
    requires !MissingRequired(req)
    ensures p.id == id && p.createdAt == now
    ensures Some(p.title) == req.title && p.description == req.description
    ensures p.githubLink == req.githubLink && p.liveLink == req.liveLink && p.imageUrl == req.imageUrl
  {
    Project(id, req.title.value, req.description, req.githubLink, req.liveLink, req.imageUrl, now)
  }

  /** The links of a new project: one insert per id when `skill_ids` is a
      non-empty array, none otherwise. */
  function CreateLinks(links: set<Link>, owner: int, skillIds: Option<seq<int>>, known: set<int>): InsertOutcome {
    if skillIds.Some? && |skillIds.value| > 0 then InsertLinks(links, owner, skillIds.value, known)
    else InsertOutcome(links, false)
  }

  /** Appending a project under the next id keeps the store consistent, and no
      link names it yet. */
  lemma AddProjectConsistent(t: Tables, np: int, ns: int, nj: int, p: Project)
    requires Consistent(t, np, ns, nj)
    requires p.id == nj
    ensures Consistent(t.(projects := t.projects + [p]), np, ns, nj + 1)
    ensures ProjectIds(t.projects + [p]) == ProjectIds(t.projects) + {p.id}
    ensures forall l :: l in t.projectSkills ==> l.owner != p.id
  {
    var projects := t.projects + [p];
    forall l | l in t.projectSkills ensures l.owner in ProjectIds(projects) && l.owner != p.id {
      var q :| q in t.projects && q.id == l.owner;
      assert q in projects;
      var i :| 0 <= i < |t.projects| && t.projects[i] == q;
    }
  }

  /** Inserting a link from an existing project to an existing skill keeps the
      store consistent. */
  lemma AddProjectLinkConsistent(t: Tables, np: int, ns: int, nj: int, l: Link)
    requires Consistent(t, np, ns, nj)
    requires l.owner in ProjectIds(t.projects) && l.skill in SkillIds(t.skills)
    ensures Consistent(t.(projectSkills := t.projectSkills + {l}), np, ns, nj)
  {
  }

  /** The insert loop of `POST` and `PUT /api/projects`: one `INSERT INTO
      project_skills` per id in turn, stopping at the first that throws. */
  method InsertProjectLinks(db: Db, owner: int, ids: seq<int>) returns (failed: bool)
    requires db.Valid() && owner in ProjectIds(db.projects)
    modifies db
    ensures db.Valid()
    ensures var out := InsertLinks(old(db.projectSkills), owner, ids, SkillIds(old(db.skills)));
      && db.Snapshot() == old(db.Snapshot()).(projectSkills := out.links)
      && failed == out.failed
    ensures db.nextProfileId == old(db.nextProfileId) && db.nextSkillId == old(db.nextSkillId)
    ensures db.nextProjectId == old(db.nextProjectId)
  {
    ghost var t := db.Snapshot();
    ghost var goal := InsertLinks(t.projectSkills, owner, ids, SkillIds(t.skills));
    assert ids[0..] == ids;
    var i := 0;
    while i < |ids|
      invariant 0 <= i <= |ids|
      invariant db.Snapshot() == t.(projectSkills := db.projectSkills)
      invariant db.nextProfileId == old(db.nextProfileId) && db.nextSkillId == old(db.nextSkillId)
      invariant db.nextProjectId == old(db.nextProjectId)
      invariant db.Valid()
      invariant InsertLinks(db.projectSkills, owner, ids[i..], SkillIds(t.skills)) == goal
    {
      var l := Link(owner, ids[i]);
      InsertLinksFrom(db.projectSkills, owner, ids, i, SkillIds(t.skills));
      if l in db.projectSkills || FindSkill(db.skills, ids[i]).None? {
        return true;
      }
      AddProjectLinkConsistent(db.Snapshot(), db.nextProfileId, db.nextSkillId, db.nextProjectId, l);
      db.projectSkills := db.projectSkills + {l};
      i := i + 1;
    }
    failed := false;
  }

  /** `INSERT INTO projects`: the row goes last, under the next id. */
  method AppendProject(db: Db, p: Project)
    requires db.Valid() && p.id == db.nextProjectId
    modifies db
    ensures db.Valid() && p.id in ProjectIds(db.projects)
    ensures db.Snapshot() == old(db.Snapshot()).(projects := old(db.projects) + [p])
    ensures db.nextProjectId == old(db.nextProjectId) + 1
    ensures db.nextProfileId == old(db.nextProfileId) && db.nextSkillId == old(db.nextSkillId)
  {
    ghost var t := db.Snapshot();
    AddProjectConsistent(t, db.nextProfileId, db.nextSkillId, db.nextProjectId, p);
    db.projects := db.projects + [p];
    db.nextProjectId := db.nextProjectId + 1;
    assert db.Snapshot() == t.(projects := t.projects + [p]);
  }

  /** `POST /api/projects`. `now` is the `created_at` the database stamps. The
      project row stays when a link insert throws (500), since no transaction
      wraps the inserts. */
  method CreateProject(db: Db, req: ProjectRequest, now: int) returns (status: Status, body: Option<ProjectCreated>)
    requires db.Valid()
    modifies db
    ensures db.Valid()
    ensures MissingRequired(req) ==>
      status == BadRequest && body.None? && db.Snapshot() == old(db.Snapshot()) && db.nextProjectId == old(db.nextProjectId)
    ensures !MissingRequired(req) ==>
      var p := NewProject(old(db.nextProjectId), req, now);
      var out := CreateLinks(old(db.projectSkills), p.id, req.skillIds, SkillIds(old(db.skills)));
      && db.Snapshot() == old(db.Snapshot()).(projects := old(db.projects) + [p], projectSkills := out.links)
      && db.nextProjectId == old(db.nextProjectId) + 1
      && status == (if out.failed then ServerError else Created)
      && body == (if out.failed then None
                  else Some(ProjectCreated(p.id, req.title.value, req.description.value, req.githubLink, req.liveLink, req.imageUrl)))
    ensures db.nextProfileId == old(db.nextProfileId) && db.nextSkillId == old(db.nextSkillId)
  {
    if MissingRequired(req) {
      return BadRequest, None;
    }
    var p := NewProject(db.nextProjectId, req, now);
    AppendProject(db, p);
    var failed := false;
    if req.skillIds.Some? && |req.skillIds.value| > 0 {
      failed := InsertProjectLinks(db, p.id, req.skillIds.value);
    }
    if failed {
      return ServerError, None;
    }
    status := Created;
    body := Some(ProjectCreated(p.id, req.title.value, req.description.value, req.githubLink, req.liveLink, req.imageUrl));
  }

  /** A new project is found under its id. Its links are inserted exactly when
      every id names a skill and none repeats, and then it is linked to exactly
      those skills. */
  lemma CreateProjectSpec(t: Tables, np: int, ns: int, nj: int, req: ProjectRequest, now: int)
    requires Consistent(t, np, ns, nj)
    requires !MissingRequired(req)
    ensures var p := NewProject(nj, req, now);
      var out := CreateLinks(t.projectSkills, p.id, req.skillIds, SkillIds(t.skills));
      var t' := t.(projects := t.projects + [p], projectSkills := out.links);
      && GetProject(t', p.id).Success? && GetProject(t', p.id).value.project == p
      && (!out.failed <==> (req.skillIds.None? ||
            ((forall i :: 0 <= i < |req.skillIds.value| ==> req.skillIds.value[i] in SkillIds(t.skills))
             && (forall i, j :: 0 <= i < j < |req.skillIds.value| ==> req.skillIds.value[i] != req.skillIds.value[j]))))
      && (!out.failed ==> forall l :: l in out.links <==>
            l in t.projectSkills || (l.owner == p.id && req.skillIds.Some? && l.skill in req.skillIds.value))
  {
    var p := NewProject(nj, req, now);
    AddProjectConsistent(t, np, ns, nj, p);
    var t1 := t.(projects := t.projects + [p]);
    var k := FindProject(t1.projects, p.id);
    assert t1.projects[|t.projects|] == p;
    assert k.Some?;
    forall i | 0 <= i < |t.projects| ensures t1.projects[i].id != p.id {
      assert t.projects[i].id < nj;
    }
    if req.skillIds.Some? {
      InsertFreshOwner(t.projectSkills, p.id, req.skillIds.value, SkillIds(t.skills));
    }
  }

  /** The answer `PUT /api/projects/:id` gives before any row changes: 400
      without a title or a description, 404 for an unknown id; `None` when the
      handler goes on to write. */
  function UpdateProjectRefusal(projects: seq<Project>, id: int, req: ProjectRequest): (r: Option<Status>)
    ensures r == Some(BadRequest) <==> MissingRequired(req)
    ensures r == Some(NotFound) <==> !MissingRequired(req) && id !in ProjectIds(projects)
    ensures r.None? <==> !MissingRequired(req) && id in ProjectIds(projects)
  {
    if MissingRequired(req) then Some(BadRequest)
    else if FindProject(projects, id).None? then Some(NotFound)
    else None
  }

  /** `UPDATE projects SET title = ?, ... WHERE id = ?`: the five request fields
      replace the stored ones; id and creation time stay. */
  function UpdatedProject(p: Project, req: ProjectRequest): (r: Project)
    requires !MissingRequired(req)
    ensures NewProject(p.id, req, p.createdAt) == r
  {
    p.(title := req.title.value, description := req.description, githubLink := req.githubLink,
       liveLink := req.liveLink, imageUrl := req.imageUrl)
  }

  /** The links after an update: untouched when `skill_ids` is not an array,
      otherwise the project's links deleted and one insert per id. */
  function ReplaceLinks(links: set<Link>, owner: int, skillIds: Option<seq<int>>, known: set<int>): InsertOutcome {
    if skillIds.None? then InsertOutcome(links, false)
    else InsertLinks(LinksNotOwnedBy(links, owner), owner, skillIds.value, known)
  }

  /** Overwriting a project's fields keeps its id, so the store stays consistent. */
  lemma ReplaceProjectConsistent(t: Tables, np: int, ns: int, nj: int, k: nat, p: Project)
    requires Consistent(t, np, ns, nj)
    requires k < |t.projects| && p.id == t.projects[k].id
    ensures Consistent(t.(projects := t.projects[k := p]), np, ns, nj)
    ensures ProjectIds(t.projects[k := p]) == ProjectIds(t.projects)
  {
    var projects := t.projects[k := p];
    assert forall i :: 0 <= i < |projects| ==> projects[i].id == t.projects[i].id;
    forall x | x in ProjectIds(t.projects) ensures x in ProjectIds(projects) {
      var i :| 0 <= i < |t.projects| && t.projects[i].id == x;
      assert projects[i].id == x;
    }
  }

  /** `PUT /api/projects/:id`. The update of the row stays when a link insert
      throws (500), since no transaction wraps the statements. */
  method UpdateProject(db: Db, id: int, req: ProjectRequest) returns (status: Status)
    requires db.Valid()
    modifies db
    ensures db.Valid()
    ensures var refusal := UpdateProjectRefusal(old(db.projects), id, req);
      && (refusal.Some? ==> status == refusal.value && db.Snapshot() == old(db.Snapshot()))
      && (refusal.None? ==>
            var k := FindProject(old(db.projects), id).value;
            var out := ReplaceLinks(old(db.projectSkills), id, req.skillIds, SkillIds(old(db.skills)));
            && db.Snapshot() == old(db.Snapshot()).(projects := old(db.projects)[k := UpdatedProject(old(db.projects)[k], req)],
                                                    projectSkills := out.links)
            && status == (if out.failed then ServerError else Ok))
    ensures db.nextProfileId == old(db.nextProfileId) && db.nextSkillId == old(db.nextSkillId)
    ensures db.nextProjectId == old(db.nextProjectId)
  {
    if MissingRequired(req) {
      return BadRequest;
    }
    var k := FindProject(db.projects, id);
    if k.None? {
      return NotFound;
    }
    ghost var t := db.Snapshot();
    var p := UpdatedProject(db.projects[k.value], req);
    ReplaceProjectConsistent(t, db.nextProfileId, db.nextSkillId, db.nextProjectId, k.value, p);
    db.projects := db.projects[k.value := p];
    assert db.Snapshot() == t.(projects := t.projects[k.value := p]);
    var failed := false;
    if req.skillIds.Some? {
      db.projectSkills := LinksNotOwnedBy(db.projectSkills, id);
      failed := InsertProjectLinks(db, id, req.skillIds.value);
    }
    status := if failed then ServerError else Ok;
  }

  /** When `skill_ids` is an array the project ends linked to exactly its ids
      (none for an empty array) and every other project keeps its links; the
      inserts succeed exactly when every id names a skill and none repeats.
      Otherwise the links stay as they were. */
  lemma ReplaceLinksSpec(links: set<Link>, owner: int, skillIds: Option<seq<int>>, known: set<int>)
    ensures var out := ReplaceLinks(links, owner, skillIds, known);
      && (skillIds.None? ==> out == InsertOutcome(links, false))
      && (skillIds.Some? ==>
            && (!out.failed <==> (forall i :: 0 <= i < |skillIds.value| ==> skillIds.value[i] in known)
                                 && (forall i, j :: 0 <= i < j < |skillIds.value| ==> skillIds.value[i] != skillIds.value[j]))
            && (!out.failed ==> forall l :: l in out.links <==>
                  (l in links && l.owner != owner) || (l.owner == owner && l.skill in skillIds.value)))
  {
    if skillIds.Some? {
      InsertFreshOwner(LinksNotOwnedBy(links, owner), owner, skillIds.value, known);
    }
  }

  /** After an update `GET /api/projects/:id` shows the overwritten row with the
      skills the links now hold; after a 200 with an array, exactly those ids. */
  lemma UpdatedProjectFound(t: Tables, id: int, req: ProjectRequest)
    requires UpdateProjectRefusal(t.projects, id, req).None?
    ensures var k := FindProject(t.projects, id).value;
      var p := UpdatedProject(t.projects[k], req);
      var out := ReplaceLinks(t.projectSkills, id, req.skillIds, SkillIds(t.skills));
      var r := GetProject(t.(projects := t.projects[k := p], projectSkills := out.links), id);
      && r.Success? && r.value.project == p
      && (forall s :: s in r.value.skills <==> s in t.skills && Link(id, s.id) in out.links)
      && (req.skillIds.None? ==> r.value.skills == GetProject(t, id).value.skills)
      && (req.skillIds.Some? && !out.failed ==>
            forall s :: s in r.value.skills <==> s in t.skills && s.id in req.skillIds.value)
  {
    var k := FindProject(t.projects, id).value;
    var p := UpdatedProject(t.projects[k], req);
    var out := ReplaceLinks(t.projectSkills, id, req.skillIds, SkillIds(t.skills));
    var t' := t.(projects := t.projects[k := p], projectSkills := out.links);
    FindProjectReplace(t.projects, id, p);
    GetProjectSpec(t', id);
    ReplaceLinksSpec(t.projectSkills, id, req.skillIds, SkillIds(t.skills));
  }

  /** Removing a project together with its links keeps the store consistent. */
  lemma RemoveProjectConsistent(t: Tables, np: int, ns: int, nj: int, k: nat)
    requires Consistent(t, np, ns, nj)
    requires k < |t.projects|
    ensures var id := t.projects[k].id;
      && Consistent(t.(projects := RemoveAt(t.projects, k), projectSkills := LinksNotOwnedBy(t.projectSkills, id)), np, ns, nj)
      && id !in ProjectIds(RemoveAt(t.projects, k))
  {
    RemoveProjectIds(t.projects, k);
    var projects := RemoveAt(t.projects, k);
    forall i, j | 0 <= i < j < |projects| ensures projects[i].id < projects[j].id {
      var i', j' := if i < k then i else i + 1, if j < k then j else j + 1;
      assert projects[i] == t.projects[i'] && projects[j] == t.projects[j'];
    }
  }

  /** `DELETE /api/projects/:id`: remove the project; `ON DELETE CASCADE`
      removes its links. */
  method DeleteProject(db: Db, id: int) returns (status: Status)
    requires db.Valid()
    modifies db
    ensures db.Valid()
    ensures status == NotFound <==> id !in ProjectIds(old(db.projects))
    ensures status != NotFound ==> status == Ok
    ensures status == NotFound ==> db.Snapshot() == old(db.Snapshot())
    ensures status == Ok ==>
      var k := FindProject(old(db.projects), id).value;
      && db.Snapshot() == old(db.Snapshot()).(projects := RemoveAt(old(db.projects), k),
                                              projectSkills := LinksNotOwnedBy(old(db.projectSkills), id))
      && GetProject(db.Snapshot(), id) == Failure(NotFound)
    ensures db.nextProfileId == old(db.nextProfileId) && db.nextSkillId == old(db.nextSkillId)
    ensures db.nextProjectId == old(db.nextProjectId)
  {
    var k := FindProject(db.projects, id);
    if k.None? {
      return NotFound;
    }
    ghost var t := db.Snapshot();
    RemoveProjectConsistent(t, db.nextProfileId, db.nextSkillId, db.nextProjectId, k.value);
    db.projects := RemoveAt(db.projects, k.value);
    db.projectSkills := LinksNotOwnedBy(db.projectSkills, id);
    assert db.Snapshot() == t.(projects := RemoveAt(t.projects, k.value), projectSkills := LinksNotOwnedBy(t.projectSkills, id));
    status := Ok;
  }
}
