/** The profile routes (routes/profile.js): the one profile with its skills and
    the work history, its creation and update, and replacing its skill links. */
module ProfileRoutes {
  import opened Sorting
  import opened Schema
  import opened Database

  // ---------------------------------------------------------------------------
  // GET /api/profile

  /** The profile's columns spread into the answer, with `skills` and `work_experience`. */
  datatype ProfileView = ProfileView(profile: Profile, skills: seq<Skill>, workExperience: seq<Work>)

  /** `SELECT s.* FROM skills s JOIN profile_skills ps ON s.id = ps.skill_id
      WHERE ps.profile_id = ?`, before its `ORDER BY`. */
  function LinkedSkills(t: Tables, owner: int): seq<Skill> {
    Filter(t.skills, (s: Skill) => Link(owner, s.id) in t.profileSkills)
  }

  /** `SELECT * FROM profiles LIMIT 1`, then its skills by proficiency and name
      and every work entry by start date, latest first. */
  function GetProfile(t: Tables): (r: Result<ProfileView, Status>)
    ensures r.Failure? <==> t.profiles == []
    ensures r.Failure? ==> r.error == NotFound
    ensures r.Success? ==> r.value.profile == t.profiles[0]
  {
    if t.profiles == [] then Failure(NotFound)
    else
      var p := t.profiles[0];
      Success(ProfileView(p, StableSort(LinkedSkills(t, p.id), ByProficiencyThenName),
                          StableSort(t.work, ByStartDateDesc)))
  }

  /** The profile comes with exactly the skills linked to it, highest
      proficiency first and then by name, and with every work entry once, dated
      entries latest first and undated ones last. */
  lemma GetProfileSpec(t: Tables)
    requires GetProfile(t).Success?
    ensures var v := GetProfile(t).value;
      && (forall s :: s in v.skills <==> s in t.skills && Link(v.profile.id, s.id) in t.profileSkills)
      && (forall i, j :: 0 <= i < j < |v.skills| ==>
            || EnumIndex(v.skills[i].proficiency) > EnumIndex(v.skills[j].proficiency)
            || (EnumIndex(v.skills[i].proficiency) == EnumIndex(v.skills[j].proficiency)
                && !Text.StringLess(v.skills[j].name, v.skills[i].name)))
      && multiset(v.workExperience) == multiset(t.work)
      && (forall i, j :: 0 <= i < j < |v.workExperience| && v.workExperience[j].startDate.Some? ==>
            v.workExperience[i].startDate.Some?
            && v.workExperience[i].startDate.value >= v.workExperience[j].startDate.value)
  {
    var linked := LinkedSkills(t, t.profiles[0].id);
    ByProficiencyThenNameIsStrictWeakOrder();
    StableSortSorted(linked, ByProficiencyThenName);
    StableSortMembers(linked, ByProficiencyThenName);
    ByStartDateDescIsStrictWeakOrder();
    StableSortSorted(t.work, ByStartDateDesc);
  }

  // ---------------------------------------------------------------------------
  // POST /api/profile and PUT /api/profile

  /** The fields of the request body; an absent field is NULL. */
  datatype ProfileRequest = ProfileRequest(
    name: Option<string>, email: Option<string>, education: Option<string>,
    githubLink: Option<string>, linkedinLink: Option<string>, portfolioLink: Option<string>)

  /** `!name || !email` */
  predicate MissingRequired(req: ProfileRequest) {
    !Truthy(req.name) || !Truthy(req.email)
  }

  /** The 201 body: the new id and the request's fields. */
  datatype ProfileCreated = ProfileCreated(
    id: int, name: string, email: string, education: Option<string>,
    githubLink: Option<string>, linkedinLink: Option<string>, portfolioLink: Option<string>)

  /** The answer `POST /api/profile` gives: 400 without a name or an email, 409
      once a profile exists, 201 otherwise. */
  function CreateProfileStatus(profiles: seq<Profile>, req: ProfileRequest): (r: Status)
    ensures r == BadRequest <==> MissingRequired(req)
    ensures r == Conflict <==> !MissingRequired(req) && profiles != []
    ensures r == Created <==> !MissingRequired(req) && profiles == []
  {
    if MissingRequired(req) then BadRequest
    else if profiles != [] then Conflict
    else Created
  }

  /** The row `INSERT INTO profiles` stores. */
  function NewProfile(id: int, req: ProfileRequest, now: int): (p: Profile)
    requires !MissingRequired(req)
    ensures p.id == id && p.createdAt == now
    ensures Some(p.name) == req.name && Some(p.email) == req.email
    ensures p.education == req.education && p.githubLink == req.githubLink
    ensures p.linkedinLink == req.linkedinLink && p.portfolioLink == req.portfolioLink
  {
    Profile(id, req.name.value, req.email.value, req.education,
            req.githubLink, req.linkedinLink, req.portfolioLink, now)
  }

  /** Storing the first profile under the next id keeps the store consistent;
      no link can name it yet. */
  lemma AddProfileConsistent(t: Tables, np: int, ns: int, nj: int, p: Profile)
    requires Consistent(t, np, ns, nj)
    requires t.profiles == [] && p.id == np
    ensures Consistent(t.(profiles := [p]), np + 1, ns, nj)
    ensures t.profileSkills == {}
  {
    assert ProfileIds(t.profiles) == {};
  }

  /** A new profile is read back with its own fields and no skills. */
  lemma NewProfileRead(t: Tables, np: int, ns: int, nj: int, req: ProfileRequest, now: int)
    requires Consistent(t, np, ns, nj)
    requires t.profiles == [] && !MissingRequired(req)
    ensures var r := GetProfile(t.(profiles := [NewProfile(np, req, now)]));
      && r.Success? && r.value.profile == NewProfile(np, req, now) && r.value.skills == []
  {
    var p := NewProfile(np, req, now);
    AddProfileConsistent(t, np, ns, nj, p);
    FilterNone(t.skills, (s: Skill) => Link(p.id, s.id) in t.profileSkills);
  }

  /** `POST /api/profile`. `now` is the `created_at` the database stamps. */
  method CreateProfile(db: Db, req: ProfileRequest, now: int) returns (status: Status, body: Option<ProfileCreated>)
    requires db.Valid()
    modifies db
    ensures db.Valid()
    ensures status == CreateProfileStatus(old(db.profiles), req)
    ensures status != Created ==> body.None? && db.Snapshot() == old(db.Snapshot()) && db.nextProfileId == old(db.nextProfileId)
    ensures status == Created ==>
      && db.Snapshot() == old(db.Snapshot()).(profiles := [NewProfile(old(db.nextProfileId), req, now)])
      && db.nextProfileId == old(db.nextProfileId) + 1
      && body == Some(ProfileCreated(old(db.nextProfileId), req.name.value, req.email.value, req.education,
                                     req.githubLink, req.linkedinLink, req.portfolioLink))
    ensures db.nextSkillId == old(db.nextSkillId) && db.nextProjectId == old(db.nextProjectId)
  {
    if MissingRequired(req) {
      return BadRequest, None;
    }
    if db.profiles != [] {
      return Conflict, None;
    }
    ghost var t := db.Snapshot();
    var p := NewProfile(db.nextProfileId, req, now);
    AddProfileConsistent(t, db.nextProfileId, db.nextSkillId, db.nextProjectId, p);
    db.profiles := [p];
    db.nextProfileId := db.nextProfileId + 1;
    assert db.Snapshot() == t.(profiles := [p]);
    status := Created;
    body := Some(ProfileCreated(p.id, p.name, p.email, p.education, p.githubLink, p.linkedinLink, p.portfolioLink));
  }

  /** The answer `PUT /api/profile` gives: 400 without a name or an email, 404
      when there is no profile, 200 otherwise. */
  function UpdateProfileStatus(profiles: seq<Profile>, req: ProfileRequest): (r: Status)
    ensures r == BadRequest <==> MissingRequired(req)
    ensures r == NotFound <==> !MissingRequired(req) && profiles == []
    ensures r == Ok <==> !MissingRequired(req) && profiles != []
  {
    if MissingRequired(req) then BadRequest
    else if profiles == [] then NotFound
    else Ok
  }

  /** `UPDATE profiles SET name = ?, ... WHERE id = ?`: the six request fields
      replace the stored ones; id and creation time stay. */
  function UpdatedProfile(p: Profile, req: ProfileRequest): (r: Profile)
    requires !MissingRequired(req)
    ensures r.id == p.id && r.createdAt == p.createdAt
    ensures NewProfile(p.id, req, p.createdAt) == r
  {
    p.(name := req.name.value, email := req.email.value, education := req.education,
       githubLink := req.githubLink, linkedinLink := req.linkedinLink, portfolioLink := req.portfolioLink)
  }

  /** Rewriting the profile's fields keeps its id, so the store stays consistent,
      and the profile is read back with the new fields and the same skills. */
  lemma UpdateProfileConsistent(t: Tables, np: int, ns: int, nj: int, req: ProfileRequest)
    requires Consistent(t, np, ns, nj)
    requires t.profiles != [] && !MissingRequired(req)
    ensures var t' := t.(profiles := [UpdatedProfile(t.profiles[0], req)]);
      && Consistent(t', np, ns, nj)
      && GetProfile(t').value.profile == UpdatedProfile(t.profiles[0], req)
      && GetProfile(t').value.skills == GetProfile(t).value.skills
  {
    var t' := t.(profiles := [UpdatedProfile(t.profiles[0], req)]);
    assert t.profiles == [t.profiles[0]];
    assert ProfileIds(t'.profiles) == ProfileIds(t.profiles);
  }

  /** `PUT /api/profile`. */
  method UpdateProfile(db: Db, req: ProfileRequest) returns (status: Status)
    requires db.Valid()
    modifies db
    ensures db.Valid()
    ensures status == UpdateProfileStatus(old(db.profiles), req)
    ensures status != Ok ==> db.Snapshot() == old(db.Snapshot())
    ensures status == Ok ==>
      db.Snapshot() == old(db.Snapshot()).(profiles := [UpdatedProfile(old(db.profiles)[0], req)])
    ensures db.nextProfileId == old(db.nextProfileId) && db.nextSkillId == old(db.nextSkillId)
    ensures db.nextProjectId == old(db.nextProjectId)
  {
    if MissingRequired(req) {
      return BadRequest;
    }
    if db.profiles == [] {
      return NotFound;
    }
    ghost var t := db.Snapshot();
    UpdateProfileConsistent(t, db.nextProfileId, db.nextSkillId, db.nextProjectId, req);
    db.profiles := [UpdatedProfile(db.profiles[0], req)];
    assert db.Snapshot() == t.(profiles := [UpdatedProfile(t.profiles[0], req)]);
    status := Ok;
  }

  // ---------------------------------------------------------------------------
  // POST /api/profile/skills

  /** The answer before any row changes: 400 unless `skill_ids` is a non-empty
      array (`None` stands for a value that is not an array), 404 without a
      profile; `None` when the handler goes on to write. */
  function SetSkillsRefusal(profiles: seq<Profile>, skillIds: Option<seq<int>>): (r: Option<Status>)
    ensures r == Some(BadRequest) <==> skillIds.None? || skillIds.value == []
    ensures r == Some(NotFound) <==> skillIds.Some? && skillIds.value != [] && profiles == []
    ensures r.None? <==> skillIds.Some? && skillIds.value != [] && profiles != []
  {
    if skillIds.None? || skillIds.value == [] then Some(BadRequest)
    else if profiles == [] then Some(NotFound)
    else None
  }

  /** The links the handler leaves: the profile's old links deleted, then one
      insert per id until the first that breaks a key. */
  function SetSkillsLinks(t: Tables, owner: int, ids: seq<int>): InsertOutcome {
    InsertLinks(LinksNotOwnedBy(t.profileSkills, owner), owner, ids, SkillIds(t.skills))
  }

  /** Deleting the profile's links keeps the store consistent. */
  lemma ClearProfileLinksConsistent(t: Tables, np: int, ns: int, nj: int, owner: int)
    requires Consistent(t, np, ns, nj)
    ensures Consistent(t.(profileSkills := LinksNotOwnedBy(t.profileSkills, owner)), np, ns, nj)
  {
  }

  /** Inserting a link from an existing profile to an existing skill keeps the
      store consistent. */
  lemma AddProfileLinkConsistent(t: Tables, np: int, ns: int, nj: int, l: Link)
    requires Consistent(t, np, ns, nj)
    requires l.owner in ProfileIds(t.profiles) && l.skill in SkillIds(t.skills)
    ensures Consistent(t.(profileSkills := t.profileSkills + {l}), np, ns, nj)
  {
  }

  /** The insert loop of `POST /api/profile/skills`: one `INSERT INTO
      profile_skills` per id in turn, stopping at the first that throws. */
  method InsertProfileLinks(db: Db, owner: int, ids: seq<int>) returns (failed: bool)
    requires db.Valid() && owner in ProfileIds(db.profiles)
    modifies db
    ensures db.Valid()
    ensures var out := InsertLinks(old(db.profileSkills), owner, ids, SkillIds(old(db.skills)));
      && db.Snapshot() == old(db.Snapshot()).(profileSkills := out.links)
      && failed == out.failed
    ensures db.nextProfileId == old(db.nextProfileId) && db.nextSkillId == old(db.nextSkillId)
    ensures db.nextProjectId == old(db.nextProjectId)
  {
    ghost var t := db.Snapshot();
    ghost var goal := InsertLinks(t.profileSkills, owner, ids, SkillIds(t.skills));
    assert ids[0..] == ids;
    var i := 0;
    while i < |ids|
      invariant 0 <= i <= |ids|
      invariant db.Snapshot() == t.(profileSkills := db.profileSkills)
      invariant db.nextProfileId == old(db.nextProfileId) && db.nextSkillId == old(db.nextSkillId)
      invariant db.nextProjectId == old(db.nextProjectId)
      invariant db.Valid()
      invariant InsertLinks(db.profileSkills, owner, ids[i..], SkillIds(t.skills)) == goal
    {
      var l := Link(owner, ids[i]);
      InsertLinksFrom(db.profileSkills, owner, ids, i, SkillIds(t.skills));
      if l in db.profileSkills || FindSkill(db.skills, ids[i]).None? {
        return true;
      }
      AddProfileLinkConsistent(db.Snapshot(), db.nextProfileId, db.nextSkillId, db.nextProjectId, l);
      db.profileSkills := db.profileSkills + {l};
      i := i + 1;
    }
    failed := false;
  }

  /** `POST /api/profile/skills`: delete the profile's links, then insert one per
      id in turn. A repeated id or one naming no skill makes the insert throw
      (500); the delete and the inserts before it stay, since no transaction
      wraps them. */
  method SetProfileSkills(db: Db, skillIds: Option<seq<int>>) returns (status: Status)
    requires db.Valid()
    modifies db
    ensures db.Valid()
    ensures var refusal := SetSkillsRefusal(old(db.profiles), skillIds);
      && (refusal.Some? ==> status == refusal.value && db.Snapshot() == old(db.Snapshot()))
      && (refusal.None? ==>
            var out := SetSkillsLinks(old(db.Snapshot()), old(db.profiles)[0].id, skillIds.value);
            && db.Snapshot() == old(db.Snapshot()).(profileSkills := out.links)
            && (status == if out.failed then ServerError else Ok))
    ensures db.nextProfileId == old(db.nextProfileId) && db.nextSkillId == old(db.nextSkillId)
    ensures db.nextProjectId == old(db.nextProjectId)
  {
    if skillIds.None? || skillIds.value == [] {
      return BadRequest;
    }
    if db.profiles == [] {
      return NotFound;
    }
    ghost var t := db.Snapshot();
    var owner := db.profiles[0].id;
    assert owner in ProfileIds(t.profiles);
    ClearProfileLinksConsistent(t, db.nextProfileId, db.nextSkillId, db.nextProjectId, owner);
    db.profileSkills := LinksNotOwnedBy(db.profileSkills, owner);
    assert db.Snapshot() == t.(profileSkills := LinksNotOwnedBy(t.profileSkills, owner));
    var failed := InsertProfileLinks(db, owner, skillIds.value);
    status := if failed then ServerError else Ok;
  }

  /** When every insert succeeds the profile is linked to exactly the skills
      named by the ids, and to nothing else; the inserts succeed exactly when the
      ids name existing skills and none repeats. */
  lemma SetSkillsSpec(t: Tables, np: int, ns: int, nj: int, ids: seq<int>)
    requires Consistent(t, np, ns, nj)
    requires t.profiles != [] && ids != []
    ensures var owner := t.profiles[0].id;
      var out := SetSkillsLinks(t, owner, ids);
      && (!out.failed <==> (forall i :: 0 <= i < |ids| ==> ids[i] in SkillIds(t.skills))
                           && (forall i, j :: 0 <= i < j < |ids| ==> ids[i] != ids[j]))
      && (!out.failed ==> forall l :: l in out.links <==> l.owner == owner && l.skill in ids)
  {
    var owner := t.profiles[0].id;
    var cleared := LinksNotOwnedBy(t.profileSkills, owner);
    InsertLinksOutcome(cleared, owner, ids, SkillIds(t.skills));
    assert t.profiles == [t.profiles[0]];
    forall l | l in t.profileSkills ensures l.owner == owner {
      assert l.owner in ProfileIds(t.profiles);
    }
    assert cleared == {};
    var out := SetSkillsLinks(t, owner, ids);
    if !out.failed {
      forall l ensures l in out.links <==> l.owner == owner && l.skill in ids {
        if l.owner == owner && l.skill in ids {
          var i :| 0 <= i < |ids| && ids[i] == l.skill;
          assert l == Link(owner, ids[i]);
        }
      }
    }
  }
}
