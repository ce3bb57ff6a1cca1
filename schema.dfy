/** The rows of the portfolio database (config/database.js) and the orders its
    queries sort them by. Timestamps and dates are integers; a NULLable column is
    an `Option`. */
module Schema {
  import opened Text
  import opened Sorting

  datatype Option<+T> = None | Some(value: T)

  datatype Result<+T, +E> = Success(value: T) | Failure(error: E)

  /** The HTTP statuses the routes answer with. */
  datatype Status = Ok | Created | BadRequest | NotFound | Conflict | ServerError

  function StatusCode(s: Status): int {
    match s
    case Ok => 200
    case Created => 201
    case BadRequest => 400
    case NotFound => 404
    case Conflict => 409
    case ServerError => 500
  }

  /** JavaScript truthiness of an optional request string: present and not empty. */
  predicate Truthy(v: Option<string>) {
    v.Some? && v.value != ""
  }

  /** The `proficiency_level` ENUM, in declaration order. */
  datatype Proficiency = Beginner | Intermediate | Advanced | Expert

  function ProficiencyName(p: Proficiency): string {
    match p
    case Beginner => "beginner"
    case Intermediate => "intermediate"
    case Advanced => "advanced"
    case Expert => "expert"
  }

  /** The ENUM value a string names, if any (strict mode refuses any other string). */
  function ParseProficiency(s: string): (r: Option<Proficiency>)
    ensures r.Some? ==> ProficiencyName(r.value) == s
  {
    if s == "beginner" then Some(Beginner)
    else if s == "intermediate" then Some(Intermediate)
    else if s == "advanced" then Some(Advanced)
    else if s == "expert" then Some(Expert)
    else None
  }

  /** Every ENUM value is read back from its own name. */
  lemma ParseProficiencyName(p: Proficiency)
    ensures ParseProficiency(ProficiencyName(p)) == Some(p)
  {
  }

  /** The position an ENUM column sorts by; NULL sorts below every value. */
  function EnumIndex(p: Option<Proficiency>): nat {
    match p
    case None => 0
    case Some(Beginner) => 1
    case Some(Intermediate) => 2
    case Some(Advanced) => 3
    case Some(Expert) => 4
  }

  datatype Profile = Profile(
    id: int, name: string, email: string, education: Option<string>,
    githubLink: Option<string>, linkedinLink: Option<string>, portfolioLink: Option<string>,
    createdAt: int)

  datatype Skill = Skill(
    id: int, name: string, proficiency: Option<Proficiency>, category: Option<string>,
    createdAt: int)

  datatype Project = Project(
    id: int, title: string, description: Option<string>,
    githubLink: Option<string>, liveLink: Option<string>, imageUrl: Option<string>,
    createdAt: int)

  datatype Work = Work(
    id: int, company: string, position: string, description: Option<string>,
    startDate: Option<int>, endDate: Option<int>, currentJob: bool, createdAt: int)

  /** A row of `project_skills` (owner = project_id) or `profile_skills`
      (owner = profile_id); the pair is the composite primary key. */
  datatype Link = Link(owner: int, skill: int)

  /** The whole database at one moment; each table in primary-key order. */
  datatype Tables = Tables(
    profiles: seq<Profile>, skills: seq<Skill>, projects: seq<Project>, work: seq<Work>,
    projectSkills: set<Link>, profileSkills: set<Link>)

  // ---------------------------------------------------------------------------
  // ORDER BY clauses, each as a "comes strictly before" relation

  /** `ORDER BY proficiency_level DESC, name ASC` */
  predicate ByProficiencyThenName(a: Skill, b: Skill) {
    || EnumIndex(a.proficiency) > EnumIndex(b.proficiency)
    || (EnumIndex(a.proficiency) == EnumIndex(b.proficiency) && StringLess(a.name, b.name))
  }

  /** `ORDER BY name ASC` */
  predicate ByName(a: Skill, b: Skill) {
    StringLess(a.name, b.name)
  }

  /** `ORDER BY created_at DESC` on projects */
  predicate ProjectsNewestFirst(a: Project, b: Project) {
    a.createdAt > b.createdAt
  }

  /** `ORDER BY start_date DESC`; NULL dates sort last */
  predicate ByStartDateDesc(a: Work, b: Work) {
    a.startDate.Some? && (b.startDate.None? || a.startDate.value > b.startDate.value)
  }

  lemma ByProficiencyThenNameIsStrictWeakOrder()
    ensures StrictWeakOrder(ByProficiencyThenName)
  {
    forall a: Skill {
      StringLessIrreflexive(a.name);
    }
    forall a: Skill, b: Skill, c: Skill | ByProficiencyThenName(a, b) && ByProficiencyThenName(b, c)
      ensures ByProficiencyThenName(a, c)
    {
      if StringLess(a.name, b.name) && StringLess(b.name, c.name) {
        StringLessTransitive(a.name, b.name, c.name);
      }
    }
    forall a: Skill, b: Skill, c: Skill | !ByProficiencyThenName(a, b) && !ByProficiencyThenName(b, c)
      ensures !ByProficiencyThenName(a, c)
    {
      if EnumIndex(a.proficiency) == EnumIndex(b.proficiency) == EnumIndex(c.proficiency) {
        NotStringLessTransitive(a.name, b.name, c.name);
      }
    }
  }

  lemma ByNameIsStrictWeakOrder()
    ensures StrictWeakOrder(ByName)
  {
    forall a: Skill {
      StringLessIrreflexive(a.name);
    }
    forall a: Skill, b: Skill, c: Skill | ByName(a, b) && ByName(b, c) ensures ByName(a, c) {
      StringLessTransitive(a.name, b.name, c.name);
    }
    forall a: Skill, b: Skill, c: Skill | !ByName(a, b) && !ByName(b, c) ensures !ByName(a, c) {
      NotStringLessTransitive(a.name, b.name, c.name);
    }
  }

  lemma ProjectsNewestFirstIsStrictWeakOrder()
    ensures StrictWeakOrder(ProjectsNewestFirst)
  {
  }

  lemma ByStartDateDescIsStrictWeakOrder()
    ensures StrictWeakOrder(ByStartDateDesc)
  {
  }
}
