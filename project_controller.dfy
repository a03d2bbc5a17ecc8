/** The project endpoints: creation with validation, slug and defaults, the team-scoped
    listing, reading and partial update of projects.

    The project table is a sequence whose positions are the project ids. The zod URL check
    is the opaque predicate `isUrl`; the clock reading `Date.now()` is the parameter `now`. */
module ProjectController {
  import opened Options
  import opened Strings
  import AuthService

  // ---------------------------------------------------------------------------
  // Request bodies and their validation
  // ---------------------------------------------------------------------------

  datatype Language = JavaScript | TypeScript

  /** One field of a JSON body as the schema sees it: missing, a string, or anything else. */
  datatype Field = Absent | Text(text: string) | NonText

  datatype Body = Body(name: Field, description: Field, baseUrl: Field, githubRepoUrl: Field,
                       githubBranch: Field, entryPath: Field, language: Field)

  /** The data the create schema yields. */
  datatype CreateData = CreateData(name: string, description: Option<string>, baseUrl: Option<string>,
                                   githubRepoUrl: Option<string>, githubBranch: Option<string>,
                                   entryPath: Option<string>, language: Language)

  /** The data the partial update schema yields: a missing field changes nothing. */
  datatype Patch = Patch(name: Option<string>, description: Option<string>, baseUrl: Option<string>,
                         githubRepoUrl: Option<string>, githubBranch: Option<string>,
                         entryPath: Option<string>, language: Option<Language>)

  function TextOf(f: Field): Option<string> {
    if f.Text? then Some(f.text) else None
  }

  /** `z.string().optional()`. */
  predicate OptionalText(f: Field) {
    f.Absent? || f.Text?
  }

  /** `z.string().min(1)`. */
  predicate NameValid(f: Field) {
    f.Text? && |f.text| >= 1
  }

  /** `z.string().url().optional()`. */
  predicate OptionalUrl(f: Field, isUrl: string -> bool) {
    f.Absent? || (f.Text? && isUrl(f.text))
  }

  /** `z.enum(['javascript', 'typescript'])` on a present field. */
  function LanguageOf(f: Field): Option<Language> {
    if f == Text("javascript") then Some(JavaScript)
    else if f == Text("typescript") then Some(TypeScript)
    else None
  }

  /** Every field but the name passes its schema. */
  predicate OtherFieldsValid(b: Body, isUrl: string -> bool) {
    && OptionalText(b.description)
    && OptionalUrl(b.baseUrl, isUrl)
    && OptionalText(b.githubRepoUrl)
    && OptionalText(b.githubBranch)
    && OptionalText(b.entryPath)
    && (b.language.Absent? || LanguageOf(b.language).Some?)
  }

  /** `createProjectSchema.parse`; `None` is the thrown validation error. */
  function ParseCreate(b: Body, isUrl: string -> bool): (r: Option<CreateData>)
    ensures r.Some? <==> NameValid(b.name) && OtherFieldsValid(b, isUrl)
  {
    if !NameValid(b.name) || !OtherFieldsValid(b, isUrl) then None
    else Some(CreateData(b.name.text, TextOf(b.description), TextOf(b.baseUrl), TextOf(b.githubRepoUrl),
                         TextOf(b.githubBranch), TextOf(b.entryPath),
                         if b.language.Absent? then JavaScript else LanguageOf(b.language).value))
  }

  /** `createProjectSchema.partial().parse`: every field may be missing, and a missing
      language gets no default. */
  function ParsePatch(b: Body, isUrl: string -> bool): (r: Option<Patch>)
    ensures r.Some? <==> (b.name.Absent? || NameValid(b.name)) && OtherFieldsValid(b, isUrl)
  {
    if !(b.name.Absent? || NameValid(b.name)) || !OtherFieldsValid(b, isUrl) then None
    else Some(Patch(TextOf(b.name), TextOf(b.description), TextOf(b.baseUrl), TextOf(b.githubRepoUrl),
                    TextOf(b.githubBranch), TextOf(b.entryPath), LanguageOf(b.language)))
  }

  /** The create schema demands a non-empty name, a URL when a base URL is given and one of
      the two languages, defaulting to JavaScript; anything else is refused. */
  lemma CreateValidation(b: Body, isUrl: string -> bool)
    ensures b.name == Absent || b.name == Text("") ==> ParseCreate(b, isUrl).None?
    ensures b.baseUrl.Text? && !isUrl(b.baseUrl.text) ==> ParseCreate(b, isUrl).None?
    ensures b.language.Text? && b.language.text != "javascript" && b.language.text != "typescript" ==>
      ParseCreate(b, isUrl).None?
    ensures ParseCreate(b, isUrl).Some? ==>
      && ParseCreate(b, isUrl).value.name == b.name.text
      && (b.language.Absent? <==> ParseCreate(b, isUrl).value.language == JavaScript && b.language != Text("javascript"))
  {
  }

  /** The update schema is the create schema made partial: whatever creation accepts an
      update accepts, with the same fields, and without inventing a language. */
  lemma PatchWeakerThanCreate(b: Body, isUrl: string -> bool)
    ensures ParseCreate(b, isUrl).Some? ==> ParsePatch(b, isUrl).Some?
    ensures ParseCreate(b, isUrl).Some? ==>
      var d := ParseCreate(b, isUrl).value; var q := ParsePatch(b, isUrl).value;
      && q.name == Some(d.name) && q.description == d.description && q.baseUrl == d.baseUrl
      && q.githubRepoUrl == d.githubRepoUrl && q.githubBranch == d.githubBranch && q.entryPath == d.entryPath
      && (q.language.Some? ==> q.language.value == d.language)
      && (q.language.None? <==> b.language.Absent?)
    ensures b.name.Absent? && OtherFieldsValid(b, isUrl) ==>
      ParsePatch(b, isUrl).Some? && ParseCreate(b, isUrl).None?
  {
  }

  // ---------------------------------------------------------------------------
  // Projects
  // ---------------------------------------------------------------------------

  datatype Project = Project(id: nat, name: string, description: Option<string>, baseUrl: Option<string>,
                             githubRepoUrl: Option<string>, githubBranch: string, entryPath: string,
                             language: Language, teamId: string, slug: string, updatedAt: int)

  /** The slug: the name lower-cased with spaces turned into dashes, then a dash and the
      creation time. */
  function Slug(name: string, now: nat): string {
    ReplaceChar(ToLower(name), ' ', '-') + "-" + NatToString(now)
  }

  /** A slug has no space and no upper-case ASCII letter, keeps one character per character
      of the name (a space becoming a dash, anything else lower-cased), and ends in the
      creation time, which reads back unchanged. */
  lemma SlugShape(name: string, now: nat)
    ensures var s := Slug(name, now);
      && (forall i :: 0 <= i < |s| ==> s[i] != ' ' && !('A' <= s[i] <= 'Z'))
      && |s| == |name| + 1 + |NatToString(now)|
      && s[|name|] == '-'
      && ParseInt(s[|name| + 1..]) == Some(now)
      && (forall i :: 0 <= i < |name| && name[i] != ' ' ==> s[i] == LowerChar(name[i]))
      && (forall i :: 0 <= i < |name| && name[i] == ' ' ==> s[i] == '-')
  {
    var s := Slug(name, now);
    assert s[|name| + 1..] == NatToString(now);
    ParseIntNatToString(now);
    forall i | 0 <= i < |s|
      ensures s[i] != ' ' && !('A' <= s[i] <= 'Z')
    {
      if i > |name| {
        assert s[i] == NatToString(now)[i - |name| - 1];
      }
    }
  }

  /** `value || fallback` on an optional string: missing and empty both fall back. */
  function OrDefault(value: Option<string>, fallback: string): (r: string)
    ensures value.None? || value.value == "" ==> r == fallback
    ensures value.Some? && value.value != "" ==> r == value.value
  {
    if value.Some? && value.value != "" then value.value else fallback
  }

  /** The project `create` stores: the validated data, the caller's team, the slug and the
      branch and entry path defaults. */
  function NewProject(id: nat, d: CreateData, teamId: string, now: nat): Project {
    Project(id, d.name, d.description, d.baseUrl, d.githubRepoUrl,
            OrDefault(d.githubBranch, "main"), OrDefault(d.entryPath, "src/app.ts"),
            d.language, teamId, Slug(d.name, now), now)
  }

  /** `prisma.project.update` with the parsed data: present fields replace, missing ones stay;
      the write stamps `updatedAt`. */
  function ApplyPatch(p: Project, q: Patch, now: int): Project {
    p.(name := q.name.GetOr(p.name),
       description := if q.description.Some? then q.description else p.description,
       baseUrl := if q.baseUrl.Some? then q.baseUrl else p.baseUrl,
       githubRepoUrl := if q.githubRepoUrl.Some? then q.githubRepoUrl else p.githubRepoUrl,
       githubBranch := q.githubBranch.GetOr(p.githubBranch),
       entryPath := q.entryPath.GetOr(p.entryPath),
       language := q.language.GetOr(p.language),
       updatedAt := now)
  }

  /** An update never moves a project to another team, renumbers it or renames its slug;
      each field is either the patched value or the old one; applying it twice is applying
      it once. */
  lemma PatchRules(p: Project, q: Patch, now: int)
    ensures var r := ApplyPatch(p, q, now);
      && r.id == p.id && r.teamId == p.teamId && r.slug == p.slug && r.updatedAt == now
      && (q.name.Some? ==> r.name == q.name.value) && (q.name.None? ==> r.name == p.name)
      && (q.description.Some? ==> r.description == q.description) && (q.description.None? ==> r.description == p.description)
      && (q.baseUrl.Some? ==> r.baseUrl == q.baseUrl) && (q.baseUrl.None? ==> r.baseUrl == p.baseUrl)
      && (q.githubRepoUrl.Some? ==> r.githubRepoUrl == q.githubRepoUrl)
      && (q.githubRepoUrl.None? ==> r.githubRepoUrl == p.githubRepoUrl)
      && (q.githubBranch.Some? ==> r.githubBranch == q.githubBranch.value)
      && (q.githubBranch.None? ==> r.githubBranch == p.githubBranch)
      && (q.entryPath.Some? ==> r.entryPath == q.entryPath.value) && (q.entryPath.None? ==> r.entryPath == p.entryPath)
      && (q.language.Some? ==> r.language == q.language.value) && (q.language.None? ==> r.language == p.language)
    ensures ApplyPatch(ApplyPatch(p, q, now), q, now) == ApplyPatch(p, q, now)
    ensures q == Patch(None, None, None, None, None, None, None) ==> ApplyPatch(p, q, now) == p.(updatedAt := now)
  {
  }

  // ---------------------------------------------------------------------------
  // Replies and the team rule
  // ---------------------------------------------------------------------------

  /** The decoded access token attached to the request. Tokens issued by the account
      service carry no team, so `teamId` is then `None` (JavaScript's `undefined`). */
  datatype Principal = Principal(teamId: Option<string>)

  /** The principal the authentication middleware attaches: the access token's claims. */
  function PrincipalOf(t: AuthService.Token): (p: Principal)
    ensures p.teamId == t.teamId
  {
    Principal(t.teamId)
  }

  datatype ReplyBody = OneProject(project: Project) | Projects(projects: seq<Project>)
                     | Error(message: string) | ValidationErrors

  datatype Reply = Reply(status: nat, body: ReplyBody)

  /** The three-way 404 of `getOne` and the ownership test of `update`: a stored team
      never equals `undefined`. */
  predicate Owns(user: Option<Principal>, p: Project) {
    user.Some? && user.value.teamId == Some(p.teamId)
  }

  /** `where: { teamId }`: Prisma drops a filter whose value is `undefined`, so a caller
      without a team matches every project. */
  predicate InTeam(p: Project, teamId: Option<string>) {
    teamId.None? || p.teamId == teamId.value
  }

  /** `findUnique({ where: { id } })`. */
  function FindProject(projects: seq<Project>, id: nat): Option<Project> {
    if id < |projects| then Some(projects[id]) else None
  }

  predicate IdsArePositions(projects: seq<Project>) {
    forall i :: 0 <= i < |projects| ==> projects[i].id == i
  }

  // ---------------------------------------------------------------------------
  // list
  // ---------------------------------------------------------------------------

  /** The projects the team filter selects, in table order. */
  function TeamProjects(projects: seq<Project>, teamId: Option<string>): (r: seq<Project>)
    ensures forall p :: p in r <==> p in projects && InTeam(p, teamId)
  {
    if projects == [] then []
    else
      var last := projects[|projects| - 1];
      TeamProjects(projects[..|projects| - 1], teamId) + (if InTeam(last, teamId) then [last] else [])
  }

  predicate NewestFirst(s: seq<Project>) {
    forall i, j :: 0 <= i < j < |s| ==> s[i].updatedAt >= s[j].updatedAt
  }

  /** Places `p` in front of the first project it is at least as new as. */
  function Insert(p: Project, s: seq<Project>): (r: seq<Project>)
    ensures |r| == |s| + 1
    ensures forall k :: 0 <= k < |r| ==> r[k] == p || r[k] in s
  {
    if s == [] then [p]
    else if p.updatedAt >= s[0].updatedAt then [p] + s
    else [s[0]] + Insert(p, s[1..])
  }

  /** Inserting into a newest-first sequence keeps it newest-first. */
  lemma {:induction false} InsertKeepsOrder(p: Project, s: seq<Project>)
    requires NewestFirst(s)
    ensures NewestFirst(Insert(p, s))
  {
    if s == [] {
    } else if p.updatedAt >= s[0].updatedAt {
      var r := [p] + s;
      assert Insert(p, s) == r;
      forall i, j | 0 <= i < j < |r|
        ensures r[i].updatedAt >= r[j].updatedAt
      {
        assert r[j] == s[j - 1];
        if i > 0 {
          assert r[i] == s[i - 1];
        }
      }
    } else {
      var rest := Insert(p, s[1..]);
      InsertKeepsOrder(p, s[1..]);
      var r := [s[0]] + rest;
      assert Insert(p, s) == r;
      forall i, j | 0 <= i < j < |r|
        ensures r[i].updatedAt >= r[j].updatedAt
      {
        assert r[j] == rest[j - 1];
        if i > 0 {
          assert r[i] == rest[i - 1];
        }
      }
    }
  }

  /** Inserting adds exactly `p`. */
  lemma {:induction false} InsertAddsOne(p: Project, s: seq<Project>)
    ensures multiset(Insert(p, s)) == multiset(s) + multiset{p}
  {
    if s != [] && p.updatedAt < s[0].updatedAt {
      InsertAddsOne(p, s[1..]);
      assert s == [s[0]] + s[1..];
      assert Insert(p, s) == [s[0]] + Insert(p, s[1..]);
    }
  }

  /** `orderBy: { updatedAt: 'desc' }`. */
  function SortNewestFirst(s: seq<Project>): (r: seq<Project>)
    ensures NewestFirst(r) && multiset(r) == multiset(s)
  {
    if s == [] then []
    else
      var sorted := SortNewestFirst(s[1..]);
      InsertKeepsOrder(s[0], sorted);
      InsertAddsOne(s[0], sorted);
      assert s == [s[0]] + s[1..];
      Insert(s[0], sorted)
  }

  function ListOutcome(projects: seq<Project>, user: Option<Principal>): Reply {
    if user.None? then Reply(401, Error("Unauthorized"))
    else Reply(200, Projects(SortNewestFirst(TeamProjects(projects, user.value.teamId))))
  }

  /** Listing refuses an anonymous caller; otherwise it answers exactly the projects the
      team filter selects (the caller's team's, or every project for a caller without a
      team), each as often as it is stored, newest `updatedAt` first. */
  lemma ListRules(projects: seq<Project>, user: Option<Principal>)
    ensures ListOutcome(projects, user).status == 401 <==> user.None?
    ensures user.Some? ==>
      var listed := ListOutcome(projects, user).body.projects;
      && NewestFirst(listed)
      && multiset(listed) == multiset(TeamProjects(projects, user.value.teamId))
      && (user.value.teamId.Some? ==> forall p :: p in listed <==> p in projects && p.teamId == user.value.teamId.value)
      && (user.value.teamId.None? ==> forall p :: p in listed <==> p in projects)
  {
    if user.Some? {
      var listed := ListOutcome(projects, user).body.projects;
      forall p
        ensures p in listed <==> p in TeamProjects(projects, user.value.teamId)
      {
        assert p in listed <==> p in multiset(listed);
      }
    }
  }

  // ---------------------------------------------------------------------------
  // getOne, create and update
  // ---------------------------------------------------------------------------

  function GetOneOutcome(projects: seq<Project>, user: Option<Principal>, id: nat): Reply {
    var found := FindProject(projects, id);
    if found.None? || !Owns(user, found.value) then Reply(404, Error("Project not found"))
    else Reply(200, OneProject(found.value))
  }

  /** `getOne` answers the same 404 whether the project is missing, nobody is signed in, or
      the project is another team's; otherwise it answers the stored project. */
  lemma GetOneRules(projects: seq<Project>, user: Option<Principal>, id: nat)
    ensures GetOneOutcome(projects, user, id).status == 200 <==>
      id < |projects| && user.Some? && user.value.teamId == Some(projects[id].teamId)
    ensures GetOneOutcome(projects, user, id).status != 200 ==>
      GetOneOutcome(projects, user, id) == Reply(404, Error("Project not found"))
    ensures GetOneOutcome(projects, user, id).status == 200 ==>
      GetOneOutcome(projects, user, id).body == OneProject(projects[id])
  {
  }

  /** A caller with a team can read a project exactly when the listing shows it; a caller
      without one is shown every project and can read none. */
  lemma ListedIffReadable(projects: seq<Project>, user: Option<Principal>, id: nat)
    requires IdsArePositions(projects)
    requires user.Some? && id < |projects|
    ensures user.value.teamId.Some? ==>
      (projects[id] in ListOutcome(projects, user).body.projects <==> GetOneOutcome(projects, user, id).status == 200)
    ensures user.value.teamId.None? ==>
      projects[id] in ListOutcome(projects, user).body.projects && GetOneOutcome(projects, user, id).status == 404
  {
    ListRules(projects, user);
    var listed := ListOutcome(projects, user).body.projects;
    var p := projects[id];
    assert p in projects;
    if user.value.teamId.Some? {
      assert p in listed <==> p.teamId == user.value.teamId.value;
    } else {
      assert p in listed;
    }
  }

  /** Every successful sign-in of the account service issues an access token without a
      team; its bearer is shown every team's projects and can read none of them. */
  lemma SignedInCallerHasNoTeam(u: AuthService.User, projects: seq<Project>, id: nat)
    ensures var user := Some(PrincipalOf(AuthService.Answer(u).tokens.accessToken));
      && user.value.teamId.None?
      && ListOutcome(projects, user).status == 200
      && multiset(ListOutcome(projects, user).body.projects) == multiset(projects)
      && GetOneOutcome(projects, user, id) == Reply(404, Error("Project not found"))
  {
    var user := Some(PrincipalOf(AuthService.Answer(u).tokens.accessToken));
    TeamlessFilterKeepsAll(projects);
  }

  /** The team filter with no team selects the whole table, in order. */
  lemma {:induction false} TeamlessFilterKeepsAll(projects: seq<Project>)
    ensures TeamProjects(projects, None) == projects
  {
    if projects != [] {
      TeamlessFilterKeepsAll(projects[..|projects| - 1]);
      assert projects[..|projects| - 1] + [projects[|projects| - 1]] == projects;
    }
  }

  datatype Outcome = Outcome(projects: seq<Project>, reply: Reply)

  function CreateOutcome(projects: seq<Project>, user: Option<Principal>, body: Body, now: nat,
                         isUrl: string -> bool): Outcome
  {
    if user.None? then Outcome(projects, Reply(401, Error("Unauthorized")))
    else
      var data := ParseCreate(body, isUrl);
      if data.None? then Outcome(projects, Reply(400, ValidationErrors))
      else if user.value.teamId.None? then Outcome(projects, Reply(500, Error("Failed to create project")))
      else
        var p := NewProject(|projects|, data.value, user.value.teamId.value, now);
        Outcome(projects + [p], Reply(201, OneProject(p)))
  }

  /** Creation refuses an anonymous caller with 401 and an invalid body with 400, and the
      database refuses a project without a team (500), each storing nothing; otherwise it
      stores one project in the caller's team, with the branch and entry path defaults,
      and the creator can read it back. */
  lemma CreateRules(projects: seq<Project>, user: Option<Principal>, body: Body, now: nat, isUrl: string -> bool)
    requires IdsArePositions(projects)
    ensures var o := CreateOutcome(projects, user, body, now, isUrl);
      && (o.reply.status == 401 <==> user.None?)
      && (o.reply.status == 400 <==> user.Some? && ParseCreate(body, isUrl).None?)
      && (o.reply.status == 500 <==> user.Some? && ParseCreate(body, isUrl).Some? && user.value.teamId.None?)
      && (o.reply.status == 500 ==> o.reply.body == Error("Failed to create project"))
      && (o.reply.status != 201 ==> o.projects == projects)
    ensures var o := CreateOutcome(projects, user, body, now, isUrl);
      o.reply.status == 201 ==>
        var p := o.reply.body.project;
        && o.projects == projects + [p] && IdsArePositions(o.projects)
        && Some(p.teamId) == user.value.teamId && p.name == body.name.text
        && p.slug == Slug(body.name.text, now)
        && p.githubBranch == OrDefault(TextOf(body.githubBranch), "main")
        && p.entryPath == OrDefault(TextOf(body.entryPath), "src/app.ts")
        && GetOneOutcome(o.projects, user, |projects|) == Reply(200, OneProject(p))
  {
  }

  function UpdateOutcome(projects: seq<Project>, user: Option<Principal>, id: nat, body: Body, now: int,
                         isUrl: string -> bool): Outcome
  {
    if user.None? then Outcome(projects, Reply(401, Error("Unauthorized")))
    else
      var patch := ParsePatch(body, isUrl);
      if patch.None? then Outcome(projects, Reply(400, ValidationErrors))
      else
        var found := FindProject(projects, id);
        if found.None? || user.value.teamId != Some(found.value.teamId) then
          Outcome(projects, Reply(404, Error("Project not found")))
        else
          var updated := ApplyPatch(found.value, patch.value, now);
          Outcome(projects[id := updated], Reply(200, OneProject(updated)))
  }

  /** Update checks the caller, then the body, then ownership, and writes nothing unless all
      pass; then only the project with that id changes, and reading it back gives the
      answer the update gave. */
  lemma UpdateRules(projects: seq<Project>, user: Option<Principal>, id: nat, body: Body, now: int, isUrl: string -> bool)
    requires IdsArePositions(projects)
    ensures var o := UpdateOutcome(projects, user, id, body, now, isUrl);
      && (o.reply.status == 401 <==> user.None?)
      && (o.reply.status == 400 <==> user.Some? && ParsePatch(body, isUrl).None?)
      && (o.reply.status == 404 <==> user.Some? && ParsePatch(body, isUrl).Some? && GetOneOutcome(projects, user, id).status == 404)
      && (o.reply.status != 200 ==> o.projects == projects)
      && (user.Some? && user.value.teamId.None? ==> o.reply.status != 200)
    ensures var o := UpdateOutcome(projects, user, id, body, now, isUrl);
      o.reply.status == 200 ==>
        && |o.projects| == |projects| && IdsArePositions(o.projects)
        && (forall k :: 0 <= k < |projects| && k != id ==> o.projects[k] == projects[k])
        && o.projects[id] == ApplyPatch(projects[id], ParsePatch(body, isUrl).value, now)
        && GetOneOutcome(o.projects, user, id) == o.reply
  {
  }

  // ---------------------------------------------------------------------------
  // The controller over a stored table
  // ---------------------------------------------------------------------------

  /** The project table the controller reads and writes. */
  class ProjectTable {
    var projects: seq<Project>

    ghost predicate Valid()
      reads this
    {
      IdsArePositions(projects)
    }

    constructor()
      ensures Valid() && projects == []
    {
      projects := [];
    }

    /** `list`: selects the caller's projects, then orders them. */
    method List(user: Option<Principal>) returns (reply: Reply)
      ensures reply == ListOutcome(projects, user)
    {
      if user.None? {
        return Reply(401, Error("Unauthorized"));
      }
      var teamId := user.value.teamId;
      var mine: seq<Project> := [];
      for i := 0 to |projects|
        invariant mine == TeamProjects(projects[..i], teamId)
      {
        assert projects[..i + 1][..i] == projects[..i];
        if teamId.None? || projects[i].teamId == teamId.value {
          mine := mine + [projects[i]];
        }
      }
      assert projects[..|projects|] == projects;
      reply := Reply(200, Projects(SortNewestFirst(mine)));
    }

    /** `getOne`: reads first, then applies the team rule. */
    method GetOne(user: Option<Principal>, id: nat) returns (reply: Reply)
      ensures reply == GetOneOutcome(projects, user, id)
    {
      var project := FindProject(projects, id);
      if project.None? || user.None? || user.value.teamId != Some(project.value.teamId) {
        return Reply(404, Error("Project not found"));
      }
      reply := Reply(200, OneProject(project.value));
    }

    /** `create`. */
    method Create(user: Option<Principal>, body: Body, now: nat, isUrl: string -> bool) returns (reply: Reply)
      requires Valid()
      modifies this
      ensures Valid()
      ensures Outcome(projects, reply) == CreateOutcome(old(projects), user, body, now, isUrl)
    {
      if user.None? {
        return Reply(401, Error("Unauthorized"));
      }
      var data := ParseCreate(body, isUrl);
      if data.None? {
        return Reply(400, ValidationErrors);
      }
      if user.value.teamId.None? {
        return Reply(500, Error("Failed to create project"));
      }
      var slug := Slug(data.value.name, now);
      var project := Project(|projects|, data.value.name, data.value.description, data.value.baseUrl,
                             data.value.githubRepoUrl, OrDefault(data.value.githubBranch, "main"),
                             OrDefault(data.value.entryPath, "src/app.ts"), data.value.language,
                             user.value.teamId.value, slug, now);
      projects := projects + [project];
      reply := Reply(201, OneProject(project));
    }

    /** `update`. */
    method Update(user: Option<Principal>, id: nat, body: Body, now: int, isUrl: string -> bool) returns (reply: Reply)
      requires Valid()
      modifies this
      ensures Valid()
      ensures Outcome(projects, reply) == UpdateOutcome(old(projects), user, id, body, now, isUrl)
    {
      if user.None? {
        return Reply(401, Error("Unauthorized"));
      }
      var data := ParsePatch(body, isUrl);
      if data.None? {
        return Reply(400, ValidationErrors);
      }
      var project := FindProject(projects, id);
      if project.None? || user.value.teamId != Some(project.value.teamId) {
        return Reply(404, Error("Project not found"));
      }
      var updated := ApplyPatch(project.value, data.value, now);
      projects := projects[id := updated];
      reply := Reply(200, OneProject(updated));
    }
  }
}
