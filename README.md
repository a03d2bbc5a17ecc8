# SpecOrbit backend core in Dafny

SpecOrbit reads an Express application's source, finds its route declarations and turns them
into an OpenAPI 3 document. It stores the documents per project and periodically queues drift
checks against the live API. This project models the core of its backend and proves
properties of that model:

- **Route extraction** (`ExpressParser`, express.parser.ts):
  - which calls are routes;
  - the verb and the quote-stripped path;
  - path and query parameters read from the handler, de-duplicated;
  - `res.status(...)` responses;
  - routes in document order, and an extraction failure yielding no route.
- **Document generation and dependency fetching** (`SpecService`, spec.service.ts):
  - the `paths` dictionary built route by route, and the fixed document header;
  - the title fallback;
  - the worklist that follows relative imports from an entry file;
  - the fallback parse;
  - the latest stored document of a project.
- **Accounts** (`AuthService`, auth.service.ts):
  - registration, password login and GitHub login over a user table;
  - removing the password hash from answers;
  - the token pair.
- **Projects** (`ProjectController`, project.controller.ts):
  - request validation;
  - slug and defaults on creation;
  - the team rule for listing, reading and updating;
  - newest-first listing.
- **Scheduler** (`SchedulerService`, scheduler.service.ts): the `running`/`intervalId` state
  machine and the sequential pass that queues one drift job per project.
- **GitHub references** (`GitHubService`, github.service.ts):
  - cleaning a repository reference;
  - the owner/repository split;
  - the archive and contents API addresses;
  - the result of a download.

Shared helpers are `Options`, `Strings` (ASCII case mapping, `split`, `join`, `parseInt`,
decimal printing) and `Paths` (POSIX `path.join`, `path.normalize` and `path.dirname`).

Each module takes the form of its source file:
- State the source changes in place is imperative. This covers the parser's loops, the
  `paths` dictionary, the fetch worklist, the user and project tables, and the scheduler's
  fields. Those become methods with loops and invariants, or classes whose methods reassign
  their fields.
- Each such method is tied by its `ensures` to a pure function of the old state.
- The properties are proved as lemmas about those functions.

Library calls are parameters:
- the syntax-tree library;
- bcrypt (`hash`, `compare`);
- zod's URL check (`isUrl`);
- `Date.now()` (`now`);
- `setInterval` handles;
- Prisma reads and writes (sequences and maps);
- HTTP and unzip (`fetchArchive`, `fetchFile`);
- `addDriftJob` failures (`fails`).

Two places where the services do not fit together are modelled as the code behaves:
- **`parseCode`'s result.** `parseCode` returns a bare list of routes, yet spec.service.ts
  reads `.routes`, `.mounts` and `.imports` from that result as if it were a record. The
  service's view of a parse is therefore the oracle `scan`, and `None` stands for a result
  whose fields cannot be read.
  - The dependency loop then stops after the entry file, because iterating `undefined`
    throws and is caught.
  - `fallbackParsing` fails, because spreading `undefined` throws.
- **Imports.** spec.service.ts also calls a `parseFile` that the parser does not define, so
  no recursive walk over mounted routers is modelled. What is modelled is the dependency
  fetch loop the service does run.
- **Teams.** The account service signs access tokens without a team, and the middleware
  attaches the token's claims as the caller. The project endpoints therefore see a caller
  whose `teamId` is `undefined`. Listing then matches every project, because Prisma drops
  an `undefined` filter. Reading and updating answer 404, because no stored team equals
  `undefined`. `ProjectController.SignedInCallerHasNoTeam` states this.

## Model

| member | source | states |
|---|---|---|
| ExpressParser.NonRouteCalls | specorbit-backend/src/services/parser/express.parser.ts:51-63 | `use`/`all` calls and calls with fewer than two arguments are never routes |
| ExpressParser.UpperVerbs | specorbit-backend/src/services/parser/express.parser.ts:69 | the five allowed verbs upper-case to `GET`, `POST`, `PUT`, `DELETE`, `PATCH` |
| ExpressParser.RouteOfVerb | specorbit-backend/src/services/parser/express.parser.ts:69 | a route's method is one of the five upper-case verbs and its source file is the parsed file |
| ExpressParser.StripQuotesLiteral | specorbit-backend/src/services/parser/express.parser.ts:73 | a quoted path literal loses exactly its surrounding quotes |
| ExpressParser.StripQuotesUnquoted | specorbit-backend/src/services/parser/express.parser.ts:73 | text without a quote at either end is kept unchanged |
| ExpressParser.NamedHandlerRoute | specorbit-backend/src/services/parser/express.parser.ts:91-99 | a route whose last argument is not an inline function has no parameters and no responses, whatever its receiver |
| ExpressParser.ParametersIgnorePath | specorbit-backend/src/services/parser/express.parser.ts:91-138 | parameters and responses come from the handler only: changing the path argument changes neither |
| ExpressParser.VisitHandler | specorbit-backend/src/services/parser/express.parser.ts:104-137 | the `forEach` pushes, node by node in order, exactly the parameters and responses each node contributes |
| ExpressParser.PrefixDots | specorbit-backend/src/services/parser/express.parser.ts:108-117 | a text starting with `<req>.params.` or `<req>.query.` has at least two dots, so `split('.')[2]` exists |
| ExpressParser.CollectParamsPlaced | specorbit-backend/src/services/parser/express.parser.ts:108-121 | every collected parameter is a required path parameter or an optional query parameter |
| ExpressParser.CollectResponsesLabelled | specorbit-backend/src/services/parser/express.parser.ts:125-133 | every collected response is described `Generated response` |
| ExpressParser.ResponsesAppend | specorbit-backend/src/services/parser/express.parser.ts:125-136 | responses are collected in visiting order and never de-duplicated: two runs of nodes give the first run's responses then the second's |
| ExpressParser.DedupElements | specorbit-backend/src/services/parser/express.parser.ts:140 | de-duplication keeps exactly the elements of its input, each once |
| ExpressParser.DedupFirstOccurrenceOrder | specorbit-backend/src/services/parser/express.parser.ts:140 | de-duplication keeps the order of first occurrences |
| ExpressParser.RouteOfParameters | specorbit-backend/src/services/parser/express.parser.ts:104-140 | a route's parameters are exactly those some handler node contributes, without repetitions, and are well placed (path required, query optional) |
| ExpressParser.RouteOfResponses | specorbit-backend/src/services/parser/express.parser.ts:125-136 | a route's responses are exactly those some handler node contributes, all labelled `Generated response` |
| ExpressParser.RouteOfShape | specorbit-backend/src/services/parser/express.parser.ts:142-149 | each extracted route has the parsed file, an upper-case verb, distinct well-placed parameters and labelled responses |
| ExpressParser.ExtractRouteInfo | specorbit-backend/src/services/parser/express.parser.ts:65-154 | a failed extraction yields no route; otherwise the route built from the verb, the stripped path, the statement's description, the de-duplicated parameters and the responses |
| ExpressParser.RouteIndicesCorrect | specorbit-backend/src/services/parser/express.parser.ts:35-42 | the calls that yield routes are, in increasing document order, exactly the qualifying calls whose extraction does not fail |
| ExpressParser.RoutesAt | specorbit-backend/src/services/parser/express.parser.ts:35-42 | one route per selected call |
| ExpressParser.RoutesAtSnoc | specorbit-backend/src/services/parser/express.parser.ts:38-40 | pushing the route of a further qualifying call appends it after the routes so far |
| ExpressParser.RoutesAtIndex | specorbit-backend/src/services/parser/express.parser.ts:35-42 | the k-th returned route is the route of the k-th selected call |
| ExpressParser.ParseCode | specorbit-backend/src/services/parser/express.parser.ts:29-49 | the loop returns one route per qualifying, non-failing call, in document order; a file that fails to parse gives none |
| ExpressParser.ParsedRoutesShape | specorbit-backend/src/services/parser/express.parser.ts:29-49 | an unparsable file gives no route, and every returned route is well shaped |
| ExpressParser.CallSites | specorbit-backend/src/services/parser/express.parser.ts:33 | the sites visited are call expressions |
| ExpressParser.CallsAmongCounts | specorbit-backend/src/services/parser/express.parser.ts:33 | selecting calls keeps each call site as often as it occurs and drops everything else |
| ExpressParser.CallsAmongAppend | specorbit-backend/src/services/parser/express.parser.ts:33 | selecting calls keeps document order: the calls of a concatenation are those of each part in turn |
| ExpressParser.CallSitesExactly | specorbit-backend/src/services/parser/express.parser.ts:33 | the visited sites are every call of the file, each as often as it occurs and nothing else, statement after statement in document order |
| ExpressParser.ParamsAtMeaning | specorbit-backend/src/services/parser/express.parser.ts:106-121 | a node starting `<req>.params.` is a required path parameter and one starting `<req>.query.` an optional query parameter, each named by the text's third `.`-piece; no other node, and nothing without a `req` parameter, contributes one |
| ExpressParser.ParamsAtNamed | specorbit-backend/src/services/parser/express.parser.ts:108-120 | `req.params.id` is the required path parameter `id`, and `req.query.id` the optional query parameter `id` |
| ExpressParser.ResponsesAtMeaning | specorbit-backend/src/services/parser/express.parser.ts:125-135 | only a `<res>.status(arg, ...)` call contributes a response, with status `parseInt` of the argument's text; `res.status(404)` gives status 404 |
| ExpressParser.CollectParamsMembers | specorbit-backend/src/services/parser/express.parser.ts:104-122 | a parameter is collected exactly when some handler node contributes it |
| ExpressParser.CollectResponsesMembers | specorbit-backend/src/services/parser/express.parser.ts:124-136 | a response is collected exactly when some handler node contributes it |
| SpecService.Title | specorbit-backend/src/services/spec.service.ts:57 | the title is the project name, or `API Docs` when there is no project or its name is empty |
| SpecService.AddRoute | specorbit-backend/src/services/spec.service.ts:180-195 | one route adds its path as a key (created if missing), writes its lower-cased method's operation and leaves every other path and method unchanged |
| SpecService.GenerateOpenAPIJson | specorbit-backend/src/services/spec.service.ts:176-207 | the document is `openapi 3.0.0`, version `1.0.0`, the fixed description, the given title and the paths folded from all routes in order |
| SpecService.PathsKeys | specorbit-backend/src/services/spec.service.ts:179-180 | the keys of `paths` are exactly the routes' paths, verbatim |
| SpecService.PathsMethods | specorbit-backend/src/services/spec.service.ts:189 | under a path there is an operation exactly for the lower-cased methods of the routes with that path |
| SpecService.LastWriteWins | specorbit-backend/src/services/spec.service.ts:189-195 | the operation stored under a path and method is the one built from the last route with that path and method |
| SpecService.OperationShape | specorbit-backend/src/services/spec.service.ts:182-194 | an operation carries the route's parameters in order with a `string` schema, the single response `200: Success`, and the description or `<METHOD> <path>` as summary |
| SpecService.OperationIgnoresResponses | specorbit-backend/src/services/spec.service.ts:192-194 | the responses captured by the parser play no part in the document |
| SpecService.FallbackParsing | specorbit-backend/src/services/spec.service.ts:150-171 | the fallback returns the entry file's routes parsed as `app.ts`, and fails when the parse result has no readable routes |
| SpecService.ImportTarget | specorbit-backend/src/services/spec.service.ts:116-121 | a resolved import ends in `.ts` or `.js` and contains no backslash |
| SpecService.ImportTargetJoin | specorbit-backend/src/services/spec.service.ts:118-121 | the target is `dirname(current)` joined with the import, backslashes turned into slashes, kept as is when it ends in `.ts` or `.js` and given `.ts` otherwise |
| SpecService.TargetsExactly | specorbit-backend/src/services/spec.service.ts:115-121 | a file's targets are exactly the resolutions of its relative imports; package imports yield none |
| SpecService.EnqueueImports | specorbit-backend/src/services/spec.service.ts:115-126 | the waiting list keeps its order and gains, once each, the targets that are neither fetched nor already waiting |
| SpecService.Visit | specorbit-backend/src/services/spec.service.ts:90-129 | one iteration (skip, failed fetch, or fetch and enqueue) keeps the loop invariant and either grows the fetched set or shrinks the waiting list |
| SpecService.SkipKeeps | specorbit-backend/src/services/spec.service.ts:93-95 | skipping an already fetched path keeps the loop invariant |
| SpecService.FailureKeeps | specorbit-backend/src/services/spec.service.ts:99-103 | a failed fetch is recorded, caught, and keeps the loop invariant |
| SpecService.FetchKeeps | specorbit-backend/src/services/spec.service.ts:99-126 | a successful fetch followed by the enqueueing of its imports keeps the loop invariant |
| SpecService.WorklistDone | specorbit-backend/src/services/spec.service.ts:89-130 | when nothing is waiting, the entry was fetched first, the fetched set is closed under imports, and every attempt was the entry or an import of a file fetched by an earlier attempt |
| SpecService.FetchDependencies | specorbit-backend/src/services/spec.service.ts:77-133 | the loop ends; it fetches the entry first; fetched files are exactly the attempted paths the repository holds; every import of a fetched file is fetched unless missing; every attempt is the entry or an import of a file fetched by an earlier attempt, so the `k`-th attempt is reached from the entry within `k` imports; no path the repository holds is fetched twice |
| SpecService.AttemptsReachable | specorbit-backend/src/services/spec.service.ts:84-126 | attempts each made on the entry or on an import of an earlier fetched file reach only files the entry reaches through imports, the `k`-th within `k` steps, so files the entry does not reach, even ones that import each other, are never attempted |
| SpecService.LatestSpec | specorbit-backend/src/services/spec.service.ts:212-217 | none exactly when the project has no stored document; otherwise one of the project's documents with the latest creation time |
| AuthService.GenerateTokens | specorbit-backend/src/services/auth.service.ts:23-37 | the access token carries the user and team for `15m`; the refresh token carries the user only, for `7d` |
| AuthService.OmitPasswordExactly | specorbit-backend/src/services/auth.service.ts:40-43 | dropping the hash loses nothing else: putting the hash back gives the user, and users differing only in the hash look the same |
| AuthService.FindByEmail | specorbit-backend/src/services/auth.service.ts:47-50 | the lookup finds a user with that email exactly when one exists |
| AuthService.FindByGithubId | specorbit-backend/src/services/auth.service.ts:85-87 | the lookup finds a user with that GitHub id exactly when one exists |
| AuthService.RegisterRules | specorbit-backend/src/services/auth.service.ts:46-63 | a taken email throws `User already exists` and leaves the table unchanged; otherwise exactly one user is added with the hash of the password, and the answer omits it and carries tokens for the new id without a team |
| AuthService.RegisterKeepsTable | specorbit-backend/src/services/auth.service.ts:46-63 | registration keeps ids, emails and GitHub ids unique |
| AuthService.LoginRules | specorbit-backend/src/services/auth.service.ts:66-78 | login succeeds exactly for a stored email with a non-empty hash the password matches, answering that user; unknown email, a missing or empty hash and a wrong password all fail with `Invalid credentials` |
| AuthService.RegisterThenLogin | specorbit-backend/src/services/auth.service.ts:52-77 | a user who registers can log in with the same password, answered exactly as registration answered, when the hash is non-empty and matches; an empty hash locks the user out |
| AuthService.GithubEmail | specorbit-backend/src/services/auth.service.ts:82 | the first profile email when it is non-empty, else `<id>@users.noreply.github.com`; later emails are never read |
| AuthService.GithubLoginPrecedence | specorbit-backend/src/services/auth.service.ts:85-117 | a GitHub-id match is answered unchanged, as that user without its password and with team-less tokens for its id, and with unique GitHub ids that user is the one matched; else an email match is linked in place with no user added and the linked user answered; else exactly one password-less user is created, named by the display name or the username, and answered the same way |
| AuthService.GithubLoginKeepsTable | specorbit-backend/src/services/auth.service.ts:85-117 | GitHub login keeps ids, emails and GitHub ids unique |
| AuthService.GithubLoginIdempotent | specorbit-backend/src/services/auth.service.ts:80-121 | a second GitHub login with the same profile answers the same and changes nothing |
| AuthService.UserStore.Login | specorbit-backend/src/services/auth.service.ts:66-78 | reads the table only and answers as `LoginOutcome`, refusing a missing or empty hash; every failure is `Invalid credentials` |
| AuthService.UserStore.Register | specorbit-backend/src/services/auth.service.ts:46-63 | the new table and the answer are those of `RegisterOutcome`, and the table stays valid |
| AuthService.UserStore.GithubLogin | specorbit-backend/src/services/auth.service.ts:80-121 | the new table and the answer are those of `GithubLoginOutcome`, and the table stays valid |
| ProjectController.ParseCreate | specorbit-backend/src/controllers/project.controller.ts:7-15 | creation data exists exactly when the name is a non-empty string and every other field passes its schema |
| ProjectController.ParsePatch | specorbit-backend/src/controllers/project.controller.ts:17 | update data exists exactly when the name, if present, is non-empty and every other field passes its schema |
| ProjectController.CreateValidation | specorbit-backend/src/controllers/project.controller.ts:7-15 | a missing or empty name, a non-URL base URL and an unknown language are refused; a missing language becomes `javascript` |
| ProjectController.PatchWeakerThanCreate | specorbit-backend/src/controllers/project.controller.ts:17 | what creation accepts, update accepts, with the same fields and no default language; a body without a name is accepted only by update |
| ProjectController.SlugShape | specorbit-backend/src/controllers/project.controller.ts:52 | the slug has no space and no upper-case letter, turns each space of the name into `-` and keeps every other character lower-cased, and ends in `-` and the creation time, which reads back unchanged |
| ProjectController.OrDefault | specorbit-backend/src/controllers/project.controller.ts:60-61 | a missing or empty branch or entry path takes the default, anything else is kept |
| ProjectController.PatchRules | specorbit-backend/src/controllers/project.controller.ts:118-121 | an update keeps id, team and slug; each of the seven fields takes the patched value when present and keeps the old one otherwise; applying it twice is applying it once; an empty patch changes nothing but `updatedAt` |
| ProjectController.PrincipalOf | specorbit-backend/src/controllers/project.controller.ts:29 | the caller's team is the access token's team claim |
| ProjectController.TeamProjects | specorbit-backend/src/controllers/project.controller.ts:29 | the filter selects exactly the stored projects of the caller's team, or every stored project when the team is `undefined` |
| ProjectController.TeamlessFilterKeepsAll | specorbit-backend/src/controllers/project.controller.ts:29 | with an `undefined` team the filter keeps the whole table in order |
| ProjectController.InsertKeepsOrder | specorbit-backend/src/controllers/project.controller.ts:30 | inserting into a newest-first list keeps it newest-first |
| ProjectController.InsertAddsOne | specorbit-backend/src/controllers/project.controller.ts:30 | insertion adds exactly the one project |
| ProjectController.SortNewestFirst | specorbit-backend/src/controllers/project.controller.ts:30 | ordering by `updatedAt` descending yields a newest-first permutation |
| ProjectController.ListRules | specorbit-backend/src/controllers/project.controller.ts:22-40 | 401 exactly without a user; otherwise the projects the team filter selects (the caller's team's, or every project for a caller without a team), each as often as stored, newest first |
| ProjectController.GetOneRules | specorbit-backend/src/controllers/project.controller.ts:78-98 | 200 with the stored project exactly when it exists and its team equals the caller's; otherwise the same 404 for a missing project, no user, another team or no team |
| ProjectController.ListedIffReadable | specorbit-backend/src/controllers/project.controller.ts:28-34 | a caller with a team can read a project exactly when the listing shows it; a caller without a team is shown every project and can read none |
| ProjectController.SignedInCallerHasNoTeam | specorbit-backend/src/controllers/project.controller.ts:28-34 | a caller signed in by the account service has no team, is listed every stored project and gets 404 for each one |
| ProjectController.CreateRules | specorbit-backend/src/controllers/project.controller.ts:43-75 | 401 without a user, 400 on invalid data and 500 for a caller without a team, storing nothing; otherwise one project in the caller's team with slug and defaults, which the creator can read back |
| ProjectController.UpdateRules | specorbit-backend/src/controllers/project.controller.ts:101-131 | 401, then 400, then 404 for a missing or foreign project or a caller without a team, each writing nothing; otherwise only that project changes, and reading it back gives the answer |
| ProjectController.ProjectTable.List | specorbit-backend/src/controllers/project.controller.ts:22-40 | the loop and sort answer exactly `ListOutcome` |
| ProjectController.ProjectTable.GetOne | specorbit-backend/src/controllers/project.controller.ts:78-98 | answers exactly `GetOneOutcome` |
| ProjectController.ProjectTable.Create | specorbit-backend/src/controllers/project.controller.ts:43-75 | the new table and the answer are those of `CreateOutcome`, and ids stay positions |
| ProjectController.ProjectTable.Update | specorbit-backend/src/controllers/project.controller.ts:101-131 | the new table and the answer are those of `UpdateOutcome`, and ids stay positions |
| SchedulerService.DefaultIntervalMs | specorbit-backend/src/services/scheduler.service.ts:5 | the configured interval, or fifteen minutes when it is unset, not a number or zero |
| SchedulerService.FirstFailure | specorbit-backend/src/services/scheduler.service.ts:39-41 | the position of the first project whose job fails, every earlier one succeeding |
| SchedulerService.EnqueuePassRules | specorbit-backend/src/services/scheduler.service.ts:35-45 | a pass asks for jobs for the listed projects in listing order, stops after the first failure and swallows it, and queues every project exactly once when nothing fails; a failed listing queues nothing |
| SchedulerService.StateMachineRules | specorbit-backend/src/services/scheduler.service.ts:11-29 | a timer is registered exactly while running; starting twice is starting once; stopping twice is stopping once; stopping a started scheduler clears the timer start registered |
| SchedulerService.Scheduler.Start | specorbit-backend/src/services/scheduler.service.ts:11-21 | a no-op while running; else registers the timer, sets `running` and runs one pass |
| SchedulerService.Scheduler.StartDefault | specorbit-backend/src/services/scheduler.service.ts:11 | `start()` without an argument behaves as `Start` with the configured default interval |
| SchedulerService.Scheduler.Stop | specorbit-backend/src/services/scheduler.service.ts:23-29 | a no-op while stopped; else clears the timer, sets `intervalId` to null and `running` to false |
| SchedulerService.Scheduler.IsRunning | specorbit-backend/src/services/scheduler.service.ts:31-33 | answers the `running` flag, which holds exactly while a timer is registered |
| SchedulerService.Scheduler.Tick | specorbit-backend/src/services/scheduler.service.ts:16 | a firing of the registered timer runs one pass and changes nothing else |
| SchedulerService.Scheduler.EnqueueAllProjects | specorbit-backend/src/services/scheduler.service.ts:35-45 | the loop asks for exactly the jobs of `EnqueuePass` and leaves the flag and timer alone |
| SchedulerService.Scheduler.RunOnce | specorbit-backend/src/services/scheduler.service.ts:47-49 | exactly one pass |
| GitHubService.CleanRepoUrl | specorbit-backend/src/services/github.service.ts:9 | the cleaned reference is a suffix of the input |
| GitHubService.CleanRepoUrlRules | specorbit-backend/src/services/github.service.ts:9 | `https://github.com/`, `http://github.com/` and `github.com/` are each removed from the front |
| GitHubService.BareReference | specorbit-backend/src/services/github.service.ts:9 | an `owner/...` reference is unchanged by cleaning |
| GitHubService.ParseRepoRef | specorbit-backend/src/services/github.service.ts:10 | owner and repository contain no `/` |
| GitHubService.OwnerRepoPieces | specorbit-backend/src/services/github.service.ts:10 | the first two `/`-separated pieces of `owner/repo`, or of `owner/repo/` followed by anything, are the owner and the repository |
| GitHubService.ParseRepoRefRoundTrip | specorbit-backend/src/services/github.service.ts:9-10 | the owner and repository are read back from a reference naming them with any of the three prefixes or none, whether it ends at the repository or goes on with a `/` |
| GitHubService.AddressesNameTheRepo | specorbit-backend/src/services/github.service.ts:9-11 | for a reference in any of the four accepted forms, ending at the repository or going on with a `/`, the archive address is `https://api.github.com/repos/<owner>/<repo>/zipball/<branch>` and the contents address `.../contents/<filePath>?ref=<branch>` |
| GitHubService.MissingRepo | specorbit-backend/src/services/github.service.ts:10-11 | a reference without `/` has no repository, and the address shows `undefined` in its place |
| GitHubService.DownloadRepo | specorbit-backend/src/services/github.service.ts:8-34 | the destination joined with the archive's first entry, exactly when the download succeeds with a non-empty archive; otherwise the single message `Failed to fetch source code from GitHub.` |
| GitHubService.FetchSourceCode | specorbit-backend/src/services/github.service.ts:36-49 | the body of the request to the contents address; a failure propagates |

## Left out

- Parsing TypeScript, `getDescendantsOfKind`, `getJsDocs` and `trim()`: the syntax tree is a datatype, and each statement carries its JSDoc description as given text.
- Node text: `Text` prints a node canonically, as `req.params.id`, where the source's `getText()` keeps the file's own spacing, line breaks and comments. A property access written across lines, such as `req` followed by `.params.id` on the next line, fails the source's prefix test but contributes a parameter in the model.
- Nested statements: statements nest only as the bodies of function expressions. A block inside another statement (an `if`, a loop) is an `Other` node with bare child nodes, so a route declared inside it takes the description of the enclosing top-level statement, where the source takes that of its nearest enclosing statement.
- ExpressParser.ExtractRouteInfo: an exception inside the syntax-tree library is the boolean `extractionFails` per call, not derived from the tree.
- `parseInt` is modelled on decimal digits after an optional sign. Hexadecimal prefixes, leading white space and numeric separators are not modelled.
- `toUpperCase`/`toLowerCase` are modelled on ASCII letters only. Other Unicode letters are kept unchanged.
- `JSON.stringify`-based de-duplication is modelled as structural equality of parameters. This is the same for the `{name, in, required}` records the parser builds.
- SpecService.GenerateOpenAPIJson: a route path that names a property every JavaScript object has (such as `constructor`) is treated like any other key. In the source the `!paths[p]` test sees the inherited property.
- `generateAndSave`'s orchestration is not modelled: the temp directory, the `try/catch/finally`, the Prisma reads and the insert of the document.
- The recursive walker, mount-prefix concatenation and the rewriting of `:id` to `{id}` are not modelled. The service calls a `parseFile` this parser lacks.
- SpecService.FetchDependencies: a fetch succeeds exactly for the paths in `repo`. Writing the fetched file to disk is not modelled.
- SpecService.LatestSpec: among documents created at the same instant, the model takes the first in table order. The database guarantees no particular one.
- Accounts:
  - User ids are table positions, not generated strings.
  - Prisma columns the service does not touch are not modelled.
  - bcrypt and jwt signing are opaque: a token is its claims and lifetime.
  - The secrets are not modelled.
- Projects:
  - Project ids are table positions, and a request's `:id` is a position.
  - `updatedAt` is stamped with `now` on each write.
  - `list`'s `_count` and `getOne`'s included latest document are not modelled.
  - Database failures are not modelled, except one. A create by a caller without a team answers 500 and stores nothing. This assumes the team column is required, as the seed script gives every project a team; the Prisma schema is not part of this model.
  - Zod's error text is not modelled.
- Scheduler:
  - The timer's own behaviour is not modelled: a firing is the method `Tick`.
  - `start`'s fire-and-forget pass runs to completion inside `Start`, rather than concurrently with the caller.
  - SchedulerService.DefaultIntervalMs: the configured interval is read as an integer; `Number` of the environment value can give a fraction, which the model cannot hold.
  - The Redis/Bull queue behind `addDriftJob` is not modelled, nor is logging.
- GitHub:
  - HTTP, the `Authorization` header, zip extraction and the file system are not modelled.
  - GitHubService.ParseRepoRefRoundTrip and GitHubService.AddressesNameTheRepo assume an owner without `:` or `.`, as GitHub account names are.
- Drift detection, the queue, the HTTP glue (middleware, controllers other than projects, routes, `app.ts`) and the frontend are not part of this model.
