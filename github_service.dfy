/** The GitHub service: reading an owner and repository out of a repository reference and
    building the API addresses of its archive and of one file.

    The HTTP requests and the unzipping are the parameters `fetchArchive` (the archive's
    entry names, or `None` when the request or the unzip throws) and `fetchFile`. */
module GitHubService {
  import opened Options
  import opened Strings
  import opened Paths

  /** `repoUrl.replace(/^(https?:\/\/)?github\.com\//, '')`: one leading
      `http://github.com/`, `https://github.com/` or `github.com/` is removed. */
  function CleanRepoUrl(url: string): (cleaned: string)
    ensures |cleaned| <= |url| && cleaned == url[|url| - |cleaned|..]
  {
    if StartsWith(url, "https://github.com/") then url[19..]
    else if StartsWith(url, "http://github.com/") then url[18..]
    else if StartsWith(url, "github.com/") then url[11..]
    else url
  }

  /** Each of the three accepted prefixes is removed, only at the start. */
  lemma CleanRepoUrlRules(rest: string)
    ensures CleanRepoUrl("https://github.com/" + rest) == rest
    ensures CleanRepoUrl("http://github.com/" + rest) == rest
    ensures CleanRepoUrl("github.com/" + rest) == rest
  {
    CleanHttps(rest);
    CleanHttp(rest);
    CleanBare(rest);
  }

  lemma CleanHttps(rest: string)
    ensures CleanRepoUrl("https://github.com/" + rest) == rest
  {
    var a := "https://github.com/" + rest;
    assert a[..19] == "https://github.com/" && a[19..] == rest;
  }

  lemma CleanHttp(rest: string)
    ensures CleanRepoUrl("http://github.com/" + rest) == rest
  {
    var b := "http://github.com/" + rest;
    assert b[4] == ':' && "https://github.com/"[4] == 's';
    assert b[..18] == "http://github.com/" && b[18..] == rest;
  }

  lemma CleanBare(rest: string)
    ensures CleanRepoUrl("github.com/" + rest) == rest
  {
    var c := "github.com/" + rest;
    assert c[0] == 'g' && "https://github.com/"[0] == 'h' && "http://github.com/"[0] == 'h';
    assert c[..11] == "github.com/" && c[11..] == rest;
  }

  /** A reference whose first piece is `owner` does not start with a prefix whose first
      `/` comes after a character the owner lacks. */
  lemma NotPrefixed(owner: string, tail: string, prefix: string, k: nat)
    requires '/' !in owner
    requires |tail| > |owner| && tail[..|owner|] == owner && tail[|owner|] == '/'
    requires k < |prefix| && prefix[k] !in owner && '/' !in prefix[..k + 1]
    ensures !StartsWith(tail, prefix)
  {
  }

  /** An `owner/...` reference is kept as it is, for owners without `:` or `.` (which
      GitHub account names never contain). */
  lemma BareReference(owner: string, tail: string)
    requires '/' !in owner && ':' !in owner && '.' !in owner
    requires |tail| > |owner| && tail[..|owner|] == owner && tail[|owner|] == '/'
    ensures CleanRepoUrl(tail) == tail
  {
    var https := "https://github.com/";
    assert https[5] == ':' && https[..6] == "https:";
    NotPrefixed(owner, tail, https, 5);
    var http := "http://github.com/";
    assert http[4] == ':' && http[..5] == "http:";
    NotPrefixed(owner, tail, http, 4);
    var bare := "github.com/";
    assert bare[6] == '.' && bare[..7] == "github.";
    NotPrefixed(owner, tail, bare, 6);
  }

  /** The owner and repository: the first two `/`-separated pieces of the cleaned
      reference; a missing repository is JavaScript's `undefined`. */
  datatype RepoRef = RepoRef(owner: string, repo: Option<string>)

  function ParseRepoRef(url: string): (r: RepoRef)
    ensures '/' !in r.owner
    ensures r.repo.Some? ==> '/' !in r.repo.value
  {
    var parts := Split(CleanRepoUrl(url), '/');
    RepoRef(parts[0], if |parts| > 1 then Some(parts[1]) else None)
  }

  /** A template string shows `undefined` for a missing value. */
  function Show(value: Option<string>): string {
    value.GetOr("undefined")
  }

  /** The repository-archive address of `downloadRepo`. */
  function ArchiveUrl(url: string, branch: string): string {
    var r := ParseRepoRef(url);
    "https://api.github.com/repos/" + r.owner + "/" + Show(r.repo) + "/zipball/" + branch
  }

  /** The file-contents address of `fetchSourceCode`. */
  function ContentsUrl(url: string, branch: string, filePath: string): string {
    var r := ParseRepoRef(url);
    "https://api.github.com/repos/" + r.owner + "/" + Show(r.repo) + "/contents/" + filePath + "?ref=" + branch
  }

  /** The owner and repository are read back from any reference naming them, in each of
      the accepted forms, whether the reference ends at the repository (`owner/repo`) or
      goes on with a `/` (`owner/repo/tree/main`). */
  lemma ParseRepoRefRoundTrip(owner: string, repo: string, rest: string)
    requires '/' !in owner && ':' !in owner && '.' !in owner && '/' !in repo
    requires rest == "" || rest[0] == '/'
    ensures var tail := owner + "/" + repo + rest;
      && ParseRepoRef("https://github.com/" + tail) == RepoRef(owner, Some(repo))
      && ParseRepoRef("http://github.com/" + tail) == RepoRef(owner, Some(repo))
      && ParseRepoRef("github.com/" + tail) == RepoRef(owner, Some(repo))
      && ParseRepoRef(tail) == RepoRef(owner, Some(repo))
  {
    var tail := owner + "/" + repo + rest;
    OwnerRepoPieces(owner, repo, rest);
    CleanRepoUrlRules(tail);
    assert tail[..|owner|] == owner;
    BareReference(owner, tail);
  }

  /** Both addresses name the owner and repository the reference names, in each accepted
      form and whether or not anything follows the repository. */
  lemma AddressesNameTheRepo(owner: string, repo: string, rest: string, branch: string, filePath: string)
    requires '/' !in owner && ':' !in owner && '.' !in owner && '/' !in repo
    requires rest == "" || rest[0] == '/'
    ensures var tail := owner + "/" + repo + rest;
      NamesTheRepo("https://github.com/" + tail, owner, repo, branch, filePath)
    ensures var tail := owner + "/" + repo + rest;
      NamesTheRepo("http://github.com/" + tail, owner, repo, branch, filePath)
    ensures var tail := owner + "/" + repo + rest;
      NamesTheRepo("github.com/" + tail, owner, repo, branch, filePath)
    ensures NamesTheRepo(owner + "/" + repo + rest, owner, repo, branch, filePath)
  {
    var tail := owner + "/" + repo + rest;
    ParseRepoRefRoundTrip(owner, repo, rest);
    AddressesOf("https://github.com/" + tail, owner, repo, branch, filePath);
    AddressesOf("http://github.com/" + tail, owner, repo, branch, filePath);
    AddressesOf("github.com/" + tail, owner, repo, branch, filePath);
    AddressesOf(tail, owner, repo, branch, filePath);
  }

  /** The archive address is `https://api.github.com/repos/<owner>/<repo>/zipball/<branch>`
      and the contents address `.../contents/<filePath>?ref=<branch>`. */
  ghost predicate NamesTheRepo(url: string, owner: string, repo: string, branch: string, filePath: string) {
    && ArchiveUrl(url, branch) == "https://api.github.com/repos/" + owner + "/" + repo + "/zipball/" + branch
    && ContentsUrl(url, branch, filePath) ==
         "https://api.github.com/repos/" + owner + "/" + repo + "/contents/" + filePath + "?ref=" + branch
  }

  /** The addresses of a reference that parses to `owner` and `repo`. */
  lemma AddressesOf(url: string, owner: string, repo: string, branch: string, filePath: string)
    requires ParseRepoRef(url) == RepoRef(owner, Some(repo))
    ensures NamesTheRepo(url, owner, repo, branch, filePath)
  {
  }

  /** Splitting `owner/repo` or `owner/repo/...` yields the owner and the repository first. */
  lemma OwnerRepoPieces(owner: string, repo: string, rest: string)
    requires '/' !in owner && '/' !in repo
    requires rest == "" || rest[0] == '/'
    ensures var parts := Split(owner + "/" + repo + rest, '/');
      |parts| > 1 && parts[0] == owner && parts[1] == repo
  {
    if rest == "" {
      assert owner + "/" + repo + rest == owner + "/" + repo;
      OwnerRepoOnly(owner, repo);
    } else {
      var more := rest[1..];
      assert rest == "/" + more;
      assert owner + "/" + repo + rest == owner + "/" + repo + "/" + more;
      OwnerRepoMore(owner, repo, more);
    }
  }

  lemma OwnerRepoOnly(owner: string, repo: string)
    requires '/' !in owner && '/' !in repo
    ensures Split(owner + "/" + repo, '/') == [owner, repo]
  {
    assert owner + "/" + repo == owner + ['/'] + repo;
    SplitCons(owner, '/', repo);
    SplitNone(repo, '/');
  }

  lemma OwnerRepoMore(owner: string, repo: string, more: string)
    requires '/' !in owner && '/' !in repo
    ensures var parts := Split(owner + "/" + repo + "/" + more, '/');
      |parts| > 1 && parts[0] == owner && parts[1] == repo
  {
    var tail := repo + "/" + more;
    assert owner + "/" + repo + "/" + more == owner + ['/'] + tail;
    SplitCons(owner, '/', tail);
    assert tail == repo + ['/'] + more;
    SplitCons(repo, '/', more);
  }

  /** Without a `/` after the cleaning there is no repository, and both addresses carry
      `undefined` in its place. */
  lemma MissingRepo(url: string, branch: string)
    requires '/' !in CleanRepoUrl(url)
    ensures ParseRepoRef(url) == RepoRef(CleanRepoUrl(url), None)
    ensures ArchiveUrl(url, branch) == "https://api.github.com/repos/" + CleanRepoUrl(url) + "/undefined/zipball/" + branch
  {
    var cleaned := CleanRepoUrl(url);
    SplitLength(cleaned, '/');
    CountNone(cleaned, '/');
    JoinSplit(cleaned, '/');
  }

  datatype Download = Extracted(path: string) | Failed(message: string)

  /** `downloadRepo`: the folder the archive's first entry names, under `destination`; a
      failed request or unzip, or an empty archive, is the one error message. */
  function DownloadRepo(url: string, branch: string, destination: string,
                        fetchArchive: string -> Option<seq<string>>): (d: Download)
    ensures d.Failed? ==> d.message == "Failed to fetch source code from GitHub."
    ensures d.Extracted? <==> fetchArchive(ArchiveUrl(url, branch)).Some? && |fetchArchive(ArchiveUrl(url, branch)).value| > 0
    ensures d.Extracted? ==> d.path == PathJoin(destination, fetchArchive(ArchiveUrl(url, branch)).value[0])
  {
    var entries := fetchArchive(ArchiveUrl(url, branch));
    if entries.None? || |entries.value| == 0 then Failed("Failed to fetch source code from GitHub.")
    else Extracted(PathJoin(destination, entries.value[0]))
  }

  /** `fetchSourceCode`: the body of the contents request; its failure propagates. */
  function FetchSourceCode(url: string, branch: string, filePath: string,
                           fetchFile: string -> Option<string>): (body: Option<string>)
    ensures body == fetchFile(ContentsUrl(url, branch, filePath))
  {
    fetchFile(ContentsUrl(url, branch, filePath))
  }
}
