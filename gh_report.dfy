/**
 * The GitHub exporter's rows and summaries (gh_export.py:52-202): the
 * searches and listings built on `paginate`, the shaping of PR, issue,
 * review and commit rows, `add_row` with its per-category summary, and the
 * per-repository rollup of the Markdown summary.
 */
module GhReport {
  import opened Wrappers
  import opened Text
  import opened IsoTime
  import opened Tally
  import opened GhFetch

  const Api := "https://api.github.com"

  datatype Category = PR | Commit | Issue | Review

  /**
   * A row of the unified CSV. `extra` holds the category's own columns
   * (state, merged, labels, ...); the CSV writer leaves the others empty.
   */
  datatype Row = Row(
    category: Category, repo: string, id: string,
    titleOrMessage: string, url: string, createdAt: string,
    extra: map<string, string>)

  /** The arguments of one `add_row` call; a None title or URL is a JSON null. */
  datatype RowArgs = RowArgs(
    category: Category, repo: string, id: string,
    title: Option<string>, url: Option<string>, createdAt: string,
    extra: map<string, string>)

  /** The row `add_row` builds: null title and URL become "", the creation time goes through `iso`. */
  function MakeRow(a: RowArgs): Row {
    Row(a.category, a.repo, a.id, a.title.GetOr(""), a.url.GetOr(""), Iso(a.createdAt), a.extra)
  }

  /** A row keeps the call's text, with "" in place of null, and a normalised creation time. */
  lemma MakeRowShape(a: RowArgs)
    ensures var r := MakeRow(a);
      && (a.title.None? ==> r.titleOrMessage == "") && (a.title.Some? ==> r.titleOrMessage == a.title.value)
      && (a.url.None? ==> r.url == "") && (a.url.Some? ==> r.url == a.url.value)
      && (a.createdAt == "" ==> r.createdAt == "")
      && (ParseIso(a.createdAt).None? ==> r.createdAt == a.createdAt)
      && (ParseIso(a.createdAt).Some? ==> IsCanonical(r.createdAt) && ParseIso(r.createdAt) == ParseIso(a.createdAt))
  {
    IsoShape(a.createdAt);
    IsoEmpty(a.createdAt);
  }

  function Categories(rows: seq<Row>): (cs: seq<Category>)
    ensures |cs| == |rows| && forall i :: 0 <= i < |rows| ==> cs[i] == rows[i].category
  {
    seq(|rows|, i requires 0 <= i < |rows| => rows[i].category)
  }

  /** The rows collected so far and the `summary` counters `add_row` keeps (gh_export.py:101-116). */
  class Report {
    var rows: seq<Row>
    var summary: map<Category, nat>

    /** Every category has a counter, and it counts that category's rows. */
    predicate Valid()
      reads this
    {
      forall c: Category :: c in summary && summary[c] == Count(Categories(rows), c)
    }

    constructor()
      ensures rows == [] && summary == map[PR := 0, Commit := 0, Issue := 0, Review := 0]
      ensures Valid()
    {
      rows := [];
      summary := map[PR := 0, Commit := 0, Issue := 0, Review := 0];
      new;
      assert Categories(rows) == [];
      forall c: Category ensures c in summary && summary[c] == 0 {
        match c {
          case PR =>
          case Commit =>
          case Issue =>
          case Review =>
        }
      }
    }

    /** `add_row`: one more row, and one more for its category. */
    method AddRow(a: RowArgs)
      requires Valid()
      modifies this
      ensures rows == old(rows) + [MakeRow(a)]
      ensures summary == old(summary)[a.category := old(summary)[a.category] + 1]
      ensures Valid()
    {
      summary := summary[a.category := summary[a.category] + 1];
      ghost var before := rows;
      rows := rows + [MakeRow(a)];
      assert Categories(rows)[..|before|] == Categories(before);
    }
  }

  // ------------------------------------------------------------ repository names

  predicate HasPrefix(s: string, p: string) {
    |p| <= |s| && s[..|p|] == p
  }

  /**
   * The parameters `urlparse` splits off a path for the `http`, `https` and
   * scheme-less URLs: everything from the first `;` of the last segment on.
   */
  function DropParams(p: string): (r: string)
    ensures |r| <= |p| && r == p[..|r|]
    ensures ';' !in p ==> r == p
    ensures |r| < |p| ==> p[|r|] == ';' && '/' !in p[|r|..]
  {
    LastPartIsSuffix(p, '/');
    var last := LastPart(p, '/');
    var head := p[..|p| - |last|];
    var keep := FirstPart(last, ';');
    ParamsCut(p, head, last, keep, head + keep);
    head + keep
  }

  /** Every `;` of `r` has a `/` after it: its last segment carries no parameters. */
  predicate NoParamsLeft(r: string) {
    forall k :: 0 <= k < |r| && r[k] == ';' ==> '/' in r[k..]
  }

  /** What DropParams keeps holds a `;` only before some `/`: no parameters are left on its last segment. */
  lemma KeptHasNoParams(p: string)
    ensures NoParamsLeft(DropParams(p))
  {
    var head, last, keep := ParamsPieces(p);
    ParamsCut(p, head, last, keep, DropParams(p));
  }

  /** The pieces DropParams works with: the path up to its last `/`, the last segment, and what it keeps of that. */
  lemma ParamsPieces(p: string) returns (head: string, last: string, keep: string)
    ensures p == head + last && '/' !in last && (head == [] || head[|head| - 1] == '/')
    ensures |keep| <= |last| && keep == last[..|keep|] && ';' !in keep
    ensures |keep| < |last| ==> last[|keep|] == ';'
    ensures (';' !in last ==> keep == last) && DropParams(p) == head + keep
  {
    LastPartIsSuffix(p, '/');
    last := LastPart(p, '/');
    head := p[..|p| - |last|];
    keep := FirstPart(last, ';');
  }

  /** The cut of DropParams falls after the last `/`, at a `;`. */
  lemma ParamsCut(p: string, head: string, last: string, keep: string, r: string)
    requires p == head + last && '/' !in last && (head == [] || head[|head| - 1] == '/')
    requires |keep| <= |last| && keep == last[..|keep|] && ';' !in keep
    requires |keep| < |last| ==> last[|keep|] == ';'
    requires (';' !in last ==> keep == last) && r == head + keep
    ensures |r| <= |p| && r == p[..|r|]
    ensures ';' !in p ==> r == p
    ensures |r| < |p| ==> p[|r|] == ';' && '/' !in p[|r|..]
    ensures NoParamsLeft(r)
  {
    assert p[|head|..] == last;
    if |r| < |p| {
      assert p[|r|..] == last[|keep|..];
    }
    forall k | 0 <= k < |r| && r[k] == ';' ensures '/' in r[k..] {
      if k >= |head| {
        assert false;
      }
      assert r[|head| - 1] == '/';
      assert r[k..][|head| - 1 - k] == '/';
    }
  }

  /** `urlparse(u).path` before its parameters are split off. */
  function HostPath(u: string): string {
    var v := FirstPart(FirstPart(u, '#'), '?');
    var rest := if HasPrefix(v, "https://") then v[8..] else if HasPrefix(v, "http://") then v[7..] else v;
    if HasPrefix(v, "https://") || HasPrefix(v, "http://") then rest[|FirstPart(rest, '/')|..] else v
  }

  /**
   * `urlparse(u).path` for the URLs the API returns: the query and fragment
   * are cut off, after an `http://` or `https://` scheme the host is dropped
   * up to the first `/`, and the last segment's `;params` are cut off.
   */
  function UrlPath(u: string): string {
    DropParams(HostPath(u))
  }

  /** `split("/")[-2:]`: the last two parts, or all of them when there are fewer. */
  function LastTwo(parts: seq<string>): (r: seq<string>)
    ensures |r| == if |parts| < 2 then |parts| else 2
    ensures r == parts[|parts| - |r|..]
  {
    if |parts| < 2 then parts else parts[|parts| - 2..]
  }

  /** The path segments of a URL, outer slashes stripped. */
  function PathSegments(u: string): seq<string> {
    Split(StripChar(UrlPath(u), '/'), '/')
  }

  /** `"/".join(urlparse(u).path.strip("/").split("/")[-2:])`. */
  function RepoFull(u: string): string {
    Join(LastTwo(PathSegments(u)), '/')
  }

  /** The name holds exactly the last two path segments (or the only one): splitting it gives them back. */
  lemma RepoFullSegments(u: string)
    ensures Split(RepoFull(u), '/') == LastTwo(PathSegments(u))
    ensures |Split(RepoFull(u), '/')| <= 2
  {
    var segs := PathSegments(u);
    var two := LastTwo(segs);
    forall p <- two ensures '/' !in p {
      assert p in segs;
    }
    if |two| == 0 {
      assert false;
    }
    SplitJoin(two, '/');
  }

  /** A path segment without URL delimiters. */
  predicate Plain(s: string) {
    s != "" && '/' !in s && '?' !in s && '#' !in s && ';' !in s
  }

  function ApiRepoUrl(owner: string, name: string): string {
    Api + "/repos/" + owner + "/" + name
  }

  /** The path of an `https` URL without query, fragment or parameters is everything from the first `/` after the host. */
  lemma HttpsPath(host: string, path: string)
    requires '/' !in host && '#' !in host && '?' !in host
    requires '#' !in path && '?' !in path && ';' !in path && path != [] && path[0] == '/'
    ensures UrlPath("https://" + host + path) == path
  {
    HttpsRawPath(host, path);
  }

  /** Parameters after the last segment are dropped: the path is what precedes the `;`. */
  lemma ParamsDropped(path: string, params: string)
    requires ';' !in path && '/' !in params
    ensures DropParams(path + ";" + params) == path
  {
    var p := path + ";" + params;
    var r := DropParams(p);
    KeptHasNoParams(p);
    assert p[|path|] == ';';
    assert |r| == |path|;
  }

  /** The `https` part of `urlparse`: after the host comes the path, less its parameters. */
  lemma HttpsRawPath(host: string, path: string)
    requires '/' !in host && '#' !in host && '?' !in host
    requires '#' !in path && '?' !in path && path != [] && path[0] == '/'
    ensures UrlPath("https://" + host + path) == DropParams(path)
  {
    HttpsHostPath(host, path);
  }

  lemma HttpsHostPath(host: string, path: string)
    requires '/' !in host && '#' !in host && '?' !in host
    requires '#' !in path && '?' !in path && path != [] && path[0] == '/'
    ensures HostPath("https://" + host + path) == path
  {
    var u := "https://" + host + path;
    assert '#' !in "https://" && '?' !in "https://";
    assert FirstPart(FirstPart(u, '#'), '?') == u;
    assert HasPrefix(u, "https://");
    var rest := u[8..];
    assert rest == host + ['/'] + path[1..];
    SplitAppend(host, path[1..], '/');
    assert FirstPart(rest, '/') == host;
    assert rest[|host|..] == path;
  }

  lemma ApiUrlPath(owner: string, name: string)
    requires Plain(owner) && Plain(name)
    ensures UrlPath(ApiRepoUrl(owner, name)) == "/repos/" + owner + "/" + name
  {
    var path := "/repos/" + owner + "/" + name;
    assert ApiRepoUrl(owner, name) == "https://" + "api.github.com" + path;
    RepoPathDelimiters(owner, name);
    HttpsPath("api.github.com", path);
  }

  /** `;params` after an API repository URL do not reach the path. */
  lemma ApiUrlParams(owner: string, name: string, params: string)
    requires Plain(owner) && Plain(name)
    requires '/' !in params && '#' !in params && '?' !in params
    ensures UrlPath(ApiRepoUrl(owner, name) + ";" + params) == "/repos/" + owner + "/" + name
  {
    var path := "/repos/" + owner + "/" + name;
    ParamsUrl(owner, name, params);
    RepoPathDelimiters(owner, name);
    assert '#' !in ";" && '?' !in ";";
    HttpsRawPath("api.github.com", path + ";" + params);
    ParamsDropped(path, params);
  }

  lemma ParamsUrl(owner: string, name: string, params: string)
    ensures ApiRepoUrl(owner, name) + ";" + params
         == "https://" + "api.github.com" + ("/repos/" + owner + "/" + name + ";" + params)
  {
  }

  /** An API repository path of plain names starts with `/` and holds no `#`, `?` or `;`. */
  lemma RepoPathDelimiters(owner: string, name: string)
    requires Plain(owner) && Plain(name)
    ensures var path := "/repos/" + owner + "/" + name;
      path[0] == '/' && '#' !in path && '?' !in path && ';' !in path
  {
    assert '#' !in "/repos/" && '?' !in "/repos/" && '#' !in "/" && '?' !in "/";
    assert ';' !in "/repos/" && ';' !in "/";
  }

  /** A path `/a/b/c` of three plain segments splits into them. */
  lemma ThreeSegments(a: string, b: string, c: string)
    requires a != [] && b != [] && c != []
    requires '/' !in a && '/' !in b && '/' !in c
    ensures Split(StripChar(['/'] + a + ['/'] + b + ['/'] + c, '/'), '/') == [a, b, c]
  {
    var tail := a + ['/'] + (b + ['/'] + c);
    SlashPath(a, b, c);
    StripLeadingSlash(tail);
    SplitThree(a, b, c);
  }

  lemma SplitThree(a: string, b: string, c: string)
    requires '/' !in a && '/' !in b && '/' !in c
    ensures Split(a + ['/'] + (b + ['/'] + c), '/') == [a, b, c]
  {
    SplitAppend(a, b + ['/'] + c, '/');
    SplitAppend(b, c, '/');
  }

  lemma SlashPath(a: string, b: string, c: string)
    ensures ['/'] + a + ['/'] + b + ['/'] + c == ['/'] + (a + ['/'] + (b + ['/'] + c))
  {
  }

  /** Stripping `/` from `/t`, where `t` neither starts nor ends with `/`, gives `t`. */
  lemma StripLeadingSlash(t: string)
    requires t != [] && t[0] != '/' && t[|t| - 1] != '/'
    ensures StripChar(['/'] + t, '/') == t
  {
    assert (['/'] + t)[1..] == t;
  }

  lemma ReposSlashes(owner: string, name: string)
    ensures "/repos/" + owner + "/" + name == ['/'] + "repos" + ['/'] + owner + ['/'] + name
    ensures "repos" != [] && '/' !in "repos"
  {
    assert "/repos/" == ['/'] + "repos" + ['/'];
  }

  lemma ApiSegments(owner: string, name: string)
    requires Plain(owner) && Plain(name)
    ensures PathSegments(ApiRepoUrl(owner, name)) == ["repos", owner, name]
  {
    ApiUrlPath(owner, name);
    SegmentsOfPath(ApiRepoUrl(owner, name), "/repos/" + owner + "/" + name);
    ReposSlashes(owner, name);
    ThreeSegments("repos", owner, name);
  }

  lemma SegmentsOfPath(u: string, path: string)
    requires UrlPath(u) == path
    ensures PathSegments(u) == Split(StripChar(path, '/'), '/')
  {
  }

  /** The API's repository URLs give back `owner/name`. */
  lemma RepoFullOfApiUrl(owner: string, name: string)
    requires Plain(owner) && Plain(name)
    ensures RepoFull(ApiRepoUrl(owner, name)) == owner + "/" + name
  {
    ApiSegments(owner, name);
    assert LastTwo(["repos", owner, name]) == [owner, name];
    assert Join([owner, name], '/') == owner + ['/'] + Join([name], '/');
  }

  // ------------------------------------------------------------ searches and listings

  /** A search hit; `number` is the PR or issue number, label names in order. */
  datatype SearchItem = SearchItem(
    repositoryUrl: string, number: nat, htmlUrl: Option<string>, title: Option<string>,
    createdAt: string, state: string, labels: seq<string>)

  /** A search page: its `items` list (empty when absent). */
  datatype SearchPage = SearchPage(items: seq<SearchItem>)

  /** A commit of the commits listing; absent fields are "". */
  datatype CommitItem = CommitItem(sha: string, message: string, htmlUrl: string, authorDate: string)

  /** The items of the pages, in order. */
  function ItemsOf(pages: seq<SearchPage>): seq<SearchItem> {
    if pages == [] then [] else ItemsOf(pages[..|pages| - 1]) + pages[|pages| - 1].items
  }

  function Concat<T>(pages: seq<seq<T>>): seq<T> {
    if pages == [] then [] else Concat(pages[..|pages| - 1]) + pages[|pages| - 1]
  }

  /** The three search queries of the exporter. */
  function PullRequestQuery(user: string, w: Window): string {
    "is:pr author:" + user + " created:" + w.since + ".." + w.until
  }

  function IssueQuery(user: string, w: Window): string {
    "is:issue author:" + user + " created:" + w.since + ".." + w.until
  }

  function ReviewQuery(user: string, w: Window): string {
    "type:pr reviewed-by:" + user + " updated:" + w.since + ".." + w.until
  }

  /**
   * `search_issues` run to the end (gh_export.py:52-56): the items of every
   * page; any error is not caught, so only a completed crawl succeeds.
   */
  method SearchIssues(s: Session<SearchPage>, q: string) returns (items: seq<SearchItem>, ok: bool)
    modifies s
    ensures var c := CrawlFrom(old(s.pending), HttpRequest(Api + "/search/issues", Some(map["q" := q, "per_page" := "100"])));
      && ok == c.end.Done?
      && items == ItemsOf(Bodies(c))
      && s.pending == old(s.pending)[c.consumed..]
      && s.sent == old(s.sent) + c.sent
      && s.slept == old(s.slept) + c.sleeps
  {
    var pages, end := Paginate(s, Api + "/search/issues", map["q" := q, "per_page" := "100"]);
    items := [];
    for i := 0 to |pages|
      invariant items == ItemsOf(pages[..i])
    {
      assert pages[..i + 1][..i] == pages[..i];
      items := items + pages[i].items;
    }
    assert pages[..|pages|] == pages;
    ok := end.Done?;
  }

  /**
   * `list_commits_for_repo` (gh_export.py:70-79): the commits of the pages
   * fetched; an error status ends the listing quietly with the commits
   * already yielded, while an unanswered request is fatal.
   */
  method ListCommits(s: Session<seq<CommitItem>>, repo: string, author: string, w: Window)
    returns (commits: seq<CommitItem>, fatal: bool)
    modifies s
    ensures var c := CrawlFrom(old(s.pending), HttpRequest(Api + "/repos/" + repo + "/commits", Some(CommitParams(author, w))));
      && fatal == c.end.Unanswered?
      && commits == Concat(Bodies(c))
      && s.pending == old(s.pending)[c.consumed..]
      && s.sent == old(s.sent) + c.sent
      && s.slept == old(s.slept) + c.sleeps
  {
    var pages, end := Paginate(s, Api + "/repos/" + repo + "/commits", CommitParams(author, w));
    commits := [];
    for i := 0 to |pages|
      invariant commits == Concat(pages[..i])
    {
      assert pages[..i + 1][..i] == pages[..i];
      commits := commits + pages[i];
    }
    assert pages[..|pages|] == pages;
    fatal := end.Unanswered?;
  }

  /** The commit listing's query: author and the window's bounds. */
  function CommitParams(author: string, w: Window): map<string, string> {
    var (since, until) := QueryBounds(w);
    map["author" := author, "since" := since, "until" := until, "per_page" := "100"]
  }

  /**
   * `list_user_repos` (gh_export.py:63-68): the full names of every listed
   * repository; errors are not caught.
   */
  method ListUserRepos(s: Session<seq<string>>, user: string) returns (repos: seq<string>, ok: bool)
    modifies s
    ensures var c := CrawlFrom(old(s.pending), HttpRequest(Api + "/users/" + user + "/repos",
                                                          Some(map["per_page" := "100", "type" := "all", "sort" := "updated"])));
      && ok == c.end.Done?
      && repos == Concat(Bodies(c))
      && s.pending == old(s.pending)[c.consumed..]
      && s.sent == old(s.sent) + c.sent
      && s.slept == old(s.slept) + c.sleeps
  {
    var pages, end := Paginate(s, Api + "/users/" + user + "/repos", map["per_page" := "100", "type" := "all", "sort" := "updated"]);
    repos := [];
    for i := 0 to |pages|
      invariant repos == Concat(pages[..i])
    {
      assert pages[..i + 1][..i] == pages[..i];
      repos := repos + pages[i];
    }
    assert pages[..|pages|] == pages;
    ok := end.Done?;
  }

  // ------------------------------------------------------------ row shaping

  /** A pull request's detail record; `mergedAt` is "" when unmerged. */
  datatype PrDetail = PrDetail(state: string, mergedAt: string, additions: nat, deletions: nat, changedFiles: nat)

  /** The PR extras: the detail columns, or none when the lookup raised an HTTP error (None). */
  function PrExtra(detail: Option<PrDetail>): map<string, string> {
    match detail
    case None => map[]
    case Some(d) =>
      map["state" := d.state,
          "merged" := if d.mergedAt != "" then "True" else "False",
          "merged_at" := Iso(d.mergedAt),
          "additions" := NatToString(d.additions),
          "deletions" := NatToString(d.deletions),
          "changed_files" := NatToString(d.changedFiles)]
  }

  function PullRequestArgs(item: SearchItem, detail: Option<PrDetail>): RowArgs {
    RowArgs(PR, RepoFull(item.repositoryUrl), "PR#" + NatToString(item.number),
            item.title, item.htmlUrl, item.createdAt, PrExtra(detail))
  }

  function IssueArgs(item: SearchItem): RowArgs {
    RowArgs(Issue, RepoFull(item.repositoryUrl), "Issue#" + NatToString(item.number),
            item.title, item.htmlUrl, item.createdAt,
            map["state" := item.state, "labels" := Join(item.labels, ',')])
  }

  function ReviewArgs(item: SearchItem): RowArgs {
    RowArgs(Review, RepoFull(item.repositoryUrl), "PR#" + NatToString(item.number),
            item.title, item.htmlUrl, item.createdAt, map["state" := item.state])
  }

  /** The message column: the first line of the message, at most 300 characters. */
  function CommitMessage(message: string): string {
    Take(FirstPart(message, '\n'), 300)
  }

  function CommitArgs(repo: string, c: CommitItem): RowArgs {
    RowArgs(Commit, repo, Take(c.sha, 12), Some(CommitMessage(c.message)),
            Some(OrElse(c.htmlUrl, "https://github.com/" + repo + "/commit/" + c.sha)),
            c.authorDate, map[])
  }

  /**
   * A commit row's message is the start of the message's first line, at
   * most 300 characters and without a newline (the whole first line when it
   * fits); its id is the first 12 characters of the sha; its URL is the
   * commit's page, or the web URL built from repository and sha.
   */
  lemma CommitArgsShape(repo: string, c: CommitItem)
    ensures var a := CommitArgs(repo, c); var m := a.title.value;
      && a.category == Commit && a.repo == repo
      && |m| <= 300 && '\n' !in m && HasPrefix(c.message, m)
      && (|FirstPart(c.message, '\n')| <= 300 ==> m == FirstPart(c.message, '\n'))
      && |a.id| == (if |c.sha| < 12 then |c.sha| else 12) && HasPrefix(c.sha, a.id)
      && a.url.value != ""
      && (c.htmlUrl != "" ==> a.url.value == c.htmlUrl)
      && (c.htmlUrl == "" ==> a.url.value == "https://github.com/" + repo + "/commit/" + c.sha)
  {
    var line := FirstPart(c.message, '\n');
    var m := CommitMessage(c.message);
    assert m == line[..|m|];
    assert forall k :: 0 <= k < |m| ==> m[k] == line[k];
    assert c.message[..|m|] == m;
  }

  /**
   * A PR row's extras: none when the detail lookup raised an HTTP error;
   * otherwise all six columns, "True" in `merged` exactly when the PR has a
   * merge time, and `merged_at` empty exactly when it has none.
   */
  lemma PrExtraShape(detail: Option<PrDetail>)
    ensures detail.None? ==> PrExtra(detail) == map[]
    ensures detail.Some? ==>
      && PrExtra(detail).Keys == {"state", "merged", "merged_at", "additions", "deletions", "changed_files"}
      && PrExtra(detail)["state"] == detail.value.state
      && (PrExtra(detail)["merged"] == "True" <==> detail.value.mergedAt != "")
      && (PrExtra(detail)["merged"] == "False" <==> detail.value.mergedAt == "")
      && (PrExtra(detail)["merged_at"] == "" <==> detail.value.mergedAt == "")
  {
    if detail.Some? {
      IsoEmpty(detail.value.mergedAt);
    }
  }

  /**
   * An issue row's `labels` column lists the label names, comma-separated:
   * it is empty without labels, and when no name holds a comma splitting it
   * gives the names back.
   */
  lemma IssueLabels(item: SearchItem)
    ensures IssueArgs(item).extra["labels"] == "" <==> item.labels == [] || item.labels == [""]
    ensures item.labels != [] && (forall l <- item.labels :: ',' !in l) ==>
      Split(IssueArgs(item).extra["labels"], ',') == item.labels
  {
    assert IssueArgs(item).extra["labels"] == Join(item.labels, ',');
    JoinEmpty(item.labels, ',');
    if item.labels != [] && forall l <- item.labels :: ',' !in l {
      SplitJoin(item.labels, ',');
    }
  }

  // ------------------------------------------------------------ adding rows

  /** Rows for a list of argument records, in order. */
  function RowsOfArgs(args: seq<RowArgs>): seq<Row> {
    if args == [] then [] else RowsOfArgs(args[..|args| - 1]) + [MakeRow(args[|args| - 1])]
  }

  /** Calls `add_row` once per argument record, in order. */
  method AddAll(report: Report, args: seq<RowArgs>)
    requires report.Valid()
    modifies report
    ensures report.Valid()
    ensures report.rows == old(report.rows) + RowsOfArgs(args)
  {
    for i := 0 to |args|
      invariant report.Valid()
      invariant report.rows == old(report.rows) + RowsOfArgs(args[..i])
    {
      assert args[..i + 1][..i] == args[..i];
      report.AddRow(args[i]);
    }
    assert args[..|args|] == args;
  }

  /** The commit loop of one repository (gh_export.py:169-174). */
  method AddCommits(report: Report, repo: string, commits: seq<CommitItem>)
    requires report.Valid()
    modifies report
    ensures report.Valid()
    ensures report.rows == old(report.rows) + RowsOfArgs(seq(|commits|, k requires 0 <= k < |commits| => CommitArgs(repo, commits[k])))
  {
    AddAll(report, seq(|commits|, k requires 0 <= k < |commits| => CommitArgs(repo, commits[k])));
  }

  // ------------------------------------------------------------ pull-request details

  /** The detail lookup of a PR found by the search (gh_export.py:58-61). */
  function DetailRequest(item: SearchItem): HttpRequest {
    HttpRequest(Api + "/repos/" + RepoFull(item.repositoryUrl) + "/pulls/" + NatToString(item.number), None)
  }

  /** The detail lookups of the PRs, in order. */
  function DetailRequests(items: seq<SearchItem>): (reqs: seq<HttpRequest>)
    ensures |reqs| == |items| && forall k :: 0 <= k < |items| ==> reqs[k] == DetailRequest(items[k])
  {
    seq(|items|, k requires 0 <= k < |items| => DetailRequest(items[k]))
  }

  /** The PR rows of the PRs whose lookups are done, each with its own detail. */
  function PrArgsList(items: seq<SearchItem>, details: seq<Option<PrDetail>>): (args: seq<RowArgs>)
    requires |details| <= |items|
    ensures |args| == |details|
    ensures forall k :: 0 <= k < |details| ==> args[k] == PullRequestArgs(items[k], details[k])
  {
    seq(|details|, k requires 0 <= k < |details| => PullRequestArgs(items[k], details[k]))
  }

  /**
   * The PR loop (gh_export.py:123-142): each PR's details are looked up and
   * its row added, with empty extras when the lookup raised an HTTP error;
   * an unanswered lookup ends the export before that PR's row is added.
   * The lookups touch only the session and the rows only the report, so
   * the model makes the lookups first and then adds the rows.
   */
  method AddPullRequests(report: Report, s: Session<PrDetail>, items: seq<SearchItem>) returns (fatal: bool)
    requires report.Valid()
    modifies report, s
    ensures var b := FetchAll(old(s.pending), DetailRequests(items));
      && fatal == b.fatal
      && report.Valid()
      && report.rows == old(report.rows) + RowsOfArgs(PrArgsList(items, b.found))
      && s.pending == old(s.pending)[b.consumed..]
      && s.sent == old(s.sent) + b.sent
      && s.slept == old(s.slept) + b.sleeps
  {
    var details;
    details, fatal := FetchEach(s, DetailRequests(items));
    AddAll(report, PrArgsList(items, details));
  }

  // ------------------------------------------------------------ by-repository rollup

  /** The four counters of a repository. */
  datatype Counts = Counts(pr: nat, commit: nat, issue: nat, review: nat) {
    function Get(c: Category): nat {
      match c
      case PR => pr
      case Commit => commit
      case Issue => issue
      case Review => review
    }

    function Bump(c: Category): (r: Counts)
      ensures r.Get(c) == Get(c) + 1
      ensures forall d: Category :: d != c ==> r.Get(d) == Get(d)
    {
      match c
      case PR => this.(pr := pr + 1)
      case Commit => this.(commit := commit + 1)
      case Issue => this.(issue := issue + 1)
      case Review => this.(review := review + 1)
    }

    /** `sum(counts.values())`. */
    function Total(): nat {
      pr + commit + issue + review
    }
  }

  const Zero := Counts(0, 0, 0, 0)

  /** The repositories of the rows of category `c`, in order. */
  function ReposOf(rows: seq<Row>, c: Category): seq<string> {
    if rows == [] then []
    else
      var r := rows[|rows| - 1];
      ReposOf(rows[..|rows| - 1], c) + (if r.category == c then [r.repo] else [])
  }

  function Repos(rows: seq<Row>): (rs: seq<string>)
    ensures |rs| == |rows| && forall i :: 0 <= i < |rows| ==> rs[i] == rows[i].repo
  {
    seq(|rows|, i requires 0 <= i < |rows| => rows[i].repo)
  }

  /** The `by_repo` fold (gh_export.py:188-191), with its insertion order. */
  method ByRepo(rows: seq<Row>) returns (byRepo: map<string, Counts>, order: seq<string>)
    ensures forall r :: r in byRepo <==> r in Repos(rows)
    ensures forall r <- byRepo, c: Category :: byRepo[r].Get(c) == Count(ReposOf(rows, c), r)
    ensures Distinct(order) && forall r :: r in order <==> r in byRepo
  {
    byRepo, order := map[], [];
    for i := 0 to |rows|
      invariant forall r :: r in byRepo <==> r in Repos(rows[..i])
      invariant forall r <- byRepo, c: Category :: byRepo[r].Get(c) == Count(ReposOf(rows[..i], c), r)
      invariant Distinct(order) && forall r :: r in order <==> r in byRepo
    {
      var row := rows[i];
      assert Repos(rows[..i + 1]) == Repos(rows[..i]) + [row.repo];
      var cur := Zero;
      if row.repo in byRepo {
        cur := byRepo[row.repo];
      } else {
        order := order + [row.repo];
        forall c: Category ensures Count(ReposOf(rows[..i], c), row.repo) == 0 {
          CountPositive(ReposOf(rows[..i], c), row.repo);
          ReposOfSub(rows[..i], c);
        }
      }
      byRepo := byRepo[row.repo := cur.Bump(row.category)];
      forall r <- byRepo, c: Category ensures byRepo[r].Get(c) == Count(ReposOf(rows[..i + 1], c), r) {
        ReposOfStep(rows, i, c, r);
      }
    }
    assert rows[..|rows|] == rows;
  }

  /** One more row adds one to its own repository and category, and nothing else. */
  lemma ReposOfStep(rows: seq<Row>, i: nat, c: Category, r: string)
    requires i < |rows|
    ensures Count(ReposOf(rows[..i + 1], c), r)
         == Count(ReposOf(rows[..i], c), r) + (if rows[i].category == c && rows[i].repo == r then 1 else 0)
  {
    var q := rows[..i + 1];
    assert q[..|q| - 1] == rows[..i] && q[|q| - 1] == rows[i];
    var p := ReposOf(rows[..i], c);
    if rows[i].category == c {
      assert ReposOf(q, c) == p + [rows[i].repo];
      assert (p + [rows[i].repo])[..|p|] == p;
    } else {
      assert ReposOf(q, c) == p;
    }
  }

  lemma {:induction false} ReposOfSub(rows: seq<Row>, c: Category)
    ensures forall r <- ReposOf(rows, c) :: r in Repos(rows)
  {
    if rows != [] {
      ReposOfSub(rows[..|rows| - 1], c);
      assert Repos(rows)[..|rows| - 1] == Repos(rows[..|rows| - 1]);
    }
  }

  /** A repository's total over the four categories is the number of its rows. */
  lemma {:induction false} TotalIsRowCount(rows: seq<Row>, r: string)
    ensures Count(ReposOf(rows, PR), r) + Count(ReposOf(rows, Commit), r)
          + Count(ReposOf(rows, Issue), r) + Count(ReposOf(rows, Review), r) == Count(Repos(rows), r)
  {
    if rows != [] {
      var n := |rows| - 1;
      TotalIsRowCount(rows[..n], r);
      assert Repos(rows)[..n] == Repos(rows[..n]);
      assert rows[..n + 1] == rows;
      ReposOfStep(rows, n, PR, r);
      ReposOfStep(rows, n, Commit, r);
      ReposOfStep(rows, n, Issue, r);
      ReposOfStep(rows, n, Review, r);
    }
  }

  /** A category's rows across all repositories are the rows of that category. */
  lemma {:induction false} ReposOfLength(rows: seq<Row>, c: Category)
    ensures |ReposOf(rows, c)| == Count(Categories(rows), c)
  {
    if rows != [] {
      ReposOfLength(rows[..|rows| - 1], c);
      assert Categories(rows)[..|rows| - 1] == Categories(rows[..|rows| - 1]);
    }
  }

  /** A line of the "By repo" list. */
  datatype RepoLine = RepoLine(repo: string, counts: Counts)

  function LineTotal(l: RepoLine): nat {
    l.counts.Total()
  }

  function LineKey(l: RepoLine): int {
    l.counts.Total()
  }

  function Lines(byRepo: map<string, Counts>, keys: seq<string>): (ls: seq<RepoLine>)
    requires forall r <- keys :: r in byRepo
    ensures |ls| == |keys| && forall i :: 0 <= i < |keys| ==> ls[i] == RepoLine(keys[i], byRepo[keys[i]])
  {
    seq(|keys|, i requires 0 <= i < |keys| => RepoLine(keys[i], byRepo[keys[i]]))
  }

  /** The lines' category counters sum to the category's rows. */
  lemma {:induction false} LinesSum(rows: seq<Row>, byRepo: map<string, Counts>, keys: seq<string>, c: Category)
    requires forall r <- keys :: r in byRepo && byRepo[r].Get(c) == Count(ReposOf(rows, c), r)
    ensures SumOf(Lines(byRepo, keys), CountIn(c)) == SumCounts(ReposOf(rows, c), keys)
  {
    if keys != [] {
      var p := keys[..|keys| - 1];
      assert forall r <- p :: r in keys;
      LinesSum(rows, byRepo, p, c);
      assert Lines(byRepo, keys)[..|p|] == Lines(byRepo, p);
    }
  }

  /** The lines' totals sum to the rows of their repositories. */
  lemma {:induction false} LinesTotal(rows: seq<Row>, byRepo: map<string, Counts>, keys: seq<string>)
    requires forall r <- keys :: r in byRepo
    requires forall r <- keys, c: Category :: byRepo[r].Get(c) == Count(ReposOf(rows, c), r)
    ensures SumOf(Lines(byRepo, keys), LineTotal) == SumCounts(Repos(rows), keys)
  {
    if keys != [] {
      var p, r := keys[..|keys| - 1], keys[|keys| - 1];
      assert forall r <- p :: r in keys;
      LinesTotal(rows, byRepo, p);
      assert Lines(byRepo, keys)[..|p|] == Lines(byRepo, p);
      TotalIsRowCount(rows, r);
      assert byRepo[r].Total() == byRepo[r].Get(PR) + byRepo[r].Get(Commit) + byRepo[r].Get(Issue) + byRepo[r].Get(Review);
    }
  }

  /** A category's counter, as a function of a line. */
  function CountIn(c: Category): RepoLine -> nat {
    (l: RepoLine) => l.counts.Get(c)
  }

  /** The sum of a category's counters over the lines. */
  function CategorySum(lines: seq<RepoLine>, c: Category): nat {
    SumOf(lines, CountIn(c))
  }

  /** The totals of the lines, added up. */
  function TotalSum(lines: seq<RepoLine>): nat {
    SumOf(lines, LineTotal)
  }

  /** What `ByRepo` promises about its result. */
  ghost predicate RollupOf(rows: seq<Row>, byRepo: map<string, Counts>, order: seq<string>) {
    && (forall r :: r in byRepo <==> r in Repos(rows))
    && (forall r <- byRepo, c: Category :: byRepo[r].Get(c) == Count(ReposOf(rows, c), r))
    && Distinct(order) && (forall r :: r in order <==> r in byRepo)
  }

  /** The sorted lines hold each repository of the rows once, with its own counters. */
  lemma SortedLinesRepos(rows: seq<Row>, byRepo: map<string, Counts>, order: seq<string>)
    requires RollupOf(rows, byRepo, order)
    ensures var lines := SortDesc(Lines(byRepo, order), LineKey);
      && (forall l <- lines :: l.repo in byRepo && l.counts == byRepo[l.repo])
      && (forall r <- Repos(rows) :: exists l <- lines :: l.repo == r)
      && (forall i, j :: 0 <= i < j < |lines| ==> lines[i].repo != lines[j].repo)
  {
    var unsorted := Lines(byRepo, order);
    SortDescCorrect(unsorted, LineKey);
    PermutedLines(byRepo, order, SortDesc(unsorted, LineKey));
  }

  /** Any reordering of the lines of distinct keys holds each key once, with its own counters. */
  lemma PermutedLines(byRepo: map<string, Counts>, keys: seq<string>, lines: seq<RepoLine>)
    requires Distinct(keys) && forall r <- keys :: r in byRepo
    requires multiset(lines) == multiset(Lines(byRepo, keys))
    ensures forall l <- lines :: l.repo in byRepo && l.counts == byRepo[l.repo]
    ensures forall r <- keys :: exists l <- lines :: l.repo == r
    ensures forall i, j :: 0 <= i < j < |lines| ==> lines[i].repo != lines[j].repo
  {
    var unsorted := Lines(byRepo, keys);
    forall l <- lines ensures l in unsorted {
      assert l in multiset(lines);
    }
    forall r <- keys ensures exists l <- lines :: l.repo == r {
      var k :| 0 <= k < |keys| && keys[k] == r;
      assert unsorted[k] in multiset(unsorted);
      assert unsorted[k] in lines;
    }
    assert Distinct(unsorted) by {
      forall i, j | 0 <= i < j < |unsorted| ensures unsorted[i] != unsorted[j] {
        assert unsorted[i].repo == keys[i] && unsorted[j].repo == keys[j];
      }
    }
    DistinctPermutation(unsorted, lines);
    forall i, j | 0 <= i < j < |lines| ensures lines[i].repo != lines[j].repo {
      assert lines[i] in unsorted && lines[j] in unsorted;
      var a :| 0 <= a < |unsorted| && unsorted[a] == lines[i];
      var b :| 0 <= b < |unsorted| && unsorted[b] == lines[j];
      assert a != b;
      assert keys[a] != keys[b];
    }
  }

  /** The sorted lines' totals add up to the rows, and each category's counters to that category's rows. */
  lemma SortedLinesSums(rows: seq<Row>, byRepo: map<string, Counts>, order: seq<string>)
    requires RollupOf(rows, byRepo, order)
    ensures var lines := SortDesc(Lines(byRepo, order), LineKey);
      && TotalSum(lines) == |rows|
      && forall c: Category :: CategorySum(lines, c) == Count(Categories(rows), c)
  {
    var unsorted := Lines(byRepo, order);
    var lines := SortDesc(unsorted, LineKey);
    SortDescCorrect(unsorted, LineKey);
    LinesTotal(rows, byRepo, order);
    SumCountsCovers(Repos(rows), order);
    SumOfPermutation(lines, unsorted, LineTotal);
    forall c: Category ensures CategorySum(lines, c) == Count(Categories(rows), c) {
      LinesSum(rows, byRepo, order, c);
      ReposOfSub(rows, c);
      SumCountsCovers(ReposOf(rows, c), order);
      ReposOfLength(rows, c);
      SumOfPermutation(lines, unsorted, CountIn(c));
    }
  }

  /**
   * The "By repo" section (gh_export.py:188-202): one line per repository
   * of the report, largest total first, each with its own category counts;
   * the totals add up to the number of rows and each category's counters
   * add up to that category's summary counter.
   */
  method RepoSummary(report: Report) returns (lines: seq<RepoLine>)
    requires report.Valid()
    ensures SortedDesc(lines, LineKey)
    ensures forall l <- lines :: l.repo in Repos(report.rows)
    ensures forall r <- Repos(report.rows) :: exists l <- lines :: l.repo == r
    ensures forall i, j :: 0 <= i < j < |lines| ==> lines[i].repo != lines[j].repo
    ensures forall l <- lines, c: Category :: l.counts.Get(c) == Count(ReposOf(report.rows, c), l.repo)
    ensures TotalSum(lines) == |report.rows|
    ensures forall c: Category :: CategorySum(lines, c) == report.summary[c]
  {
    var byRepo, order := ByRepo(report.rows);
    lines := SortDesc(Lines(byRepo, order), LineKey);
    SortDescCorrect(Lines(byRepo, order), LineKey);
    SortedLinesRepos(report.rows, byRepo, order);
    SortedLinesSums(report.rows, byRepo, order);
  }
}
