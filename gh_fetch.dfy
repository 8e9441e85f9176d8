/**
 * The GitHub exporter's HTTP layer (gh_export.py:13-42): `req`, which
 * retries once after sleeping when the rate limit is exhausted, the
 * extraction of the next-page URL from a `Link` header, and the pagination
 * loop. The server is a scripted oracle: the responses it will give, in order.
 */
module GhFetch {
  import opened Wrappers
  import opened Text

  /** A request as `req` issues it: the URL and the query parameters (None once the next URL carries them). */
  datatype HttpRequest = HttpRequest(url: string, params: Option<map<string, string>>)

  /**
   * A response: the status, the three headers the exporter reads (None when
   * absent), the decoded body, and the reading of `int(time.time())` taken
   * once it has arrived.
   */
  datatype Response<B> = Response(
    status: int,
    rateLimitRemaining: Option<string>,
    rateLimitReset: Option<int>,
    link: Option<string>,
    body: B,
    clock: int)

  /** The rate-limit branch of `req` is taken on 403 with `X-RateLimit-Remaining: 0`, and on nothing else. */
  predicate RateLimited<B>(r: Response<B>) {
    r.status == 403 && r.rateLimitRemaining == Some("0")
  }

  /** `raise_for_status` raises on client and server errors. */
  predicate IsHttpError(status: int) {
    400 <= status < 600
  }

  /** `max(reset - now + 2, 10)`, with a missing reset header read as 0. */
  function BackoffSeconds<B>(r: Response<B>): (wait: int)
    ensures wait >= 10
    ensures wait >= r.rateLimitReset.GetOr(0) - r.clock + 2
    ensures wait == 10 || wait == r.rateLimitReset.GetOr(0) - r.clock + 2
  {
    var untilReset := r.rateLimitReset.GetOr(0) - r.clock + 2;
    if untilReset > 10 then untilReset else 10
  }

  /** What one `req` call ends with. NoAnswer stands for a request the server never answers (a connection error). */
  datatype Outcome<B> = Answered(response: Response<B>) | Raised(status: int) | NoAnswer

  /** One `req` call: its outcome, how many requests it sent and responses it used, and the pauses it took. */
  datatype Exchange<B> = Exchange(outcome: Outcome<B>, attempts: nat, consumed: nat, sleeps: seq<int>)

  /** The outcome of the last response `req` looks at. */
  function Settle<B>(r: Response<B>): Outcome<B> {
    if IsHttpError(r.status) then Raised(r.status) else Answered(r)
  }

  /** `req` against the scripted responses `pending`. */
  function Fetch<B>(pending: seq<Response<B>>): (e: Exchange<B>)
    ensures e.consumed <= |pending|
    ensures e.outcome.Answered? ==> e.consumed >= 1
  {
    if pending == [] then Exchange(NoAnswer, 1, 0, [])
    else if !RateLimited(pending[0]) then Exchange(Settle(pending[0]), 1, 1, [])
    else if |pending| == 1 then Exchange(NoAnswer, 2, 1, [BackoffSeconds(pending[0])])
    else Exchange(Settle(pending[1]), 2, 2, [BackoffSeconds(pending[0])])
  }

  /**
   * `req` sleeps only after a rate-limited response, at least ten seconds,
   * and retries exactly once; whatever the retry returns is final, so a
   * second 403 raises. An answered call never carries an error status.
   */
  lemma FetchRetriesOnce<B>(pending: seq<Response<B>>)
    ensures var e := Fetch(pending);
      && e.consumed <= |pending|
      && 1 <= e.attempts <= 2
      && e.consumed <= e.attempts
      && (e.outcome.NoAnswer? <==> e.consumed < e.attempts)
      && (e.attempts == 2 <==> pending != [] && RateLimited(pending[0]))
      && (e.attempts == 2 ==> e.sleeps == [BackoffSeconds(pending[0])])
      && (e.attempts == 1 ==> e.sleeps == [])
      && (forall w <- e.sleeps :: w >= 10)
      && (e.outcome.Answered? ==>
            e.outcome.response == pending[e.consumed - 1] && !IsHttpError(e.outcome.response.status))
      && (e.outcome.Raised? ==> e.outcome.status == pending[e.consumed - 1].status && IsHttpError(e.outcome.status))
  {
  }

  /** A 403 on the retry is raised, not retried again. */
  lemma SecondRateLimitRaises<B>(pending: seq<Response<B>>)
    requires |pending| >= 2 && RateLimited(pending[0]) && RateLimited(pending[1])
    ensures Fetch(pending).outcome == Raised(403)
  {
  }

  function Repeat<T>(x: T, n: nat): (s: seq<T>)
    ensures |s| == n && forall k :: 0 <= k < n ==> s[k] == x
  {
    seq(n, _ => x)
  }

  /**
   * The HTTP session together with the world it talks to: the responses the
   * server is scripted to give, the requests sent so far and the pauses taken.
   */
  class Session<B> {
    var pending: seq<Response<B>>
    var sent: seq<HttpRequest>
    var slept: seq<int>

    constructor(script: seq<Response<B>>)
      ensures pending == script && sent == [] && slept == []
    {
      pending := script;
      sent := [];
      slept := [];
    }

    /** `session.request`: send, and take the next scripted response (None once the script is exhausted). */
    method Send(req: HttpRequest) returns (r: Option<Response<B>>)
      modifies this
      ensures sent == old(sent) + [req] && slept == old(slept)
      ensures old(pending) == [] ==> r.None? && pending == []
      ensures old(pending) != [] ==> r == Some(old(pending)[0]) && pending == old(pending)[1..]
    {
      sent := sent + [req];
      if pending == [] {
        r := None;
      } else {
        r := Some(pending[0]);
        pending := pending[1..];
      }
    }

    /** `time.sleep`. */
    method Sleep(seconds: int)
      modifies this
      ensures slept == old(slept) + [seconds] && sent == old(sent) && pending == old(pending)
    {
      slept := slept + [seconds];
    }
  }

  /** `req` (gh_export.py:13-21). */
  method Req<B>(s: Session<B>, req: HttpRequest) returns (o: Outcome<B>)
    modifies s
    ensures var e := Fetch(old(s.pending));
      && o == e.outcome
      && s.pending == old(s.pending)[e.consumed..]
      && s.sent == old(s.sent) + Repeat(req, e.attempts)
      && s.slept == old(s.slept) + e.sleeps
  {
    var r := s.Send(req);
    if r.None? {
      return NoAnswer;
    }
    var resp := r.value;
    if RateLimited(resp) {
      s.Sleep(BackoffSeconds(resp));
      r := s.Send(req);
      if r.None? {
        return NoAnswer;
      }
      resp := r.value;
    }
    o := Settle(resp);
  }

  // ------------------------------------------------------------ Link header

  const RelNext := "rel=\"next\""

  /**
   * `re.search(r'<([^>]+)>', part).group(1)`: the text between the leftmost
   * `<` that is followed by at least one character other than `>` and the
   * next `>`.
   */
  function AngleTarget(part: string): Option<string>
    decreases |part|
  {
    if part == [] then None
    else if part[0] == '<' && '>' in part[1..] && FirstPart(part[1..], '>') != "" then Some(FirstPart(part[1..], '>'))
    else AngleTarget(part[1..])
  }

  /** A match is non-empty, holds no `>`, is made of the part's characters and sits between `<` and `>` in it. */
  lemma {:induction false} AngleTargetShape(part: string)
    ensures AngleTarget(part).Some? ==>
      var u := AngleTarget(part).value;
      && u != [] && '>' !in u
      && (forall c <- u :: c in part)
      && Contains(part, "<" + u + ">")
    ensures '<' !in part ==> AngleTarget(part).None?
    decreases |part|
  {
    if part != [] {
      AngleTargetShape(part[1..]);
      var rest := part[1..];
      if part[0] == '<' && '>' in rest && FirstPart(rest, '>') != "" {
        var u := FirstPart(rest, '>');
        assert part[..|u| + 2] == "<" + u + ">";
        assert forall c <- u :: c in rest;
      }
      assert forall c <- rest :: c in part;
    }
  }

  /** A part names the next page when it mentions `rel="next"` and holds a `<...>` target. */
  function PartTarget(part: string): Option<string> {
    if Contains(part, RelNext) then AngleTarget(part) else None
  }

  /** The loop over the comma-separated parts keeps the target of the last qualifying part. */
  function LastTarget(parts: seq<string>): Option<string> {
    if parts == [] then None
    else if PartTarget(parts[|parts| - 1]).Some? then PartTarget(parts[|parts| - 1])
    else LastTarget(parts[..|parts| - 1])
  }

  /** The next-page URL of a response, None when there is no `Link` header or no next part. */
  function NextUrl(link: Option<string>): Option<string> {
    if link.None? || link.value == "" then None else LastTarget(Split(link.value, ','))
  }

  /**
   * The next URL is the target of some part naming the next page, and no
   * later part names one; when no part does, pagination ends.
   */
  lemma {:induction false} LastTargetWins(parts: seq<string>)
    ensures LastTarget(parts).None? <==> forall p <- parts :: PartTarget(p).None?
    ensures LastTarget(parts).Some? ==>
      exists i :: 0 <= i < |parts| && PartTarget(parts[i]) == LastTarget(parts)
        && forall j :: i < j < |parts| ==> PartTarget(parts[j]).None?
  {
    if parts != [] {
      var p, x := parts[..|parts| - 1], parts[|parts| - 1];
      LastTargetWins(p);
      assert parts == p + [x];
      assert forall q <- parts :: q in p || q == x;
      if PartTarget(x).Some? {
        assert PartTarget(parts[|parts| - 1]) == LastTarget(parts);
        assert x in parts;
      } else if LastTarget(p).Some? {
        var i :| 0 <= i < |p| && PartTarget(p[i]) == LastTarget(p)
          && forall j :: i < j < |p| ==> PartTarget(p[j]).None?;
        assert parts[i] == p[i] && parts[i] in parts;
      }
    }
  }

  /** The URL is never empty and never spans a comma or a `>`. */
  lemma NextUrlShape(link: Option<string>)
    ensures NextUrl(link).Some? ==> NextUrl(link).value != "" && ',' !in NextUrl(link).value && '>' !in NextUrl(link).value
    ensures link.None? || link == Some("") ==> NextUrl(link).None?
  {
    if NextUrl(link).Some? {
      var parts := Split(link.value, ',');
      LastTargetWins(parts);
      var i :| 0 <= i < |parts| && PartTarget(parts[i]) == LastTarget(parts)
        && forall j :: i < j < |parts| ==> PartTarget(parts[j]).None?;
      AngleTargetShape(parts[i]);
      var u := NextUrl(link).value;
      assert ',' !in parts[i];
    }
  }

  /** The loop of `paginate` over `link.split(",")`. */
  method ParseNextUrl(link: Option<string>) returns (next: Option<string>)
    ensures next == NextUrl(link)
  {
    if link.None? || link.value == "" {
      return None;
    }
    var parts := Split(link.value, ',');
    next := None;
    for i := 0 to |parts|
      invariant next == LastTarget(parts[..i])
    {
      assert parts[..i + 1][..i] == parts[..i];
      var part := parts[i];
      if Contains(part, RelNext) {
        var m := AngleTarget(part);
        if m.Some? {
          next := m;
        }
      }
    }
    assert parts[..|parts|] == parts;
  }

  // ------------------------------------------------------------ pagination

  /** How a crawl stopped: no next page, an error status raised, or a request left unanswered. */
  datatype CrawlEnd = Done | Failed(status: int) | Unanswered

  /**
   * A pagination run: one entry in `calls` per `req` call, the responses
   * answered (one per page yielded), how it ended, and the raw requests
   * sent, responses used and pauses taken.
   */
  datatype Crawl<B> = Crawl(
    calls: seq<HttpRequest>,
    answered: seq<Response<B>>,
    end: CrawlEnd,
    sent: seq<HttpRequest>,
    consumed: nat,
    sleeps: seq<int>)

  /** A crawl preceded by calls already made. */
  function Prepend<B>(calls: seq<HttpRequest>, answered: seq<Response<B>>, sent: seq<HttpRequest>,
                      consumed: nat, sleeps: seq<int>, c: Crawl<B>): Crawl<B> {
    Crawl(calls + c.calls, answered + c.answered, c.end, sent + c.sent, consumed + c.consumed, sleeps + c.sleeps)
  }

  /** The empty remainder of a crawl that has ended. */
  function Stop<B>(end: CrawlEnd): Crawl<B> {
    Crawl([], [], end, [], 0, [])
  }

  /** `paginate` from request `req` against the scripted responses `pending`. */
  function CrawlFrom<B>(pending: seq<Response<B>>, req: HttpRequest): (c: Crawl<B>)
    ensures c.consumed <= |pending|
    decreases |pending|
  {
    var e := Fetch(pending);
    match e.outcome
    case NoAnswer => Prepend([req], [], Repeat(req, e.attempts), e.consumed, e.sleeps, Stop(Unanswered))
    case Raised(st) => Prepend([req], [], Repeat(req, e.attempts), e.consumed, e.sleeps, Stop(Failed(st)))
    case Answered(r) =>
      var next := NextUrl(r.link);
      Prepend([req], [r], Repeat(req, e.attempts), e.consumed, e.sleeps,
              if next.None? then Stop(Done) else CrawlFrom(pending[e.consumed..], HttpRequest(next.value, None)))
  }

  /** The bodies of the pages a crawl yields. */
  function Bodies<B>(c: Crawl<B>): (bs: seq<B>)
    ensures |bs| == |c.answered| && forall k :: 0 <= k < |bs| ==> bs[k] == c.answered[k].body
  {
    seq(|c.answered|, k requires 0 <= k < |c.answered| => c.answered[k].body)
  }

  /** The remainder of a crawl after its first call. */
  function Tail<B>(pending: seq<Response<B>>): Crawl<B> {
    var e := Fetch(pending);
    if e.outcome.NoAnswer? then Stop(Unanswered)
    else if e.outcome.Raised? then Stop(Failed(e.outcome.status))
    else if NextUrl(e.outcome.response.link).None? then Stop(Done)
    else CrawlFrom(pending[e.consumed..], HttpRequest(NextUrl(e.outcome.response.link).value, None))
  }

  lemma CrawlUnfold<B>(pending: seq<Response<B>>, req: HttpRequest)
    ensures var e := Fetch(pending);
      CrawlFrom(pending, req) == Prepend([req], if e.outcome.Answered? then [e.outcome.response] else [],
                                         Repeat(req, e.attempts), e.consumed, e.sleeps, Tail(pending))
  {
  }

  /**
   * One call per page plus one for a failed or unanswered last call: the
   * first call is the starting request, and a crawl is done exactly when its
   * last page names no next URL.
   */
  lemma {:induction false} CrawlCalls<B>(pending: seq<Response<B>>, req: HttpRequest)
    ensures var c := CrawlFrom(pending, req);
      && |c.calls| >= 1 && c.calls[0] == req
      && |c.calls| == |c.answered| + (if c.end.Done? then 0 else 1)
      && (c.end.Done? ==> NextUrl(c.answered[|c.answered| - 1].link).None?)
    decreases |pending|
  {
    CrawlUnfold(pending, req);
    var e, t := Fetch(pending), Tail(pending);
    if e.outcome.Answered? && NextUrl(e.outcome.response.link).Some? {
      CrawlCalls(pending[e.consumed..], HttpRequest(NextUrl(e.outcome.response.link).value, None));
    }
  }

  /** Each call after the first goes to the next URL of the page before it, without the query parameters. */
  lemma {:induction false} CrawlFollowsLinks<B>(pending: seq<Response<B>>, req: HttpRequest)
    ensures var c := CrawlFrom(pending, req);
      forall k :: 0 < k < |c.calls| ==>
        k - 1 < |c.answered| && c.calls[k].params.None? && NextUrl(c.answered[k - 1].link) == Some(c.calls[k].url)
    decreases |pending|
  {
    CrawlUnfold(pending, req);
    var e, t := Fetch(pending), Tail(pending);
    if e.outcome.Answered? && NextUrl(e.outcome.response.link).Some? {
      var next := HttpRequest(NextUrl(e.outcome.response.link).value, None);
      CrawlFollowsLinks(pending[e.consumed..], next);
      CrawlCalls(pending[e.consumed..], next);
      var c := CrawlFrom(pending, req);
      assert c.calls == [req] + t.calls && c.answered == [e.outcome.response] + t.answered;
      forall k | 0 < k < |c.calls|
        ensures k - 1 < |c.answered| && c.calls[k].params.None? && NextUrl(c.answered[k - 1].link) == Some(c.calls[k].url)
      {
        if k > 1 {
          assert c.calls[k] == t.calls[k - 1] && c.answered[k - 1] == t.answered[k - 2];
        }
      }
    }
  }

  /** Every page carries a non-error status, and a failed crawl ends on an error status. */
  lemma {:induction false} CrawlStatuses<B>(pending: seq<Response<B>>, req: HttpRequest)
    ensures var c := CrawlFrom(pending, req);
      && (forall r <- c.answered :: !IsHttpError(r.status))
      && (c.end.Failed? ==> IsHttpError(c.end.status))
    decreases |pending|
  {
    CrawlUnfold(pending, req);
    FetchRetriesOnce(pending);
    var e := Fetch(pending);
    if e.outcome.Answered? && NextUrl(e.outcome.response.link).Some? {
      CrawlStatuses(pending[e.consumed..], HttpRequest(NextUrl(e.outcome.response.link).value, None));
    }
  }

  /** At most one pause per call, each of at least ten seconds. */
  lemma {:induction false} CrawlSleeps<B>(pending: seq<Response<B>>, req: HttpRequest)
    ensures var c := CrawlFrom(pending, req);
      |c.sleeps| <= |c.calls| && forall w <- c.sleeps :: w >= 10
    decreases |pending|
  {
    CrawlUnfold(pending, req);
    FetchRetriesOnce(pending);
    var e := Fetch(pending);
    if e.outcome.Answered? && NextUrl(e.outcome.response.link).Some? {
      CrawlSleeps(pending[e.consumed..], HttpRequest(NextUrl(e.outcome.response.link).value, None));
    }
  }

  /**
   * `paginate` (gh_export.py:23-42): request pages until a page has no next
   * URL, following each page's next URL without the original parameters; a
   * raised status or an unanswered request ends the run with the pages
   * yielded so far.
   */
  method Paginate<B>(s: Session<B>, url: string, params: map<string, string>)
    returns (pages: seq<B>, end: CrawlEnd)
    modifies s
    ensures var c := CrawlFrom(old(s.pending), HttpRequest(url, Some(params)));
      && pages == Bodies(c) && end == c.end
      && s.pending == old(s.pending)[c.consumed..]
      && s.sent == old(s.sent) + c.sent
      && s.slept == old(s.slept) + c.sleeps
  {
    ghost var c0 := CrawlFrom(s.pending, HttpRequest(url, Some(params)));
    ghost var p0, sent0, slept0 := s.pending, s.sent, s.slept;
    // the calls made so far: what they sent, slept and used up
    ghost var gcalls: seq<HttpRequest>, gsent: seq<HttpRequest>, gslept: seq<int>, gused: nat := [], [], [], 0;
    ghost var answered: seq<Response<B>> := [];
    var req := HttpRequest(url, Some(params));
    var done := false;
    pages, end := [], Done;
    while !done
      invariant gused <= |p0| && s.pending == p0[gused..]
      invariant s.sent == sent0 + gsent && s.slept == slept0 + gslept
      invariant c0 == Prepend(gcalls, answered, gsent, gused, gslept,
                              if done then Stop(end) else CrawlFrom(s.pending, req))
      invariant |pages| == |answered| && forall k :: 0 <= k < |pages| ==> pages[k] == answered[k].body
      decreases !done, |s.pending|
    {
      ghost var e := Fetch(s.pending);
      ghost var asked := req;
      var answer, stop, next := NextPage(s, req);
      ghost var got: seq<Response<B>> := if answer.Some? then [answer.value] else [];
      if answer.Some? {
        pages := pages + [answer.value.body];
      }
      if stop.Some? {
        end, done := stop.value, true;
      } else {
        req := next;
      }
      PrependTwice(gcalls, answered, gsent, gused, gslept, [asked], got, Repeat(asked, e.attempts), e.consumed, e.sleeps,
                   if done then Stop(end) else CrawlFrom(s.pending, req));
      assert p0[gused..][e.consumed..] == p0[gused + e.consumed..];
      AppendAssoc(sent0, gsent, Repeat(asked, e.attempts));
      AppendAssoc(slept0, gslept, e.sleeps);
      gcalls, answered := gcalls + [asked], answered + got;
      gsent, gslept, gused := gsent + Repeat(asked, e.attempts), gslept + e.sleeps, gused + e.consumed;
    }
    assert gsent + [] == gsent && gslept + [] == gslept;
  }

  /**
   * One pass of the `paginate` loop: request the page, yield its body when
   * answered, and either stop (with how the crawl ended) or go on to the
   * page's next URL without the query parameters.
   */
  method NextPage<B>(s: Session<B>, req: HttpRequest) returns (answer: Option<Response<B>>, stop: Option<CrawlEnd>, next: HttpRequest)
    modifies s
    ensures var e := Fetch(old(s.pending));
      && s.pending == old(s.pending)[e.consumed..]
      && s.sent == old(s.sent) + Repeat(req, e.attempts)
      && s.slept == old(s.slept) + e.sleeps
      && CrawlFrom(old(s.pending), req)
         == Prepend([req], if answer.Some? then [answer.value] else [], Repeat(req, e.attempts), e.consumed, e.sleeps,
                    if stop.Some? then Stop(stop.value) else CrawlFrom(s.pending, next))
  {
    ghost var before := s.pending;
    CrawlUnfold(before, req);
    var o := Req(s, req);
    answer, next := None, req;
    if o.NoAnswer? {
      stop := Some(Unanswered);
    } else if o.Raised? {
      stop := Some(Failed(o.status));
    } else {
      answer := Some(o.response);
      var link := ParseNextUrl(o.response.link);
      if link.None? {
        stop := Some(Done);
      } else {
        stop, next := None, HttpRequest(link.value, None);
      }
    }
  }

  lemma PrependTwice<B>(calls1: seq<HttpRequest>, answered1: seq<Response<B>>, sent1: seq<HttpRequest>, used1: nat, sleeps1: seq<int>,
                        calls2: seq<HttpRequest>, answered2: seq<Response<B>>, sent2: seq<HttpRequest>, used2: nat, sleeps2: seq<int>,
                        c: Crawl<B>)
    ensures Prepend(calls1, answered1, sent1, used1, sleeps1, Prepend(calls2, answered2, sent2, used2, sleeps2, c))
         == Prepend(calls1 + calls2, answered1 + answered2, sent1 + sent2, used1 + used2, sleeps1 + sleeps2, c)
  {
    assert calls1 + (calls2 + c.calls) == (calls1 + calls2) + c.calls;
    assert answered1 + (answered2 + c.answered) == (answered1 + answered2) + c.answered;
    assert sent1 + (sent2 + c.sent) == (sent1 + sent2) + c.sent;
    assert sleeps1 + (sleeps2 + c.sleeps) == (sleeps1 + sleeps2) + c.sleeps;
  }

  // ------------------------------------------------------------ one request per item

  /**
   * A run of single `req` calls, one per request: what each contributed
   * (None after an HTTP error), whether one went unanswered (which is not
   * caught and so ends the run), and the requests, responses and pauses used.
   */
  datatype Batch<B> = Batch(found: seq<Option<B>>, fatal: bool, consumed: nat,
                            sent: seq<HttpRequest>, sleeps: seq<int>)

  /** What one call contributes: nothing when unanswered, None after an HTTP error, else the body. */
  function Found<B>(o: Outcome<B>): seq<Option<B>> {
    match o
    case NoAnswer => []
    case Raised(_) => [None]
    case Answered(r) => [Some(r.body)]
  }

  /** A run preceded by calls already made. */
  function After<B>(found: seq<Option<B>>, sent: seq<HttpRequest>, consumed: nat, sleeps: seq<int>,
                    b: Batch<B>): Batch<B> {
    Batch(found + b.found, b.fatal, consumed + b.consumed, sent + b.sent, sleeps + b.sleeps)
  }

  /** The empty rest of a run that stopped at an unanswered request. */
  function Halted<B>(): Batch<B> {
    Batch([], true, 0, [], [])
  }

  /** `req` for each request in turn against the scripted responses `pending`. */
  function FetchAll<B>(pending: seq<Response<B>>, reqs: seq<HttpRequest>): (b: Batch<B>)
    ensures b.consumed <= |pending| && |b.found| <= |reqs|
    decreases |reqs|
  {
    if reqs == [] then Batch([], false, 0, [], [])
    else
      var e := Fetch(pending);
      After(Found(e.outcome), Repeat(reqs[0], e.attempts), e.consumed, e.sleeps,
            if e.outcome.NoAnswer? then Halted() else FetchAll(pending[e.consumed..], reqs[1..]))
  }

  /**
   * One result per request in order, up to the first unanswered one, which
   * is the only way to stop early; each result is the body of a successful
   * response; each request went out once or twice, in order, and each
   * paused at most once, for at least ten seconds.
   */
  lemma {:induction false} FetchAllShape<B>(pending: seq<Response<B>>, reqs: seq<HttpRequest>)
    ensures var b := FetchAll(pending, reqs);
      && (b.fatal <==> |b.found| < |reqs|)
      && (forall x <- b.found :: x.Some? ==> exists r <- pending :: r.body == x.value && !IsHttpError(r.status))
      && (forall q <- b.sent :: q in reqs)
      && |b.sleeps| <= |b.found| + 1
      && (forall w <- b.sleeps :: w >= 10)
    decreases |reqs|
  {
    if reqs != [] {
      var e := Fetch(pending);
      FetchRetriesOnce(pending);
      assert forall q <- Repeat(reqs[0], e.attempts) :: q == reqs[0];
      if !e.outcome.NoAnswer? {
        var rest := pending[e.consumed..];
        FetchAllShape(rest, reqs[1..]);
        assert forall r <- rest :: r in pending;
        assert forall q <- reqs[1..] :: q in reqs;
        if e.outcome.Answered? {
          assert pending[e.consumed - 1] in pending;
        }
      }
    }
  }

  /** The run from the `i`-th request on: this one's exchange, then the rest. */
  lemma FetchAllStep<B>(pending: seq<Response<B>>, reqs: seq<HttpRequest>, i: nat)
    requires i < |reqs|
    ensures var e := Fetch(pending);
      FetchAll(pending, reqs[i..]) ==
        After(Found(e.outcome), Repeat(reqs[i], e.attempts), e.consumed, e.sleeps,
              if e.outcome.NoAnswer? then Halted() else FetchAll(pending[e.consumed..], reqs[i + 1..]))
  {
    assert reqs[i..][0] == reqs[i] && reqs[i..][1..] == reqs[i + 1..];
  }

  lemma AfterTwice<B>(f1: seq<Option<B>>, s1: seq<HttpRequest>, u1: nat, w1: seq<int>,
                      f2: seq<Option<B>>, s2: seq<HttpRequest>, u2: nat, w2: seq<int>, b: Batch<B>)
    ensures After(f1, s1, u1, w1, After(f2, s2, u2, w2, b)) == After(f1 + f2, s1 + s2, u1 + u2, w1 + w2, b)
  {
    AppendAssoc(f1, f2, b.found);
    AppendAssoc(s1, s2, b.sent);
    AppendAssoc(w1, w2, b.sleeps);
  }

  /**
   * One `req` per request, in order, stopping at the first that goes
   * unanswered; an HTTP error on one is caught and gives None.
   */
  method FetchEach<B>(s: Session<B>, reqs: seq<HttpRequest>) returns (found: seq<Option<B>>, fatal: bool)
    modifies s
    ensures var b := FetchAll(old(s.pending), reqs);
      && found == b.found && fatal == b.fatal
      && s.pending == old(s.pending)[b.consumed..]
      && s.sent == old(s.sent) + b.sent
      && s.slept == old(s.slept) + b.sleeps
  {
    ghost var b0 := FetchAll(s.pending, reqs);
    ghost var p0, sent0, slept0 := s.pending, s.sent, s.slept;
    ghost var gsent: seq<HttpRequest>, gslept: seq<int>, gused: nat := [], [], 0;
    found, fatal := [], false;
    for i := 0 to |reqs|
      invariant |found| == i
      invariant gused <= |p0| && s.pending == p0[gused..]
      invariant s.sent == sent0 + gsent && s.slept == slept0 + gslept
      invariant b0 == After(found, gsent, gused, gslept, FetchAll(s.pending, reqs[i..]))
    {
      ghost var pre := s.pending;
      ghost var e := Fetch(pre);
      var o := Req(s, reqs[i]);
      var got := Found(o);
      FetchAllStep(pre, reqs, i);
      AfterTwice(found, gsent, gused, gslept, got, Repeat(reqs[i], e.attempts), e.consumed, e.sleeps,
                 if o.NoAnswer? then Halted() else FetchAll(s.pending, reqs[i + 1..]));
      assert p0[gused..][e.consumed..] == p0[gused + e.consumed..];
      AppendAssoc(sent0, gsent, Repeat(reqs[i], e.attempts));
      AppendAssoc(slept0, gslept, e.sleeps);
      found := found + got;
      gsent, gslept, gused := gsent + Repeat(reqs[i], e.attempts), gslept + e.sleeps, gused + e.consumed;
      if o.NoAnswer? {
        fatal := true;
        assert gsent + [] == gsent && gslept + [] == gslept && found + [] == found;
        return;
      }
    }
    assert gsent + [] == gsent && gslept + [] == gslept && found + [] == found;
  }
}
