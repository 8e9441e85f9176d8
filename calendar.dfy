/**
 * The calendar exporter (calendar_export.py): start and end times of an
 * event, the row each event becomes, the paged listing of the primary
 * calendar, and the per-week counts of the summary.
 */
module Calendar {
  import opened Wrappers
  import opened Text
  import opened IsoTime
  import opened Tally
  import opened Paging

  /** A JSON member that may be missing, present as null, or present as a string. */
  datatype Field = Missing | Null | Str(value: string)

  /** An event's `start` or `end` object: a `dateTime`, or a bare `date` for all-day events. */
  datatype TimeSpec = TimeSpec(dateTime: Field, date: Field)

  /** A conference entry point: its type and URI, either possibly absent. */
  datatype EntryPoint = EntryPoint(entryPointType: Option<string>, uri: Option<string>)

  /**
   * An event as the listing returns it. A None `start`/`end` is a missing or
   * null object; None `attendees` or `entryPoints` are missing or null lists.
   */
  datatype Event = Event(
    start: Option<TimeSpec>, end: Option<TimeSpec>,
    summary: Option<string>, htmlLink: Option<string>, organizerEmail: Option<string>,
    attendees: Option<seq<string>>, entryPoints: Option<seq<EntryPoint>>)

  /** A response of `events().list`: its `items` and its `nextPageToken`. */
  type EventPage = Page<Event>

  /** A row of the meetings CSV. */
  datatype EventRow = EventRow(
    date: string, start: string, end: string, title: string,
    link: string, meetLink: string, organizer: string, attendeesCount: nat)

  const Midnight := "T00:00:00Z"

  /** `parse_event_time` (calendar_export.py:45-52). */
  function ParseEventTime(t: Option<TimeSpec>): (r: string)
  {
    match t
    case None => ""
    case Some(ts) =>
      if !ts.dateTime.Missing? then (if ts.dateTime.Str? then ts.dateTime.value else "")
      else if !ts.date.Missing? then (if ts.date.Str? then ts.date.value else "") + Midnight
      else ""
  }

  /**
   * A present `dateTime` wins, even when null (giving ""); otherwise a
   * present `date` becomes that day at midnight UTC; otherwise "".
   */
  lemma ParseEventTimeCases(t: Option<TimeSpec>)
    ensures t.None? ==> ParseEventTime(t) == ""
    ensures t.Some? && t.value.dateTime.Str? ==> ParseEventTime(t) == t.value.dateTime.value
    ensures t.Some? && t.value.dateTime.Null? ==> ParseEventTime(t) == ""
    ensures t.Some? && t.value.dateTime.Missing? && t.value.date.Missing? ==> ParseEventTime(t) == ""
    ensures t.Some? && t.value.dateTime.Missing? && !t.value.date.Missing? ==>
      var r := ParseEventTime(t);
      && |r| >= 10 && r[|r| - 10..] == Midnight
      && (t.value.date.Str? ==> r == t.value.date.value + Midnight)
      && (t.value.date.Str? && ParseDate(t.value.date.value).Some? ==>
            ParseIso(r) == Some(DateTime(ParseDate(t.value.date.value).value, 0, 0, 0)))
  {
    if t.Some? && t.value.dateTime.Missing? && t.value.date.Str? && ParseDate(t.value.date.value).Some? {
      var x := t.value.date.value;
      assert AllDigits("00");
      assert ParseClock("00:00:00") == Some((0, 0, 0));
      ParseDateAndClock(x, "00:00:00", ParseDate(x).value, 0, 0, 0);
      assert x + "T" + "00:00:00" + "Z" == x + Midnight;
    }
  }

  // ------------------------------------------------------------ one event's row

  /** `(ep.get("entryPointType") or "").upper() == "VIDEO"`. */
  predicate IsVideo(ep: EntryPoint) {
    Upper(ep.entryPointType.GetOr("")) == "VIDEO"
  }

  /** The index of the first video entry point, or `|eps|` when there is none. */
  function FirstVideo(eps: seq<EntryPoint>): (i: nat)
    ensures i <= |eps|
    ensures forall k :: 0 <= k < i ==> !IsVideo(eps[k])
    ensures i < |eps| ==> IsVideo(eps[i])
  {
    if eps == [] then 0 else if IsVideo(eps[0]) then 0 else 1 + FirstVideo(eps[1..])
  }

  /** The conference link the row shows (calendar_export.py:100-108). */
  function MeetLink(eps: seq<EntryPoint>): string {
    var i := FirstVideo(eps);
    var video := if i < |eps| then eps[i].uri.GetOr("") else "";
    if video == "" && eps != [] then eps[0].uri.GetOr("") else video
  }

  /**
   * The link is the URI of the first video entry point; failing that (no
   * video entry point, or one without a URI) the first entry point's URI;
   * and "" without entry points.
   */
  lemma MeetLinkPreference(eps: seq<EntryPoint>)
    ensures eps == [] ==> MeetLink(eps) == ""
    ensures forall i :: (0 <= i < |eps| && IsVideo(eps[i]) && (forall k :: 0 <= k < i ==> !IsVideo(eps[k]))
                         && eps[i].uri.GetOr("") != "") ==> MeetLink(eps) == eps[i].uri.GetOr("")
    ensures (forall ep <- eps :: !IsVideo(ep)) && eps != [] ==> MeetLink(eps) == eps[0].uri.GetOr("")
    ensures FirstVideo(eps) < |eps| && eps[FirstVideo(eps)].uri.GetOr("") == "" ==> MeetLink(eps) == eps[0].uri.GetOr("")
    ensures MeetLink(eps) == "" ==> eps == [] || eps[0].uri.GetOr("") == ""
  {
    var f := FirstVideo(eps);
    forall i | 0 <= i < |eps| && IsVideo(eps[i]) && (forall k :: 0 <= k < i ==> !IsVideo(eps[k]))
      ensures i == f
    {
    }
  }

  /** The entry-point loop with its `break`, then the fallback to the first entry. */
  method ChooseMeetLink(eps: seq<EntryPoint>) returns (link: string)
    ensures link == MeetLink(eps)
  {
    link := "";
    var i := 0;
    while i < |eps|
      invariant i <= FirstVideo(eps)
      invariant link == ""
    {
      if Upper(eps[i].entryPointType.GetOr("")) == "VIDEO" {
        link := eps[i].uri.GetOr("");
        break;
      }
      i := i + 1;
    }
    if link == "" && |eps| > 0 {
      link := eps[0].uri.GetOr("");
    }
  }

  /** The date column: the first ten characters of the start, or "" without one. */
  function DateColumn(start: string): string {
    if start != "" then Take(start, 10) else ""
  }

  /** `(event.get("summary") or "").strip() or "(No title)"`. */
  function Title(summary: Option<string>): string {
    OrElse(Strip(summary.GetOr("")), "(No title)")
  }

  function AttendeesCount(attendees: Option<seq<string>>): nat {
    match attendees
    case None => 0
    case Some(a) => |a|
  }

  /** The row of one event (calendar_export.py:91-119). */
  function RowOf(e: Event): EventRow {
    var start := ParseEventTime(e.start);
    EventRow(DateColumn(start), start, ParseEventTime(e.end), Title(e.summary),
             e.htmlLink.GetOr(""), MeetLink(e.entryPoints.GetOr([])),
             e.organizerEmail.GetOr(""), AttendeesCount(e.attendees))
  }

  /**
   * The date column is empty exactly when the start is, and otherwise the
   * first ten characters of it; the title is never empty, and it is the
   * stripped summary unless that is blank; the attendee count is the length
   * of the list, 0 when there is none.
   */
  lemma RowOfShape(e: Event)
    ensures var r := RowOf(e);
      && r.start == ParseEventTime(e.start) && r.end == ParseEventTime(e.end)
      && (r.date == "" <==> r.start == "")
      && |r.date| <= 10 && r.date == r.start[..|r.date|]
      && (|r.start| >= 10 ==> r.date == r.start[..10])
      && r.title != ""
      && (Strip(e.summary.GetOr("")) != "" ==> r.title == Strip(e.summary.GetOr("")))
      && ((forall i :: 0 <= i < |e.summary.GetOr("")| ==> IsSpace(e.summary.GetOr("")[i])) ==> r.title == "(No title)")
      && (e.attendees.Some? ==> r.attendeesCount == |e.attendees.value|)
      && (e.attendees.None? ==> r.attendeesCount == 0)
  {
    StripProperties(e.summary.GetOr(""));
  }

  /** The row loop over one page. */
  method PageRows(events: seq<Event>) returns (rows: seq<EventRow>)
    ensures rows == RowsOf(events)
  {
    rows := [];
    for i := 0 to |events|
      invariant rows == RowsOf(events[..i])
    {
      var e := events[i];
      var start := ParseEventTime(e.start);
      var link := ChooseMeetLink(e.entryPoints.GetOr([]));
      assert events[..i + 1][..i] == events[..i];
      rows := rows + [EventRow(DateColumn(start), start, ParseEventTime(e.end), Title(e.summary),
                               e.htmlLink.GetOr(""), link, e.organizerEmail.GetOr(""), AttendeesCount(e.attendees))];
    }
    assert events[..|events|] == events;
  }

  // ------------------------------------------------------------ the listing

  function RowsOf(events: seq<Event>): (rows: seq<EventRow>)
    ensures |rows| == |events|
  {
    if events == [] then [] else RowsOf(events[..|events| - 1]) + [RowOf(events[|events| - 1])]
  }

  /** Exactly one row per event, in order, each that event's own. */
  lemma {:induction false} RowsOfEach(events: seq<Event>)
    ensures forall k :: 0 <= k < |events| ==> RowsOf(events)[k] == RowOf(events[k])
  {
    if events != [] {
      var p := events[..|events| - 1];
      RowsOfEach(p);
      forall k | 0 <= k < |events| ensures RowsOf(events)[k] == RowOf(events[k]) {
        if k < |p| {
          assert RowsOf(events)[k] == RowsOf(p)[k];
        }
      }
    }
  }

  lemma {:induction false} RowsOfAppend(a: seq<Event>, b: seq<Event>)
    ensures RowsOf(a + b) == RowsOf(a) + RowsOf(b)
    decreases |b|
  {
    if b == [] {
      assert a + b == a;
    } else {
      var p := b[..|b| - 1];
      assert (a + b)[..|a + b| - 1] == a + p;
      RowsOfAppend(a, p);
    }
  }

  /** One more page adds its events' rows. */
  lemma EventsStep(pages: seq<EventPage>, p: nat)
    requires p < |pages|
    ensures RowsOf(Items(pages[..p + 1])) == RowsOf(Items(pages[..p])) + RowsOf(pages[p].items)
  {
    assert pages[..p + 1][..p] == pages[..p];
    RowsOfAppend(Items(pages[..p]), pages[p].items);
  }

  /** One request of the listing: the window's bounds and the page token ("" for none). */
  datatype ListRequest = ListRequest(timeMin: string, timeMax: string, pageToken: string)

  function RequestFor(w: Window, token: string): ListRequest {
    ListRequest(QueryBounds(w).0, QueryBounds(w).1, token)
  }

  function Requests(w: Window, tokens: seq<string>): (rs: seq<ListRequest>)
    ensures |rs| == |tokens|
    ensures forall k :: 0 <= k < |tokens| ==> rs[k] == RequestFor(w, tokens[k])
  {
    seq(|tokens|, k requires 0 <= k < |tokens| => RequestFor(w, tokens[k]))
  }

  lemma RequestsAppend(w: Window, tokens: seq<string>, t: string)
    ensures Requests(w, tokens + [t]) == Requests(w, tokens) + [RequestFor(w, t)]
  {
  }

  /**
   * The listing loop (calendar_export.py:72-122): ask for pages within the
   * window's bounds until one comes back without a next-page token, each
   * request carrying the previous page's token; every event of every page
   * served becomes one row.
   */
  method CollectEvents(pages: seq<EventPage>, w: Window) returns (rows: seq<EventRow>, sent: seq<ListRequest>)
    ensures var n := PagesServed(Tokens(pages));
      && sent == Requests(w, RequestTokens(Tokens(pages), n))
      && rows == RowsOf(Items(pages[..n]))
  {
    ghost var n := PagesServed(Tokens(pages));
    rows, sent := [], [];
    var pageToken := "";
    var p := 0;
    while p < |pages|
      invariant p <= n
      invariant p == 0 || pageToken != ""
      invariant pageToken == if p == 0 then "" else pages[p - 1].nextPageToken
      invariant sent == Requests(w, RequestTokens(Tokens(pages), p))
      invariant rows == RowsOf(Items(pages[..p]))
    {
      PagesServedNext(Tokens(pages), p);
      RequestTokensStep(Tokens(pages), p);
      RequestsAppend(w, RequestTokens(Tokens(pages), p), pageToken);
      sent := sent + [RequestFor(w, pageToken)];
      var pageRows := PageRows(pages[p].items);
      EventsStep(pages, p);
      rows := rows + pageRows;
      pageToken := pages[p].nextPageToken;
      p := p + 1;
      if pageToken == "" {
        PagesServedAt(Tokens(pages), p);
        break;
      }
    }
    if p == |pages| {
      PagesServedAt(Tokens(pages), p);
    }
  }

  // ------------------------------------------------------------ by week

  /** A `%Y-W%W` week: the year and strftime's Monday-based week number. */
  datatype WeekKey = WeekKey(year: int, week: int)

  /** The order of the week labels: later weeks have larger ranks. */
  function WeekRank(k: WeekKey): int {
    k.year * 100 + k.week
  }

  /** The week a row counts toward, when its date column holds a date. */
  function WeekOf(r: EventRow): Option<WeekKey> {
    if r.date == "" then None
    else match ParseDate(r.date)
      case None => None
      case Some(d) => Some(WeekKey(d.year, WeekOfYear(d)))
  }

  /** The weeks of the dated rows, in row order. */
  function WeeksOf(rows: seq<EventRow>): seq<WeekKey> {
    if rows == [] then []
    else
      var w := WeekOf(rows[|rows| - 1]);
      WeeksOf(rows[..|rows| - 1]) + (if w.Some? then [w.value] else [])
  }

  /** How many rows carry a parseable date. */
  function DatedCount(rows: seq<EventRow>): nat {
    if rows == [] then 0
    else DatedCount(rows[..|rows| - 1]) + (if WeekOf(rows[|rows| - 1]).Some? then 1 else 0)
  }

  /** Every dated row contributes one week, and only dated rows do. */
  lemma {:induction false} WeeksOfCount(rows: seq<EventRow>)
    ensures |WeeksOf(rows)| == DatedCount(rows)
    ensures forall k <- WeeksOf(rows) :: 0 <= k.week <= 53 && 1 <= k.year <= 9999
  {
    if rows != [] {
      WeeksOfCount(rows[..|rows| - 1]);
      var w := WeekOf(rows[|rows| - 1]);
      if w.Some? {
        var d := ParseDate(rows[|rows| - 1].date).value;
        assert w.value == WeekKey(d.year, WeekOfYear(d));
      }
    }
  }

  /** Distinct weeks have distinct ranks. */
  lemma WeekRankInjective(a: WeekKey, b: WeekKey)
    requires 0 <= a.week <= 53 && 0 <= b.week <= 53
    requires a != b
    ensures WeekRank(a) != WeekRank(b)
  {
    if a.year == b.year {
      assert a.week != b.week;
    } else if a.year < b.year {
      assert WeekRank(a) <= a.year * 100 + 53 < b.year * 100 <= WeekRank(b);
    } else {
      assert WeekRank(b) <= b.year * 100 + 53 < a.year * 100 <= WeekRank(a);
    }
  }

  lemma WeeksOfStep(rows: seq<EventRow>, i: nat, k: WeekKey)
    requires i < |rows|
    ensures WeeksOf(rows[..i + 1]) == WeeksOf(rows[..i]) + (if WeekOf(rows[i]).Some? then [WeekOf(rows[i]).value] else [])
    ensures Count(WeeksOf(rows[..i + 1]), k) == Count(WeeksOf(rows[..i]), k) + (if WeekOf(rows[i]) == Some(k) then 1 else 0)
  {
    var q := rows[..i + 1];
    assert q[..|q| - 1] == rows[..i] && q[|q| - 1] == rows[i];
    var p := WeeksOf(rows[..i]);
    if WeekOf(rows[i]).Some? {
      assert (p + [WeekOf(rows[i]).value])[..|p|] == p;
    } else {
      assert WeeksOf(q) == p;
    }
  }

  /** The `by_week` fold (calendar_export.py:131-139), with the order weeks first appear in. */
  method CountByWeek(rows: seq<EventRow>) returns (byWeek: map<WeekKey, nat>, order: seq<WeekKey>)
    ensures forall k :: k in byWeek <==> k in WeeksOf(rows)
    ensures forall k <- byWeek :: byWeek[k] == Count(WeeksOf(rows), k)
    ensures Distinct(order) && forall k :: k in order <==> k in byWeek
  {
    byWeek, order := map[], [];
    for i := 0 to |rows|
      invariant forall k :: k in byWeek <==> k in WeeksOf(rows[..i])
      invariant forall k <- byWeek :: byWeek[k] == Count(WeeksOf(rows[..i]), k)
      invariant Distinct(order) && forall k :: k in order <==> k in byWeek
    {
      var r := rows[i];
      var w := WeekOf(r);
      WeeksOfStep(rows, i, Zero);
      if w.Some? {
        var k := w.value;
        var cur := 0;
        if k in byWeek {
          cur := byWeek[k];
        } else {
          order := order + [k];
          CountPositive(WeeksOf(rows[..i]), k);
        }
        byWeek := byWeek[k := cur + 1];
      }
      forall k <- byWeek ensures byWeek[k] == Count(WeeksOf(rows[..i + 1]), k) {
        WeeksOfStep(rows, i, k);
      }
    }
    assert rows[..|rows|] == rows;
  }

  const Zero := WeekKey(0, 0)

  /**
   * The "By week" section (calendar_export.py:131-146): every week with a
   * dated row, each once, latest first, with its number of rows; the counts
   * add up to the number of rows with a parseable date.
   */
  method ByWeek(rows: seq<EventRow>) returns (weeks: seq<WeekKey>, counts: map<WeekKey, nat>)
    ensures forall k :: k in weeks <==> k in WeeksOf(rows)
    ensures forall i, j :: 0 <= i < j < |weeks| ==> WeekRank(weeks[i]) > WeekRank(weeks[j])
    ensures forall k <- weeks :: k in counts && counts[k] == Count(WeeksOf(rows), k)
    ensures SumCounts(WeeksOf(rows), weeks) == DatedCount(rows)
  {
    var order;
    counts, order := CountByWeek(rows);
    weeks := SortDesc(order, WeekRank);
    SortDescCorrect(order, WeekRank);
    DistinctPermutation(order, weeks);
    forall k ensures k in weeks <==> k in order {
      assert k in weeks <==> k in multiset(weeks);
      assert k in order <==> k in multiset(order);
    }
    WeeksOfCount(rows);
    forall i, j | 0 <= i < j < |weeks| ensures WeekRank(weeks[i]) > WeekRank(weeks[j]) {
      assert weeks[i] in WeeksOf(rows) && weeks[j] in WeeksOf(rows);
      WeekRankInjective(weeks[i], weeks[j]);
    }
    SumCountsCovers(WeeksOf(rows), weeks);
  }
}
