/**
 * The Docs exporter's summary by file (gdocs_export.py:176-245): the rollup
 * of the deduplicated rows into one record per file id, the summary list
 * built from it, and its order (latest activity first, files without a
 * parsable timestamp last).
 */
module DocsSummary {
  import opened Wrappers
  import opened IsoTime
  import opened Tally
  import opened DocsActivity

  /** The per-file record of the rollup; `first` / `last` are the parsed `first_activity_dt` / `last_activity_dt`. */
  datatype FileStats = FileStats(
    fileId: string, title: string, url: string,
    first: Option<DateTime>, last: Option<DateTime>,
    creates: nat, edits: nat, comments: nat, totalActions: nat,
    activeDays: set<Date>)

  /** First and last activity, when set, are real date-times (they come from the timestamp parser). */
  predicate Sane(d: FileStats) {
    (d.first.Some? ==> ValidDateTime(d.first.value)) && (d.last.Some? ==> ValidDateTime(d.last.value))
  }

  /** The record `files.setdefault` creates for a new id. */
  function NewStats(fid: string): FileStats {
    FileStats(fid, "", "", None, None, 0, 0, 0, 0, {})
  }

  /** How one row updates its file's record (gdocs_export.py:194-214). */
  function Absorb(d: FileStats, r: DocRow): (e: FileStats)
    ensures Sane(d) ==> Sane(e)
  {
    var named := d.(title := if r.title != "" then r.title else d.title,
                    url := if r.url != "" then r.url else d.url);
    var timed := match ParseIso(r.timestamp)
      case None => named
      case Some(t) =>
        named.(first := if named.first.None? || Before(t, named.first.value) then Some(t) else named.first,
               last := if named.last.None? || Before(named.last.value, t) then Some(t) else named.last,
               activeDays := named.activeDays + {t.date});
    timed.(creates := timed.creates + (if r.action == "CREATE" then 1 else 0),
           edits := timed.edits + (if r.action == "EDIT" then 1 else 0),
           comments := timed.comments + (if r.action == "COMMENT" then 1 else 0),
           totalActions := timed.totalActions + 1)
  }

  /** The rows of file `fid`, in order. */
  function RowsFor(rows: seq<DocRow>, fid: string): seq<DocRow> {
    if rows == [] then []
    else
      var r := rows[|rows| - 1];
      RowsFor(rows[..|rows| - 1], fid) + (if r.fileId == fid then [r] else [])
  }

  /** The record of file `fid` after folding in the rows `rs`. */
  function StatsOf(fid: string, rs: seq<DocRow>): (d: FileStats)
    ensures Sane(d)
  {
    if rs == [] then NewStats(fid) else Absorb(StatsOf(fid, rs[..|rs| - 1]), rs[|rs| - 1])
  }

  /** The `files` dict and its insertion order. */
  datatype Rollup = Rollup(files: map<string, FileStats>, order: seq<string>)

  /** The rollup loop read as a fold: rows without a file id are skipped. */
  function RollupOf(rows: seq<DocRow>): (ru: Rollup)
    ensures forall f <- ru.files :: Sane(ru.files[f])
    ensures forall f <- ru.order :: f in ru.files
  {
    if rows == [] then Rollup(map[], [])
    else
      var acc := RollupOf(rows[..|rows| - 1]);
      var r := rows[|rows| - 1];
      if r.fileId == "" then acc
      else if r.fileId in acc.files then
        Rollup(acc.files[r.fileId := Absorb(acc.files[r.fileId], r)], acc.order)
      else
        Rollup(acc.files[r.fileId := Absorb(NewStats(r.fileId), r)], acc.order + [r.fileId])
  }

  /** The rollup loop as the code runs it, updating the record in place. */
  method RollUp(rows: seq<DocRow>) returns (files: map<string, FileStats>, order: seq<string>)
    ensures Rollup(files, order) == RollupOf(rows)
  {
    files, order := map[], [];
    for i := 0 to |rows|
      invariant Rollup(files, order) == RollupOf(rows[..i])
    {
      var r := rows[i];
      assert rows[..i + 1][..i] == rows[..i];
      var fid := r.fileId;
      if fid == "" {
        continue;
      }
      if fid !in files {
        files := files[fid := NewStats(fid)];
        order := order + [fid];
      }
      var d := AbsorbRow(files[fid], r);
      files := files[fid := d];
    }
    assert rows[..|rows|] == rows;
  }

  /** The in-place updates of one record by one row. */
  method AbsorbRow(d: FileStats, r: DocRow) returns (e: FileStats)
    ensures e == Absorb(d, r)
  {
    e := d;
    if r.title != "" {
      e := e.(title := r.title);
    }
    if r.url != "" {
      e := e.(url := r.url);
    }
    assert e == d.(title := if r.title != "" then r.title else d.title,
                   url := if r.url != "" then r.url else d.url);
    var ts := ParseIso(r.timestamp);
    if ts.Some? {
      e := StampTime(e, ts.value);
    }
    e := CountAction(e, r.action);
  }

  /** The running first/last activity and the active days after a row stamped `t` (gdocs_export.py:199-206). */
  method StampTime(d: FileStats, t: DateTime) returns (e: FileStats)
    ensures e == d.(first := if d.first.None? || Before(t, d.first.value) then Some(t) else d.first,
                    last := if d.last.None? || Before(d.last.value, t) then Some(t) else d.last,
                    activeDays := d.activeDays + {t.date})
  {
    e := d;
    if e.first.None? || Before(t, e.first.value) {
      e := e.(first := Some(t));
    }
    if e.last.None? || Before(e.last.value, t) {
      e := e.(last := Some(t));
    }
    e := e.(activeDays := e.activeDays + {t.date});
  }

  /** The counter updates for one row's action (gdocs_export.py:208-214). */
  method CountAction(d: FileStats, action: string) returns (e: FileStats)
    ensures e == d.(creates := d.creates + (if action == "CREATE" then 1 else 0),
                    edits := d.edits + (if action == "EDIT" then 1 else 0),
                    comments := d.comments + (if action == "COMMENT" then 1 else 0),
                    totalActions := d.totalActions + 1)
  {
    e := d;
    if action == "CREATE" {
      e := e.(creates := e.creates + 1);
    } else if action == "EDIT" {
      e := e.(edits := e.edits + 1);
    } else if action == "COMMENT" {
      e := e.(comments := e.comments + 1);
    }
    e := e.(totalActions := e.totalActions + 1);
  }

  /** The rollup has a record for each non-empty file id seen, and its order lists each of them once. */
  lemma {:induction false} RollupKeys(rows: seq<DocRow>)
    ensures var ru := RollupOf(rows);
      && (forall f :: f in ru.files <==> f != "" && RowsFor(rows, f) != [])
      && Distinct(ru.order)
      && (forall f :: f in ru.order <==> f in ru.files)
  {
    if rows != [] {
      var p, r := rows[..|rows| - 1], rows[|rows| - 1];
      RollupKeys(p);
      var acc, g := RollupOf(p), r.fileId;
      if g != "" && g !in acc.files {
        forall i, j | 0 <= i < j < |acc.order + [g]|
          ensures (acc.order + [g])[i] != (acc.order + [g])[j]
        {
          if j == |acc.order| {
            assert acc.order[i] in acc.order;
          }
        }
      }
    }
  }

  /** Each record of the rollup is the fold of exactly its file's rows. */
  lemma {:induction false} RollupPerFile(rows: seq<DocRow>)
    ensures var ru := RollupOf(rows); forall f <- ru.files :: ru.files[f] == StatsOf(f, RowsFor(rows, f))
  {
    if rows != [] {
      var p, r := rows[..|rows| - 1], rows[|rows| - 1];
      RollupPerFile(p);
      RollupKeys(p);
      var acc, g := RollupOf(p), r.fileId;
      var ru := RollupOf(rows);
      forall f <- ru.files ensures ru.files[f] == StatsOf(f, RowsFor(rows, f)) {
        if f == g {
          var old_rs := RowsFor(p, g);
          assert RowsFor(rows, g) == old_rs + [r];
          assert (old_rs + [r])[..|old_rs|] == old_rs;
          assert g !in acc.files ==> old_rs == [];
          var base := if g in acc.files then acc.files[g] else NewStats(g);
          assert base == StatsOf(g, old_rs);
          assert ru.files[g] == Absorb(base, r);
        } else {
          assert RowsFor(rows, f) == RowsFor(p, f);
          assert ru.files[f] == acc.files[f];
        }
      }
    }
  }

  // ------------------------------------------------------------ per-file facts

  function Actions(rs: seq<DocRow>): (acts: seq<string>)
    ensures |acts| == |rs| && forall i :: 0 <= i < |rs| ==> acts[i] == rs[i].action
  {
    seq(|rs|, i requires 0 <= i < |rs| => rs[i].action)
  }

  /** Each action counter counts its label among the file's rows; the total counts every row. */
  lemma {:induction false} StatsCounts(fid: string, rs: seq<DocRow>)
    ensures var d := StatsOf(fid, rs);
      && d.fileId == fid
      && d.totalActions == |rs|
      && d.creates == Count(Actions(rs), "CREATE")
      && d.edits == Count(Actions(rs), "EDIT")
      && d.comments == Count(Actions(rs), "COMMENT")
      && |d.activeDays| <= d.totalActions
  {
    if rs != [] {
      var p := rs[..|rs| - 1];
      StatsCounts(fid, p);
      assert Actions(rs)[..|rs| - 1] == Actions(p);
      var d := StatsOf(fid, p);
      var t := ParseIso(rs[|rs| - 1].timestamp);
      if t.Some? {
        assert |d.activeDays + {t.value.date}| <= |d.activeDays| + 1;
      }
    }
  }

  /** When every row is a CREATE, EDIT or COMMENT, the three counters add up to the total. */
  lemma {:induction false} StatsAccepted(fid: string, rs: seq<DocRow>)
    requires forall r <- rs :: r.action in {"CREATE", "EDIT", "COMMENT"}
    ensures var d := StatsOf(fid, rs); d.creates + d.edits + d.comments == d.totalActions
  {
    if rs != [] {
      StatsAccepted(fid, rs[..|rs| - 1]);
    }
  }

  /** The parsable timestamps among `rs`. */
  function ParsedTimes(rs: seq<DocRow>): (ts: set<DateTime>)
    ensures forall t <- ts :: ValidDateTime(t)
  {
    if rs == [] then {}
    else
      var t := ParseIso(rs[|rs| - 1].timestamp);
      ParsedTimes(rs[..|rs| - 1]) + (if t.Some? then {t.value} else {})
  }

  lemma ParsedTimesStep(rs: seq<DocRow>)
    requires rs != []
    ensures var t := ParseIso(rs[|rs| - 1].timestamp);
      ParsedTimes(rs) == ParsedTimes(rs[..|rs| - 1]) + (if t.Some? then {t.value} else {})
  {
  }

  /**
   * First and last activity are the earliest and latest parsable
   * timestamps of the file's rows, both absent when there is none.
   */
  lemma {:induction false} StatsFirstLast(fid: string, rs: seq<DocRow>)
    ensures var d, ts := StatsOf(fid, rs), ParsedTimes(rs);
      && (d.first.Some? <==> ts != {})
      && (d.last.Some? <==> ts != {})
      && (d.first.Some? ==> d.first.value in ts && forall t <- ts :: !Before(t, d.first.value))
      && (d.last.Some? ==> d.last.value in ts && forall t <- ts :: !Before(d.last.value, t))
  {
    if rs != [] {
      var p := rs[..|rs| - 1];
      StatsFirstLast(fid, p);
      ParsedTimesStep(rs);
      var d, ts := StatsOf(fid, p), ParsedTimes(p);
      var pt := ParseIso(rs[|rs| - 1].timestamp);
      if pt.Some? {
        var t := pt.value;
        var d2 := StatsOf(fid, rs);
        assert d2.first.Some? && d2.last.Some?;
        forall u <- ts + {t} ensures !Before(u, d2.first.value) {
          if u in ts && Before(u, t) && d.first.Some? && Before(t, d.first.value) {
            BeforeTransitive(u, t, d.first.value);
          }
        }
        forall u <- ts + {t} ensures !Before(d2.last.value, u) {
          if u in ts && Before(t, u) && d.last.Some? && Before(d.last.value, t) {
            BeforeTransitive(d.last.value, t, u);
          }
        }
      }
    }
  }

  /** The active days are exactly the dates of the parsable timestamps. */
  lemma {:induction false} StatsDays(fid: string, rs: seq<DocRow>)
    ensures StatsOf(fid, rs).activeDays == set t <- ParsedTimes(rs) :: t.date
  {
    if rs != [] {
      var p := rs[..|rs| - 1];
      StatsDays(fid, p);
      ParsedTimesStep(rs);
      var pt := ParseIso(rs[|rs| - 1].timestamp);
      if pt.Some? {
        var ts := ParsedTimes(p);
        assert (set u <- ts + {pt.value} :: u.date) == (set u <- ts :: u.date) + {pt.value.date};
      }
    }
  }

  lemma BeforeTransitive(a: DateTime, b: DateTime, c: DateTime)
    requires Before(a, b) && Before(b, c)
    ensures Before(a, c)
  {
  }

  /** The last non-empty string of `ss`, or "". */
  function LastNonEmpty(ss: seq<string>): string {
    if ss == [] then ""
    else if ss[|ss| - 1] != "" then ss[|ss| - 1]
    else LastNonEmpty(ss[..|ss| - 1])
  }

  lemma {:induction false} LastNonEmptyIsLast(ss: seq<string>)
    ensures LastNonEmpty(ss) == "" <==> forall s <- ss :: s == ""
    ensures LastNonEmpty(ss) != "" ==>
      exists i :: 0 <= i < |ss| && ss[i] == LastNonEmpty(ss) && forall j :: i < j < |ss| ==> ss[j] == ""
  {
    if ss != [] {
      var p, x := ss[..|ss| - 1], ss[|ss| - 1];
      LastNonEmptyIsLast(p);
      assert ss == p + [x];
      if x != "" {
        assert ss[|ss| - 1] == LastNonEmpty(ss);
        assert x in ss;
      } else {
        assert LastNonEmpty(ss) == LastNonEmpty(p);
        if LastNonEmpty(p) != "" {
          var i :| 0 <= i < |p| && p[i] == LastNonEmpty(p) && forall j :: i < j < |p| ==> p[j] == "";
          assert ss[i] == LastNonEmpty(ss) && ss[i] in ss;
        } else {
          assert forall s <- ss :: s in p || s == x;
        }
      }
    }
  }

  function Titles(rs: seq<DocRow>): (ts: seq<string>)
    ensures |ts| == |rs| && forall i :: 0 <= i < |rs| ==> ts[i] == rs[i].title
  {
    seq(|rs|, i requires 0 <= i < |rs| => rs[i].title)
  }

  function Urls(rs: seq<DocRow>): (us: seq<string>)
    ensures |us| == |rs| && forall i :: 0 <= i < |rs| ==> us[i] == rs[i].url
  {
    seq(|rs|, i requires 0 <= i < |rs| => rs[i].url)
  }

  /** A file's title and URL are the last non-empty ones among its rows. */
  lemma {:induction false} StatsTitleUrl(fid: string, rs: seq<DocRow>)
    ensures StatsOf(fid, rs).title == LastNonEmpty(Titles(rs))
    ensures StatsOf(fid, rs).url == LastNonEmpty(Urls(rs))
  {
    if rs != [] {
      StatsTitleUrl(fid, rs[..|rs| - 1]);
      assert Titles(rs)[..|rs| - 1] == Titles(rs[..|rs| - 1]);
      assert Urls(rs)[..|rs| - 1] == Urls(rs[..|rs| - 1]);
    }
  }

  // ------------------------------------------------------------ the summary list

  /** A row of the summary: `_last_sort` is kept as the parsed last activity. */
  datatype FileSummary = FileSummary(
    fileId: string, title: string, url: string,
    firstActivity: string, lastActivity: string,
    creates: nat, edits: nat, comments: nat, totalActions: nat, activeDays: nat,
    lastSort: Option<DateTime>)

  /** `"%Y-%m-%d %H:%M:%S %Z"` of a timestamp, "" without one. */
  function Display(t: Option<DateTime>): string
    requires t.Some? ==> ValidDateTime(t.value)
  {
    if t.Some? then FormatDisplay(t.value) else ""
  }

  function Summarize(d: FileStats): FileSummary
    requires Sane(d)
  {
    FileSummary(d.fileId, d.title, d.url, Display(d.first), Display(d.last),
                d.creates, d.edits, d.comments, d.totalActions, |d.activeDays|, d.last)
  }

  /**
   * The sort key: `_last_sort` is the ISO text of the last activity, whose
   * string order is chronological, or "" which sorts below every timestamp.
   */
  function LastSortKey(s: FileSummary): int {
    if s.lastSort.Some? then Rank(s.lastSort.value) else -1
  }

  /** The summaries in the rollup's insertion order. */
  function Summaries(ru: Rollup): seq<FileSummary>
    requires forall f <- ru.order :: f in ru.files && Sane(ru.files[f])
  {
    seq(|ru.order|, i requires 0 <= i < |ru.order| => Summarize(ru.files[ru.order[i]]))
  }

  /** The `files_list` loop over `files.items()`. */
  method BuildFileList(files: map<string, FileStats>, order: seq<string>) returns (list: seq<FileSummary>)
    requires forall f <- order :: f in files && Sane(files[f])
    ensures list == Summaries(Rollup(files, order))
  {
    list := [];
    for i := 0 to |order|
      invariant list == Summaries(Rollup(files, order[..i]))
    {
      list := list + [Summarize(files[order[i]])];
    }
    assert order[..|order|] == order;
  }

  function TotalOf(s: FileSummary): nat {
    s.totalActions
  }

  /** The rows that carry a file id, by id. */
  function FileIds(rows: seq<DocRow>): seq<string> {
    if rows == [] then []
    else
      var f := rows[|rows| - 1].fileId;
      FileIds(rows[..|rows| - 1]) + (if f != "" then [f] else [])
  }

  lemma {:induction false} RowsForCount(rows: seq<DocRow>, f: string)
    requires f != ""
    ensures |RowsFor(rows, f)| == Count(FileIds(rows), f)
  {
    if rows != [] {
      RowsForCount(rows[..|rows| - 1], f);
      var ids := FileIds(rows[..|rows| - 1]);
      var g := rows[|rows| - 1].fileId;
      if g != "" {
        CountAppend(ids, [g], f);
        assert [g][..0] == [];
      } else {
        assert FileIds(rows) == ids;
      }
    }
  }

  lemma {:induction false} FileIdsCovered(rows: seq<DocRow>)
    ensures forall f <- FileIds(rows) :: f != "" && RowsFor(rows, f) != []
  {
    if rows != [] {
      FileIdsCovered(rows[..|rows| - 1]);
    }
  }

  /** When each record's total is its id's count in `ids`, the summed totals are the summed counts. */
  lemma {:induction false} SummariesTotal(files: map<string, FileStats>, keys: seq<string>, ids: seq<string>)
    requires forall f <- keys :: f in files && Sane(files[f]) && files[f].totalActions == Count(ids, f)
    ensures SumOf(Summaries(Rollup(files, keys)), TotalOf) == SumCounts(ids, keys)
  {
    if keys != [] {
      var p := keys[..|keys| - 1];
      SummariesTotal(files, p, ids);
      var full := Summaries(Rollup(files, keys));
      assert full[..|p|] == Summaries(Rollup(files, p));
    }
  }

  /**
   * The summary pipeline (gdocs_export.py:176-231): one summary per file id,
   * ordered by last activity, latest first, files without a parsable
   * timestamp last; the totals add up to the rows that carry a file id.
   */
  method SummarizeFiles(rows: seq<DocRow>) returns (list: seq<FileSummary>)
    ensures multiset(list) == multiset(Summaries(RollupOf(rows)))
    ensures forall i, j :: 0 <= i < j < |list| && list[j].lastSort.Some? ==>
      list[i].lastSort.Some? && !Before(list[i].lastSort.value, list[j].lastSort.value)
    ensures SumOf(list, TotalOf) == |FileIds(rows)|
    ensures forall s <- list :: s.activeDays <= s.totalActions && (s.firstActivity == "" <==> s.lastActivity == "")
    ensures (forall r <- rows :: r.action in {"CREATE", "EDIT", "COMMENT"}) ==>
      forall s <- list :: s.creates + s.edits + s.comments == s.totalActions
  {
    var files, order := RollUp(rows);
    RollupKeys(rows);
    RollupPerFile(rows);
    var unsorted := BuildFileList(files, order);
    list := SortDesc(unsorted, LastSortKey);
    SortDescCorrect(unsorted, LastSortKey);
    SumOfPermutation(list, unsorted, TotalOf);
    forall f <- order ensures files[f].totalActions == Count(FileIds(rows), f) {
      StatsCounts(f, RowsFor(rows, f));
      RowsForCount(rows, f);
    }
    SummariesTotal(files, order, FileIds(rows));
    FileIdsCovered(rows);
    SumCountsCovers(FileIds(rows), order);
    forall s <- list
      ensures s.activeDays <= s.totalActions && (s.firstActivity == "" <==> s.lastActivity == "")
      ensures s.lastSort.Some? ==> ValidDateTime(s.lastSort.value)
      ensures (forall r <- rows :: r.action in {"CREATE", "EDIT", "COMMENT"}) ==> s.creates + s.edits + s.comments == s.totalActions
    {
      assert s in multiset(unsorted);
      SummaryFacts(rows, s);
    }
    LastSortOrder(list);
  }

  /** What each file's summary promises, read off the rows of that file. */
  lemma SummaryFacts(rows: seq<DocRow>, s: FileSummary)
    requires s in Summaries(RollupOf(rows))
    ensures s.activeDays <= s.totalActions && (s.firstActivity == "" <==> s.lastActivity == "")
    ensures s.lastSort.Some? ==> ValidDateTime(s.lastSort.value)
    ensures (forall r <- rows :: r.action in {"CREATE", "EDIT", "COMMENT"}) ==> s.creates + s.edits + s.comments == s.totalActions
  {
    var ru := RollupOf(rows);
    RollupPerFile(rows);
    var k :| 0 <= k < |ru.order| && Summaries(ru)[k] == s;
    var f := ru.order[k];
    StatsCounts(f, RowsFor(rows, f));
    StatsFirstLast(f, RowsFor(rows, f));
    if forall r <- rows :: r.action in {"CREATE", "EDIT", "COMMENT"} {
      RowsForSub(rows, f);
      StatsAccepted(f, RowsFor(rows, f));
    }
  }

  /** Sorted by `LastSortKey`, largest first: timestamped summaries come first, latest first. */
  lemma LastSortOrder(list: seq<FileSummary>)
    requires SortedDesc(list, LastSortKey)
    requires forall s <- list :: s.lastSort.Some? ==> ValidDateTime(s.lastSort.value)
    ensures forall i, j :: 0 <= i < j < |list| && list[j].lastSort.Some? ==>
      list[i].lastSort.Some? && !Before(list[i].lastSort.value, list[j].lastSort.value)
  {
    forall i, j | 0 <= i < j < |list| && list[j].lastSort.Some?
      ensures list[i].lastSort.Some? && !Before(list[i].lastSort.value, list[j].lastSort.value)
    {
      assert list[i] in list && list[j] in list;
      RankOrder(list[j].lastSort.value, list[j].lastSort.value);
      if list[i].lastSort.Some? {
        RankOrder(list[i].lastSort.value, list[j].lastSort.value);
      }
    }
  }

  lemma {:induction false} RowsForSub(rows: seq<DocRow>, f: string)
    ensures forall r <- RowsFor(rows, f) :: r in rows
  {
    if rows != [] {
      RowsForSub(rows[..|rows| - 1], f);
    }
  }
}
