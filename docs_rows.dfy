/**
 * The Docs exporter up to the detailed CSV (gdocs_export.py): the
 * per-activity filter (actor is the current user, action CREATE / EDIT /
 * COMMENT, first named target is a Google Doc), row construction, the page
 * loop and the first-occurrence deduplication.
 */
module DocsActivity {
  import opened Wrappers
  import opened Text
  import opened IsoTime
  import opened Paging

  // ------------------------------------------------------------ raw records

  /** `knownUser`; an absent `isCurrentUser` reads as false. */
  datatype KnownUser = KnownUser(isCurrentUser: bool)
  datatype User = User(knownUser: Option<KnownUser>)
  datatype Actor = Actor(user: Option<User>)

  /** A `driveItem` / `file` object; a missing or null string field is "". */
  datatype DriveItem = DriveItem(title: string, name: string, mimeType: string)

  /** A target; None stands for a key that is absent, null or an empty object (all falsy in Python). */
  datatype Target = Target(driveItem: Option<DriveItem>, file: Option<DriveItem>)

  datatype TimeRange = TimeRange(startTime: string, endTime: string)

  /**
   * An activity. `primaryActionDetail` is the set of keys present in that
   * object; `timestamp` is None when the key is absent (a null value reads as "").
   */
  datatype Activity = Activity(
    actors: seq<Actor>,
    primaryActionDetail: set<string>,
    targets: seq<Target>,
    timestamp: Option<string>,
    timeRange: Option<TimeRange>)

  /** A response of `activity().query`: its `activities` and its `nextPageToken`. */
  type ActivityPage = Page<Activity>

  /** A row of the detailed CSV. */
  datatype DocRow = DocRow(
    date: string, timestamp: string, action: string, title: string,
    fileId: string, url: string, mimeType: string)

  /** `(title, name, mime)` as `get_driveitem_info` returns it. */
  datatype ItemInfo = ItemInfo(title: string, name: string, mime: string)

  const DocMime := "application/vnd.google-apps.document"
  const DocUrlPrefix := "https://docs.google.com/document/d/"

  // ------------------------------------------------------------ lookups

  /** `is_me_actor`: `user.knownUser.isCurrentUser`, false wherever a level is missing. */
  predicate IsMeActor(a: Actor) {
    a.user.Some? && a.user.value.knownUser.Some? && a.user.value.knownUser.value.isCurrentUser
  }

  /** `get_driveitem_info`: the `driveItem` object, else the `file` object; title falls back to the name. */
  function DriveItemInfo(t: Target): ItemInfo {
    var di := if t.driveItem.Some? then t.driveItem.value
              else if t.file.Some? then t.file.value
              else DriveItem("", "", "");
    ItemInfo(OrElse(di.title, di.name), di.name, di.mimeType)
  }

  /** The action keys in the order `action_label` tries them. */
  const ActionKeys: seq<string> := ["create", "edit", "comment", "rename", "move", "restore", "delete", "permissionChange"]

  /** Index of the first key of `keys` that is in `present`, or `|keys|`. */
  function FirstPresent(keys: seq<string>, present: set<string>): (i: nat)
    ensures i <= |keys|
    ensures forall j :: 0 <= j < i ==> keys[j] !in present
    ensures i < |keys| ==> keys[i] in present
  {
    if keys == [] || keys[0] in present then 0 else 1 + FirstPresent(keys[1..], present)
  }

  /** `action_label`: the upper-cased first action key present, else "OTHER". */
  function ActionLabel(primary: set<string>): string {
    var i := FirstPresent(ActionKeys, primary);
    if i < |ActionKeys| then Upper(ActionKeys[i]) else "OTHER"
  }

  /** The label is the first key present in priority order, upper-cased; CREATE, EDIT and COMMENT in particular. */
  lemma ActionLabelPriority(primary: set<string>)
    ensures ActionLabel(primary) == "OTHER" <==> forall k <- ActionKeys :: k !in primary
    ensures ActionLabel(primary) == "CREATE" <==> "create" in primary
    ensures ActionLabel(primary) == "EDIT" <==> "edit" in primary && "create" !in primary
    ensures ActionLabel(primary) == "COMMENT" <==> "comment" in primary && "create" !in primary && "edit" !in primary
  {
    var i := FirstPresent(ActionKeys, primary);
    var labels := ["CREATE", "EDIT", "COMMENT", "RENAME", "MOVE", "RESTORE", "DELETE", "PERMISSIONCHANGE"];
    assert forall j :: 0 <= j < |ActionKeys| ==> Upper(ActionKeys[j]) == labels[j];
    assert ActionKeys[0] == "create" && ActionKeys[1] == "edit" && ActionKeys[2] == "comment";
    if "create" in primary {
      assert i == 0;
    } else if "edit" in primary {
      assert i == 1;
    } else if "comment" in primary {
      assert i == 2;
    } else if i < |ActionKeys| {
      assert ActionLabel(primary) == labels[i] && 3 <= i;
    } else {
      forall k <- ActionKeys ensures k !in primary {
        var j :| 0 <= j < |ActionKeys| && ActionKeys[j] == k;
      }
    }
  }

  /** `activity_time`: `timestamp` when the key is present, else `timeRange.endTime`, else `startTime`, else "". */
  function ActivityTime(a: Activity): string {
    if a.timestamp.Some? then a.timestamp.value
    else if a.timeRange.Some? then OrElse(a.timeRange.value.endTime, a.timeRange.value.startTime)
    else ""
  }

  /** A present `timestamp` wins even when empty; otherwise the time range's end, then its start. */
  lemma ActivityTimePreference(a: Activity)
    ensures a.timestamp.Some? ==> ActivityTime(a) == a.timestamp.value
    ensures a.timestamp.None? && a.timeRange.Some? && a.timeRange.value.endTime != "" ==>
      ActivityTime(a) == a.timeRange.value.endTime
    ensures a.timestamp.None? && a.timeRange.Some? && a.timeRange.value.endTime == "" ==>
      ActivityTime(a) == a.timeRange.value.startTime
    ensures ActivityTime(a) == "" <==>
      (a.timestamp == Some("")
       || (a.timestamp.None?
           && (a.timeRange.None? || (a.timeRange.value.endTime == "" && a.timeRange.value.startTime == ""))))
  {
  }

  /** `build_doc_url`: "" for an empty item name, else the editor URL of the id after the last `/`. */
  function DocUrl(itemName: string): string {
    if itemName == "" then "" else DocUrlPrefix + LastPart(itemName, '/') + "/edit"
  }

  // ------------------------------------------------------------ target choice

  /** Index of the first target whose item has a non-empty name, or `|targets|`. */
  function FirstNamed(targets: seq<Target>): (i: nat)
    ensures i <= |targets|
    ensures forall j :: 0 <= j < i ==> DriveItemInfo(targets[j]).name == ""
    ensures i < |targets| ==> DriveItemInfo(targets[i]).name != ""
  {
    if targets == [] || DriveItemInfo(targets[0]).name != "" then 0 else 1 + FirstNamed(targets[1..])
  }

  /**
   * What the target loop leaves in `(title, item_name, mime)`: the first
   * named target, or, when none is named, the last target (whose name is "").
   */
  function ChosenTarget(targets: seq<Target>): ItemInfo {
    var i := FirstNamed(targets);
    if i < |targets| then DriveItemInfo(targets[i])
    else if targets == [] then ItemInfo("", "", "")
    else DriveItemInfo(targets[|targets| - 1])
  }

  /** The target loop (`for t in targets: ...; if item_name: break`). */
  method ChooseTarget(targets: seq<Target>) returns (info: ItemInfo)
    ensures info == ChosenTarget(targets)
    ensures info.name != "" <==> exists k :: 0 <= k < |targets| && DriveItemInfo(targets[k]).name != ""
  {
    info := ItemInfo("", "", "");
    var i := 0;
    while i < |targets|
      invariant 0 <= i <= |targets|
      invariant forall j :: 0 <= j < i ==> DriveItemInfo(targets[j]).name == ""
      invariant info == if i == 0 then ItemInfo("", "", "") else DriveItemInfo(targets[i - 1])
    {
      info := DriveItemInfo(targets[i]);
      if info.name != "" {
        break;
      }
      i := i + 1;
    }
  }

  // ------------------------------------------------------------ the filter

  /** Some actor is the current user (`any(is_me_actor(ac) for ac in actors)`). */
  predicate ByMe(a: Activity) {
    exists ac <- a.actors :: IsMeActor(ac)
  }

  /** The body of the activity loop (gdocs_export.py:119-151): the row an activity yields, if any. */
  function ActivityRow(a: Activity): Option<DocRow> {
    if !ByMe(a) then None
    else
      var act := ActionLabel(a.primaryActionDetail);
      if act != "CREATE" && act != "EDIT" && act != "COMMENT" then None
      else if a.targets == [] then None
      else
        var info := ChosenTarget(a.targets);
        if info.name == "" || info.mime != DocMime then None
        else
          var when := Iso(ActivityTime(a));
          Some(DocRow(Take(when, 10), when, act, info.title, LastPart(info.name, '/'), DocUrl(info.name), info.mime))
  }

  /**
   * An activity yields a row exactly when some actor is the current user,
   * its label is CREATE, EDIT or COMMENT, and its first named target is a
   * Google Doc; the row's file id is the last path segment of that target's
   * name and its URL is the editor URL of that same id.
   */
  lemma ActivityRowAccepted(a: Activity)
    ensures ActivityRow(a).Some? <==>
      && ByMe(a)
      && ActionLabel(a.primaryActionDetail) in {"CREATE", "EDIT", "COMMENT"}
      && FirstNamed(a.targets) < |a.targets|
      && DriveItemInfo(a.targets[FirstNamed(a.targets)]).mime == DocMime
    ensures ActivityRow(a).Some? ==>
      var r := ActivityRow(a).value;
      var info := DriveItemInfo(a.targets[FirstNamed(a.targets)]);
      && r.action == ActionLabel(a.primaryActionDetail)
      && r.timestamp == Iso(ActivityTime(a))
      && r.date == Take(r.timestamp, 10)
      && r.title == info.title
      && r.fileId == LastPart(info.name, '/')
      && '/' !in r.fileId
      && r.url == DocUrlPrefix + r.fileId + "/edit"
      && r.mimeType == DocMime
  {
    if ActivityRow(a).Some? {
      LastPartIsSuffix(DriveItemInfo(a.targets[FirstNamed(a.targets)]).name, '/');
    }
  }

  /** The loop body as the code runs it, with its `continue`s. */
  method AcceptActivity(a: Activity) returns (row: Option<DocRow>)
    ensures row == ActivityRow(a)
  {
    if !ByMe(a) {
      return None;
    }
    var act := ActionLabel(a.primaryActionDetail);
    if act != "CREATE" && act != "EDIT" && act != "COMMENT" {
      return None;
    }
    if a.targets == [] {
      return None;
    }
    var info := ChooseTarget(a.targets);
    if info.name == "" || info.mime != DocMime {
      return None;
    }
    var when := Iso(ActivityTime(a));
    row := Some(DocRow(Take(when, 10), when, act, info.title, LastPart(info.name, '/'), DocUrl(info.name), info.mime));
  }

  // ------------------------------------------------------------ the page loop

  /** The rows a sequence of activities yields, in order. */
  function RowsOf(acts: seq<Activity>): seq<DocRow> {
    if acts == [] then []
    else
      var r := ActivityRow(acts[|acts| - 1]);
      RowsOf(acts[..|acts| - 1]) + (if r.Some? then [r.value] else [])
  }

  lemma {:induction false} RowsOfAppend(acts: seq<Activity>, more: seq<Activity>)
    ensures RowsOf(acts + more) == RowsOf(acts) + RowsOf(more)
    decreases |more|
  {
    if more == [] {
      assert acts + more == acts;
    } else {
      var m := more[..|more| - 1];
      assert (acts + more)[..|acts + more| - 1] == acts + m;
      RowsOfAppend(acts, m);
    }
  }

  /** Every row carries one of the three accepted actions. */
  lemma {:induction false} RowsOfActions(acts: seq<Activity>)
    ensures forall r <- RowsOf(acts) :: r.action in {"CREATE", "EDIT", "COMMENT"}
  {
    if acts != [] {
      RowsOfActions(acts[..|acts| - 1]);
    }
  }

  /**
   * The query loop (gdocs_export.py:113-156): request pages until one comes
   * back without a next-page token, sending each token with the following
   * request; `sent` lists the token of every request ("" for none).
   */
  method CollectRows(pages: seq<ActivityPage>) returns (rows: seq<DocRow>, sent: seq<string>)
    ensures var n := PagesServed(Tokens(pages));
      && sent == RequestTokens(Tokens(pages), n)
      && rows == RowsOf(Items(pages[..n]))
  {
    ghost var n := PagesServed(Tokens(pages));
    rows, sent := [], [];
    var pageToken := "";
    var p := 0;
    while p < |pages|
      invariant p <= n
      invariant p == 0 || pageToken != ""
      invariant pageToken == if p == 0 then "" else pages[p - 1].nextPageToken
      invariant sent == RequestTokens(Tokens(pages), p)
      invariant rows == RowsOf(Items(pages[..p]))
    {
      PagesServedNext(Tokens(pages), p);
      RequestTokensStep(Tokens(pages), p);
      sent := sent + [pageToken];
      var pageRows := PageRows(pages[p].items);
      assert pages[..p + 1][..p] == pages[..p];
      RowsOfAppend(Items(pages[..p]), pages[p].items);
      rows := rows + pageRows;
      pageToken := pages[p].nextPageToken;
      p := p + 1;
      if pageToken == "" {
        PagesServedAt(Tokens(pages), p);
        break;
      }
    }
    if p == |pages| {
      PagesServedAt(Tokens(pages), p);
    }
  }

  /** The activity loop over one page. */
  method PageRows(acts: seq<Activity>) returns (rows: seq<DocRow>)
    ensures rows == RowsOf(acts)
  {
    rows := [];
    for i := 0 to |acts|
      invariant rows == RowsOf(acts[..i])
    {
      var row := AcceptActivity(acts[i]);
      assert acts[..i + 1][..i] == acts[..i];
      if row.Some? {
        rows := rows + [row.value];
      }
    }
    assert acts[..|acts|] == acts;
  }

  // ------------------------------------------------------------ deduplication

  /** The identity of a row: `(timestamp, action, file_id)`. */
  function Key(r: DocRow): (string, string, string) {
    (r.timestamp, r.action, r.fileId)
  }

  function KeysOf(rows: seq<DocRow>): set<(string, string, string)> {
    set r <- rows :: Key(r)
  }

  /** The first-occurrence filter: keep a row unless an earlier row has its key. */
  function Deduped(rows: seq<DocRow>): seq<DocRow> {
    if rows == [] then []
    else
      var p, r := rows[..|rows| - 1], rows[|rows| - 1];
      Deduped(p) + (if Key(r) in KeysOf(p) then [] else [r])
  }

  /** The dedup loop (gdocs_export.py:159-167), with its `seen` set. */
  method Dedup(rows: seq<DocRow>) returns (out: seq<DocRow>)
    ensures out == Deduped(rows)
  {
    var seen: set<(string, string, string)> := {};
    out := [];
    for i := 0 to |rows|
      invariant seen == KeysOf(rows[..i])
      invariant out == Deduped(rows[..i])
    {
      var r := rows[i];
      DedupStep(rows, i);
      if Key(r) in seen {
        continue;
      }
      seen := seen + {Key(r)};
      out := out + [r];
    }
    assert rows[..|rows|] == rows;
  }

  /** One more row: its key joins the keys seen, and it is kept iff its key is new. */
  lemma DedupStep(rows: seq<DocRow>, i: nat)
    requires i < |rows|
    ensures KeysOf(rows[..i + 1]) == KeysOf(rows[..i]) + {Key(rows[i])}
    ensures Deduped(rows[..i + 1]) == Deduped(rows[..i]) + (if Key(rows[i]) in KeysOf(rows[..i]) then [] else [rows[i]])
  {
    assert rows[..i + 1] == rows[..i] + [rows[i]];
    assert rows[..i + 1][..i] == rows[..i];
  }

  /** No two rows share a key. */
  predicate DistinctKeys(rows: seq<DocRow>) {
    forall i, j :: 0 <= i < j < |rows| ==> Key(rows[i]) != Key(rows[j])
  }

  /** `xs` is `ys` with some elements left out, order kept. */
  predicate Subsequence<T(==)>(xs: seq<T>, ys: seq<T>)
    decreases |ys|
  {
    || xs == []
    || (&& ys != []
        && ((xs[|xs| - 1] == ys[|ys| - 1] && Subsequence(xs[..|xs| - 1], ys[..|ys| - 1]))
            || Subsequence(xs, ys[..|ys| - 1])))
  }

  /** Matching last elements extend a subsequence. */
  lemma KeepLast<T>(xs: seq<T>, ys: seq<T>)
    requires xs != [] && ys != [] && xs[|xs| - 1] == ys[|ys| - 1]
    requires Subsequence(xs[..|xs| - 1], ys[..|ys| - 1])
    ensures Subsequence(xs, ys)
  {
  }

  /** A subsequence of a prefix is a subsequence of the whole. */
  lemma DropLast<T>(xs: seq<T>, ys: seq<T>)
    requires ys != [] && Subsequence(xs, ys[..|ys| - 1])
    ensures Subsequence(xs, ys)
  {
  }

  /** Deduplication only drops rows: the output is a subsequence of the input. */
  lemma {:induction false} DedupSubsequence(rows: seq<DocRow>)
    ensures Subsequence(Deduped(rows), rows)
  {
    if rows != [] {
      var p, r := rows[..|rows| - 1], rows[|rows| - 1];
      DedupSubsequence(p);
      var d := Deduped(p);
      assert rows[..|rows| - 1] == p;
      if Key(r) !in KeysOf(p) {
        var x := d + [r];
        assert Deduped(rows) == x;
        assert x[..|x| - 1] == d && x[|x| - 1] == r;
        KeepLast(x, rows);
      } else {
        assert Deduped(rows) == d;
        DropLast(d, rows);
      }
    }
  }

  /** Every input key survives deduplication. */
  lemma {:induction false} DedupKeys(rows: seq<DocRow>)
    ensures KeysOf(Deduped(rows)) == KeysOf(rows)
  {
    if rows != [] {
      var p, r := rows[..|rows| - 1], rows[|rows| - 1];
      DedupKeys(p);
      assert rows == p + [r];
      assert KeysOf(rows) == KeysOf(p) + {Key(r)};
      var d := Deduped(p);
      assert KeysOf(d + [r]) == KeysOf(d) + {Key(r)};
    }
  }

  /** No two output rows share a key. */
  lemma {:induction false} DedupDistinct(rows: seq<DocRow>)
    ensures DistinctKeys(Deduped(rows))
  {
    if rows != [] {
      var p, r := rows[..|rows| - 1], rows[|rows| - 1];
      DedupDistinct(p);
      DedupKeys(p);
      var d := Deduped(p);
      if Key(r) !in KeysOf(p) {
        forall i, j | 0 <= i < j < |d + [r]| ensures Key((d + [r])[i]) != Key((d + [r])[j]) {
          if j == |d| {
            assert Key(d[i]) in KeysOf(d);
          }
        }
      }
    }
  }

  /** The row at a key's first position is kept. */
  lemma {:induction false} DedupKeepsFirst(rows: seq<DocRow>, i: nat)
    requires i < |rows| && Key(rows[i]) !in KeysOf(rows[..i])
    ensures rows[i] in Deduped(rows)
  {
    var p := rows[..|rows| - 1];
    if i < |rows| - 1 {
      assert p[..i] == rows[..i];
      DedupKeepsFirst(p, i);
    } else {
      assert p == rows[..i];
    }
  }

  /** Rows whose keys are already distinct pass through unchanged. */
  lemma {:induction false} DedupOfDistinct(rows: seq<DocRow>)
    requires DistinctKeys(rows)
    ensures Deduped(rows) == rows
  {
    if rows != [] {
      var p, r := rows[..|rows| - 1], rows[|rows| - 1];
      DistinctLast(rows);
      DedupOfDistinct(p);
      DedupStep(rows, |rows| - 1);
      assert rows[..|rows|] == rows;
      LastSplit(rows);
    }
  }

  lemma LastSplit<T>(s: seq<T>)
    requires s != []
    ensures s == s[..|s| - 1] + [s[|s| - 1]]
  {
  }

  /** Without its last row, a sequence of distinct keys still has distinct keys, none of them the last row's. */
  lemma DistinctLast(rows: seq<DocRow>)
    requires rows != [] && DistinctKeys(rows)
    ensures DistinctKeys(rows[..|rows| - 1])
    ensures Key(rows[|rows| - 1]) !in KeysOf(rows[..|rows| - 1])
  {
    var p, r := rows[..|rows| - 1], rows[|rows| - 1];
    forall i, j | 0 <= i < j < |p| ensures Key(p[i]) != Key(p[j]) {
      assert p[i] == rows[i] && p[j] == rows[j];
    }
    forall q <- p ensures Key(q) != Key(r) {
      var i :| 0 <= i < |p| && p[i] == q;
      assert rows[i] == q;
    }
  }

  /** Running the deduplication again changes nothing. */
  lemma DedupIdempotent(rows: seq<DocRow>)
    ensures Deduped(Deduped(rows)) == Deduped(rows)
  {
    DedupDistinct(rows);
    DedupOfDistinct(Deduped(rows));
  }
}
