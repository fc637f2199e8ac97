/** The plugin's two tables and the operations on them that carry rules of
    their own (`Database` class): inserting a download request, listing
    requests page by page, deleting requests by id, and deleting rows older
    than a retention period.  A table is a sequence of rows; the SQL text
    that the class builds is replaced by what that SQL selects or removes. */
module Database {
  import opened Wrappers
  import opened PhpValue
  import Text

  /** One row of the download-requests table.  `downloadDate` is the
      site's wall-clock time when the row was written, in seconds; the
      retention cleanup compares it with the database's clock. */
  datatype Row = Row(
    id: int,
    postId: int,
    userName: string,
    userEmail: string,
    userMobile: string,
    downloadDate: int,
    ipAddress: string,
    userAgent: string)

  /** The download-requests table with its auto-increment counter. */
  datatype Table = Table(rows: seq<Row>, nextId: int)

  /** Every stored id lies below the counter, so ids are never reused. */
  ghost predicate IdsBelowCounter(t: Table) {
    forall i :: 0 <= i < |t.rows| ==> t.rows[i].id < t.nextId
  }

  ghost predicate DistinctIds(rows: seq<Row>) {
    forall i, j :: 0 <= i < j < |rows| ==> rows[i].id != rows[j].id
  }

  /** The table invariant the auto-increment key maintains. */
  ghost predicate Valid(t: Table) {
    IdsBelowCounter(t) && DistinctIds(t.rows)
  }

  /** What `insert_download_request` hands back: the new row's id, or
      nothing when the insert failed. */
  datatype Inserted = Inserted(table: Table, insertId: Option<int>)

  /** `insert_download_request`: the row is appended under the next id;
      `fails` stands for the database refusing the insert. */
  function Insert(t: Table, r: Row, fails: bool): (res: Inserted)
    ensures fails ==> res.table == t && res.insertId == None
    ensures !fails ==> (
      && res.insertId == Some(t.nextId)
      && |res.table.rows| == |t.rows| + 1
      && res.table.rows[..|t.rows|] == t.rows
      && res.table.rows[|t.rows|] == r.(id := t.nextId))
  {
    if fails then Inserted(t, None)
    else
      var rows := t.rows + [r.(id := t.nextId)];
      assert forall i :: 0 <= i < |t.rows| ==> rows[i] == t.rows[i];
      Inserted(Table(rows, t.nextId + 1), Some(t.nextId))
  }

  /** Inserting keeps the ids distinct and below the counter. */
  lemma InsertKeepsValid(t: Table, r: Row, fails: bool)
    requires Valid(t)
    ensures Valid(Insert(t, r, fails).table)
  {
  }

  // ---------------------------------------------------------------------
  // get_download_requests
  // ---------------------------------------------------------------------

  /** `$defaults` of `get_download_requests`. */
  const ListDefaults: PhpArray := [
    ("search", Str("")),
    ("per_page", Int(20)),
    ("page", Int(1)),
    ("orderby", Str("download_date")),
    ("order", Str("DESC")),
    ("include_posts", Bool(true))
  ]

  /** The columns a listing may be ordered by. */
  const AllowedOrderby: seq<string> := ["download_date", "user_name", "user_email", "post_id"]

  /** PHP's conversion of a scalar to a string. */
  function ToStr(v: Value): string {
    match v
    case Null => ""
    case Bool(b) => if b then "1" else ""
    case Int(i) => Decimal(i)
    case Str(s) => s
    case Arr(_) => "Array"
  }

  /** `$wpdb->esc_like`: a backslash before every `_`, `%` and `\`. */
  function EscLike(s: string): (r: string)
    ensures |r| >= |s|
  {
    if |s| == 0 then ""
    else if s[0] == '_' || s[0] == '%' || s[0] == '\\' then ['\\', s[0]] + EscLike(s[1..])
    else [s[0]] + EscLike(s[1..])
  }

  /** Removing the escapes again: the inverse of `EscLike`. */
  function UnescLike(s: string): string {
    if |s| >= 2 && s[0] == '\\' then [s[1]] + UnescLike(s[2..])
    else if |s| == 0 then ""
    else [s[0]] + UnescLike(s[1..])
  }

  /** Escaping loses nothing: the search text can be read back from the
      LIKE pattern. */
  lemma {:induction false} EscLikeRoundTrip(s: string)
    ensures UnescLike(EscLike(s)) == s
  {
    if |s| > 0 {
      EscLikeRoundTrip(s[1..]);
      if s[0] == '_' || s[0] == '%' || s[0] == '\\' {
        assert EscLike(s)[2..] == EscLike(s[1..]);
      } else {
        assert EscLike(s)[1..] == EscLike(s[1..]);
      }
    }
  }

  /** After escaping, every wildcard and backslash is preceded by a
      backslash, so the pattern matches the text literally. */
  lemma {:induction false} EscLikeGuardsWildcards(s: string)
    ensures forall i :: 0 <= i < |EscLike(s)| && (EscLike(s)[i] == '_' || EscLike(s)[i] == '%') ==>
      i > 0 && EscLike(s)[i - 1] == '\\'
  {
    if |s| > 0 {
      EscLikeGuardsWildcards(s[1..]);
      var e := EscLike(s);
      var e' := EscLike(s[1..]);
      if s[0] == '_' || s[0] == '%' || s[0] == '\\' {
        assert e == ['\\', s[0]] + e';
        assert forall i :: 2 <= i < |e| ==> e[i] == e'[i - 2];
      } else {
        assert e == [s[0]] + e';
        assert forall i :: 1 <= i < |e| ==> e[i] == e'[i - 1];
      }
    }
  }

  /** The normalised listing request: the parameters the SQL is prepared
      with and the pagination figures. */
  datatype ListQuery = ListQuery(
    likeParams: seq<string>,
    orderby: string,
    order: string,
    perPage: int,
    page: int,
    offset: int,
    includePosts: bool)

  /** `max( 1, (int) $v )`. */
  function AtLeastOne(v: Value): (n: int)
    ensures n >= 1
    ensures IntVal(v) >= 1 ==> n == IntVal(v)
    ensures IntVal(v) < 1 ==> n == 1
  {
    if IntVal(v) >= 1 then IntVal(v) else 1
  }

  /** `wp_parse_args( $args, $defaults )[ $k ]`: the caller's value when
      the caller passes the key, the default otherwise. */
  function Arg(args: PhpArray, k: string): (v: Value)
    ensures !HasKey(args, k) ==> v == Lookup(ListDefaults, k)
  {
    if HasKey(args, k) then Lookup(args, k) else Lookup(ListDefaults, k)
  }

  /** `wp_parse_args` is `array_merge` of the defaults and the arguments;
      reading a key of the merged array is `Arg`. */
  lemma NormalizeArgsReads(args: PhpArray, k: string)
    requires UniqueKeys(args)
    ensures Lookup(Merge(ListDefaults, args), k) == Arg(args, k)
  {
    MergeLookup(ListDefaults, args, k);
  }

  /** The argument handling of `get_download_requests`: defaults filled in,
      the search turned into three identical LIKE parameters, the order
      column checked against the whitelist, the direction reduced to ASC or
      DESC, and page size and page number clamped. */
  function NormalizeArgs(args: PhpArray): (q: ListQuery)
    ensures q.perPage >= 1 && q.page >= 1 && q.offset >= 0
    ensures q.offset == (q.page - 1) * q.perPage
    ensures q.orderby in AllowedOrderby
    ensures q.order == "ASC" || q.order == "DESC"
    ensures |q.likeParams| == 0 || |q.likeParams| == 3
  {
    var perPage := AtLeastOne(Arg(args, "per_page"));
    var page := AtLeastOne(Arg(args, "page"));
    ListQuery(LikeParams(Arg(args, "search")), OrderColumn(Arg(args, "orderby")),
      Direction(Arg(args, "order")), perPage, page, PageOffset(page, perPage),
      !Empty(Arg(args, "include_posts")))
  }

  /** `( $page - 1 ) * $per_page`. */
  function PageOffset(page: int, perPage: int): (o: int)
    requires page >= 1 && perPage >= 1
    ensures o >= 0
  {
    MulMono(0, page - 1, perPage);
    (page - 1) * perPage
  }

  /** The search term as the three LIKE parameters (name, email, mobile). */
  function LikeParams(search: Value): (p: seq<string>)
    ensures |p| == 0 || |p| == 3
  {
    if !Empty(search) then
      var term := "%" + EscLike(ToStr(search)) + "%";
      [term, term, term]
    else []
  }

  /** The whitelisted ORDER BY column. */
  function OrderColumn(requested: Value): (c: string)
    ensures c in AllowedOrderby
  {
    if requested.Str? && requested.s in AllowedOrderby then requested.s else "download_date"
  }

  /** The sort direction. */
  function Direction(v: Value): (d: string)
    ensures d == "ASC" || d == "DESC"
  {
    if Upper(ToStr(v)) == "ASC" then "ASC" else "DESC"
  }

  /** The order column is the requested one exactly when that is one of the
      four allowed columns; anything else falls back to `download_date`. */
  lemma OrderbyWhitelist(args: PhpArray)
    ensures var requested := Arg(args, "orderby");
      && (requested.Str? && requested.s in AllowedOrderby ==> NormalizeArgs(args).orderby == requested.s)
      && (!(requested.Str? && requested.s in AllowedOrderby) ==> NormalizeArgs(args).orderby == "download_date")
  {
  }

  /** The direction is ascending exactly when the argument upper-cases to
      `ASC`. */
  lemma OrderDirection(args: PhpArray)
    ensures NormalizeArgs(args).order == "ASC" <==> Upper(ToStr(Arg(args, "order"))) == "ASC"
  {
  }

  /** A non-empty search gives three copies of the escaped, `%`-wrapped
      term; an empty one gives no parameter at all. */
  lemma SearchParams(args: PhpArray)
    ensures var search := Arg(args, "search");
      var q := NormalizeArgs(args);
      && (Empty(search) <==> q.likeParams == [])
      && (!Empty(search) ==>
            forall i :: 0 <= i < |q.likeParams| ==>
              q.likeParams[i] == "%" + EscLike(ToStr(search)) + "%")
  {
  }

  /** The listing `get_download_requests` returns. */
  datatype Listing = Listing(
    data: seq<Row>,
    totalItems: nat,
    totalPages: nat,
    currentPage: int,
    perPage: int)

  /** `ceil( $total_items / $per_page )` for a positive page size. */
  function PageCount(total: nat, perPage: int): (n: nat)
    requires perPage >= 1
    ensures (n - 1) * perPage < total <= n * perPage || (total == 0 && n == 0)
  {
    (total + perPage - 1) / perPage
  }

  /** `LIMIT count OFFSET offset` over a sequence of rows. */
  function Window(rows: seq<Row>, offset: nat, count: nat): (w: seq<Row>)
    ensures |w| <= count
  {
    if offset >= |rows| then []
    else if offset + count >= |rows| then rows[offset..]
    else rows[offset..offset + count]
  }

  /** The listing for normalised arguments `q`. */
  function Paginate(matched: seq<Row>, q: ListQuery): (l: Listing)
    requires q.perPage >= 1 && q.page >= 1 && q.offset >= 0
  {
    Listing(Window(matched, q.offset, q.perPage), |matched|,
      PageCount(|matched|, q.perPage), q.page, q.perPage)
  }

  /** `get_download_requests`.  `matched` is what the WHERE and ORDER BY
      clauses select, in order; the listing is one page of it with the
      totals. */
  function GetDownloadRequests(matched: seq<Row>, args: PhpArray): (l: Listing)
    ensures l.perPage >= 1 && l.currentPage >= 1
    ensures |l.data| <= l.perPage
    ensures l.totalItems == |matched|
  {
    Paginate(matched, NormalizeArgs(args))
  }

  /** Page `p` (counting from 1) of `rows`. */
  function PageOf(rows: seq<Row>, perPage: nat, p: nat): seq<Row>
    requires p >= 1
  {
    Window(rows, (p - 1) * perPage, perPage)
  }

  /** The first `k` pages, one after the other. */
  function FirstPages(rows: seq<Row>, perPage: nat, k: nat): seq<Row> {
    if k == 0 then [] else FirstPages(rows, perPage, k - 1) + PageOf(rows, perPage, k)
  }

  lemma {:induction false} FirstPagesArePrefix(rows: seq<Row>, perPage: nat, k: nat)
    ensures FirstPages(rows, perPage, k) == rows[..if k * perPage <= |rows| then k * perPage else |rows|]
  {
    if k > 0 {
      FirstPagesArePrefix(rows, perPage, k - 1);
      var lo := (k - 1) * perPage;
      var hi := k * perPage;
      assert hi == lo + perPage;
      var a := if lo <= |rows| then lo else |rows|;
      var b := if hi <= |rows| then hi else |rows|;
      assert PageOf(rows, perPage, k) == rows[a..b];
      assert rows[..a] + rows[a..b] == rows[..b];
    }
  }

  /** Reading the pages 1 to `total_pages` in turn lists every matched row
      once, in order. */
  lemma PagesCoverAll(matched: seq<Row>, args: PhpArray)
    ensures var l := GetDownloadRequests(matched, args);
      FirstPages(matched, l.perPage, l.totalPages) == matched
  {
    var l := GetDownloadRequests(matched, args);
    FirstPagesArePrefix(matched, l.perPage, l.totalPages);
  }

  lemma MulMono(a: int, b: int, c: nat)
    requires a <= b
    ensures a * c <= b * c
  {
  }

  /** A page past the last one starts beyond the end of the rows. */
  lemma PastLastPage(total: nat, perPage: int, page: int)
    requires perPage >= 1 && page > PageCount(total, perPage)
    ensures (page - 1) * perPage >= total
  {
    var n := PageCount(total, perPage);
    MulMono(n, page - 1, perPage);
  }

  /** The listing's data is the page its page number names, and a page
      past the last one is empty. */
  lemma PaginateIsPage(matched: seq<Row>, q: ListQuery)
    requires q.perPage >= 1 && q.page >= 1 && q.offset == (q.page - 1) * q.perPage
    ensures var l := Paginate(matched, q);
      && l.data == PageOf(matched, l.perPage, l.currentPage)
      && (l.currentPage > l.totalPages ==> l.data == [])
  {
    if q.page > PageCount(|matched|, q.perPage) {
      PastLastPage(|matched|, q.perPage, q.page);
    }
  }

  /** The same, for what `get_download_requests` returns. */
  lemma ListingIsPage(matched: seq<Row>, args: PhpArray)
    ensures var l := GetDownloadRequests(matched, args);
      && l.data == PageOf(matched, l.perPage, l.currentPage)
      && (l.currentPage > l.totalPages ==> l.data == [])
  {
    PaginateIsPage(matched, NormalizeArgs(args));
  }

  lemma ListDefaultsUnique()
    ensures UniqueKeys(ListDefaults)
  {
    assert |ListDefaults[0].0| == 6 && |ListDefaults[1].0| == 8 && |ListDefaults[2].0| == 4;
    assert |ListDefaults[3].0| == 7 && |ListDefaults[4].0| == 5 && |ListDefaults[5].0| == 13;
  }

  lemma ListDefaultsLookups()
    ensures Lookup(ListDefaults, "search") == Str("")
    ensures Lookup(ListDefaults, "per_page") == Int(20)
    ensures Lookup(ListDefaults, "page") == Int(1)
    ensures Lookup(ListDefaults, "orderby") == Str("download_date")
    ensures Lookup(ListDefaults, "order") == Str("DESC")
    ensures Lookup(ListDefaults, "include_posts") == Bool(true)
  {
    ListDefaultsUnique();
    LookupAt(ListDefaults, 0);
    LookupAt(ListDefaults, 1);
    LookupAt(ListDefaults, 2);
    LookupAt(ListDefaults, 3);
    LookupAt(ListDefaults, 4);
    LookupAt(ListDefaults, 5);
  }

  /** With no arguments every argument is its default. */
  lemma NoArgsReadDefaults(k: string)
    ensures Arg([], k) == Lookup(ListDefaults, k)
  {
  }

  lemma UpperDesc()
    ensures Upper("DESC") == "DESC"
  {
  }

  /** With no arguments there is no search and the newest rows come first. */
  lemma DefaultOrdering()
    ensures NormalizeArgs([]).likeParams == []
    ensures NormalizeArgs([]).orderby == "download_date"
    ensures NormalizeArgs([]).order == "DESC"
  {
    ListDefaultsLookups();
    NoArgsReadDefaults("search");
    NoArgsReadDefaults("orderby");
    NoArgsReadDefaults("order");
    UpperDesc();
  }

  /** With no arguments the first page of twenty is listed, with posts. */
  lemma DefaultPaging()
    ensures NormalizeArgs([]).perPage == 20
    ensures NormalizeArgs([]).page == 1
    ensures NormalizeArgs([]).includePosts
  {
    ListDefaultsLookups();
    NoArgsReadDefaults("per_page");
    NoArgsReadDefaults("page");
    NoArgsReadDefaults("include_posts");
  }

  /** With no arguments: first page of twenty, newest first, no search. */
  lemma ListDefaultsApply()
    ensures NormalizeArgs([]) == ListQuery([], "download_date", "DESC", 20, 1, 0, true)
  {
    DefaultOrdering();
    DefaultPaging();
  }

  // ---------------------------------------------------------------------
  // Deleting requests
  // ---------------------------------------------------------------------

  /** The test a surviving row passes. */
  function Outside(ids: set<int>): Row -> bool {
    (row: Row) => row.id !in ids
  }

  /** The rows whose id is not among `ids`. */
  function Without(rows: seq<Row>, ids: set<int>): (r: seq<Row>)
    ensures |r| <= |rows|
  {
    Text.Filter(rows, Outside(ids))
  }

  /** What `Without` keeps: exactly the rows outside `ids`. */
  lemma WithoutKeeps(rows: seq<Row>, ids: set<int>, row: Row)
    ensures row in Without(rows, ids) <==> row in rows && row.id !in ids
  {
    var p := Outside(ids);
    if row in rows && row.id !in ids {
      var i :| 0 <= i < |rows| && rows[i] == row;
      Text.FilterKeeps(rows, p, i);
    }
    if row in Without(rows, ids) {
      Text.FilterSubset(rows, p, row);
    }
  }

  /** Outcome of a delete: the table after it and the value reported. */
  datatype Deleted<R> = Deleted(table: Table, result: R)

  /** `delete_download_request`: success exactly when a row went. */
  function DeleteDownloadRequest(t: Table, id: int, fails: bool): (d: Deleted<bool>)
    ensures fails ==> d.table == t && !d.result
    ensures d.result <==> |d.table.rows| < |t.rows|
    ensures d.table.nextId == t.nextId
  {
    if fails then Deleted(t, false)
    else
      var rows := Without(t.rows, {id});
      Deleted(t.(rows := rows), |rows| < |t.rows|)
  }

  /** A row with the id exists exactly when the delete reports success. */
  lemma DeleteOneSucceedsIffPresent(t: Table, id: int)
    ensures DeleteDownloadRequest(t, id, false).result
        <==> exists i :: 0 <= i < |t.rows| && t.rows[i].id == id
  {
    var p := Outside({id});
    if exists i :: 0 <= i < |t.rows| && t.rows[i].id == id {
      var i :| 0 <= i < |t.rows| && t.rows[i].id == id;
      FilterDropsOne(t.rows, p, i);
    } else {
      Text.FilterAll(t.rows, p);
    }
  }

  /** Filtering out one element shortens a sequence. */
  lemma {:induction false} FilterDropsOne(s: seq<Row>, p: Row -> bool, i: nat)
    requires i < |s| && !p(s[i])
    ensures |Text.Filter(s, p)| < |s|
  {
    if i > 0 {
      FilterDropsOne(s[1..], p, i - 1);
    }
  }

  /** `delete_download_requests`: nothing for an empty list; otherwise the
      rows whose id is among the (integer-converted) ids go and their number
      is reported, or 0 when the query fails. */
  function DeleteDownloadRequests(t: Table, ids: seq<Value>, fails: bool): (d: Deleted<int>)
    ensures d.result >= 0
    ensures |ids| == 0 || fails ==> d == Deleted(t, 0)
    ensures d.result == |t.rows| - |d.table.rows|
    ensures d.table.nextId == t.nextId
  {
    if |ids| == 0 then Deleted(t, 0)
    else if fails then Deleted(t, 0)
    else
      var idSet := set i | 0 <= i < |ids| :: IntVal(ids[i]);
      var rows := Without(t.rows, idSet);
      Deleted(t.(rows := rows), |t.rows| - |rows|)
  }

  /** After a bulk delete, a row survives exactly when its id was not in
      the list. */
  lemma DeleteManyKeeps(t: Table, ids: seq<Value>, row: Row)
    requires |ids| > 0
    ensures row in DeleteDownloadRequests(t, ids, false).table.rows
        <==> row in t.rows && forall i :: 0 <= i < |ids| ==> IntVal(ids[i]) != row.id
  {
    var idSet := set i | 0 <= i < |ids| :: IntVal(ids[i]);
    WithoutKeeps(t.rows, idSet, row);
    if row.id in idSet {
      var i :| 0 <= i < |ids| && IntVal(ids[i]) == row.id;
    }
  }

  // ---------------------------------------------------------------------
  // Retention
  // ---------------------------------------------------------------------

  const SecondsPerDay := 24 * 60 * 60

  /** `DATE_SUB( NOW(), INTERVAL days DAY )`. */
  function Cutoff(now: int, days: int): int {
    now - days * SecondsPerDay
  }

  /** The test a row that is kept passes. */
  function Since<T>(date: T -> int, cutoff: int): T -> bool {
    (x: T) => date(x) >= cutoff
  }

  /** The rows dated at or after the cutoff. */
  function KeepSince<T>(rows: seq<T>, date: T -> int, cutoff: int): (r: seq<T>)
    ensures |r| <= |rows|
    ensures forall i :: 0 <= i < |r| ==> date(r[i]) >= cutoff
  {
    Text.Filter(rows, Since(date, cutoff))
  }

  /** Retention removes exactly the rows dated before the cutoff. */
  lemma KeepSinceKeeps<T>(rows: seq<T>, date: T -> int, cutoff: int, x: T)
    ensures x in KeepSince(rows, date, cutoff) <==> x in rows && date(x) >= cutoff
  {
    var p := Since(date, cutoff);
    if x in rows && date(x) >= cutoff {
      var i :| 0 <= i < |rows| && rows[i] == x;
      Text.FilterKeeps(rows, p, i);
    }
    if x in KeepSince(rows, date, cutoff) {
      Text.FilterSubset(rows, p, x);
    }
  }

  /** `cleanup_download_requests`: rows older than `days` days go; the
      number removed is reported, 0 when the query fails. */
  function CleanupDownloadRequests(t: Table, now: int, days: int, fails: bool): (d: Deleted<int>)
    ensures d.result >= 0
    ensures fails ==> d == Deleted(t, 0)
    ensures d.result == |t.rows| - |d.table.rows|
    ensures !fails ==> forall i :: 0 <= i < |d.table.rows| ==> d.table.rows[i].downloadDate >= Cutoff(now, days)
  {
    if fails then Deleted(t, 0)
    else
      var rows := KeepSince(t.rows, (r: Row) => r.downloadDate, Cutoff(now, days));
      Deleted(t.(rows := rows), |t.rows| - |rows|)
  }

  /** A row of the error-log table, reduced to its timestamp and message. */
  datatype LogRow = LogRow(timestamp: int, level: string, message: string)

  /** `cleanup_error_logs`: log rows older than `days` days go. */
  function CleanupErrorLogs(logs: seq<LogRow>, now: int, days: int, fails: bool): (d: (seq<LogRow>, int))
    ensures d.1 >= 0
    ensures fails ==> d == (logs, 0)
    ensures d.1 == |logs| - |d.0|
    ensures !fails ==> forall i :: 0 <= i < |d.0| ==> d.0[i].timestamp >= Cutoff(now, days)
  {
    if fails then (logs, 0)
    else
      var kept := KeepSince(logs, (l: LogRow) => l.timestamp, Cutoff(now, days));
      (kept, |logs| - |kept|)
  }

  /** A retention cleanup that runs removes exactly the rows dated before
      the cutoff, in both tables. */
  lemma CleanupKeepsRecent(t: Table, logs: seq<LogRow>, now: int, days: int, row: Row, log: LogRow)
    ensures row in CleanupDownloadRequests(t, now, days, false).table.rows
        <==> row in t.rows && row.downloadDate >= Cutoff(now, days)
    ensures log in CleanupErrorLogs(logs, now, days, false).0
        <==> log in logs && log.timestamp >= Cutoff(now, days)
  {
    KeepSinceKeeps(t.rows, (r: Row) => r.downloadDate, Cutoff(now, days), row);
    KeepSinceKeeps(logs, (l: LogRow) => l.timestamp, Cutoff(now, days), log);
  }

  /** `run_full_cleanup`'s defaults. */
  const CleanupDefaults: PhpArray := [
    ("download_requests_days", Int(365)),
    ("error_logs_days", Int(30))
  ]

  /** The outcome of `run_full_cleanup`: both tables afterwards and the
      report. */
  datatype Cleanup = Cleanup(table: Table, logs: seq<LogRow>, report: PhpArray)

  /** `run_full_cleanup`: both retention periods from the options merged
      over the defaults, and a report with both counts. */
  function RunFullCleanup(t: Table, logs: seq<LogRow>, options: PhpArray, now: int,
                          requestsFail: bool, logsFail: bool): (c: Cleanup)
    ensures |c.report| == 2
    ensures c.report[0].0 == "download_requests" && c.report[1].0 == "error_logs"
  {
    var o := Merge(CleanupDefaults, options);
    var requests := CleanupDownloadRequests(t, now, IntVal(Lookup(o, "download_requests_days")), requestsFail);
    var errors := CleanupErrorLogs(logs, now, IntVal(Lookup(o, "error_logs_days")), logsFail);
    Cleanup(requests.table, errors.0, [
      ("download_requests", Int(requests.result)),
      ("error_logs", Int(errors.1))
    ])
  }

  /** Without options the cleanup keeps a year of requests and thirty days
      of logs. */
  lemma FullCleanupDefaults(t: Table, logs: seq<LogRow>, now: int)
    ensures var c := RunFullCleanup(t, logs, [], now, false, false);
      && c.table == CleanupDownloadRequests(t, now, 365, false).table
      && c.logs == CleanupErrorLogs(logs, now, 30, false).0
  {
    assert Merge(CleanupDefaults, []) == CleanupDefaults;
  }

  /** The retention period `run_full_cleanup` reads for `key`: the
      caller's value when the options carry the key, the default otherwise. */
  function Period(options: PhpArray, key: string, default: int): int {
    if HasKey(options, key) then IntVal(Lookup(options, key)) else default
  }

  /** Each option overrides its own default only: the request table is
      cleaned with `download_requests_days` when given and 365 days
      otherwise, the log table with `error_logs_days` when given and 30
      days otherwise. */
  lemma FullCleanupOverride(t: Table, logs: seq<LogRow>, options: PhpArray, now: int)
    requires UniqueKeys(options)
    ensures var c := RunFullCleanup(t, logs, options, now, false, false);
      && c.table == CleanupDownloadRequests(t, now, Period(options, "download_requests_days", 365), false).table
      && c.logs == CleanupErrorLogs(logs, now, Period(options, "error_logs_days", 30), false).0
  {
    MergeLookup(CleanupDefaults, options, "download_requests_days");
    MergeLookup(CleanupDefaults, options, "error_logs_days");
    assert Lookup(CleanupDefaults, "download_requests_days") == Int(365);
    assert Lookup(CleanupDefaults, "error_logs_days") == Int(30) by {
      assert CleanupDefaults[0].0 != "error_logs_days";
    }
  }

  /** The plugin's own call passes both periods; each table gets its own. */
  lemma FullCleanupBothOptions(t: Table, logs: seq<LogRow>, requestDays: int, logDays: int, now: int)
    ensures var c := RunFullCleanup(t, logs, [("download_requests_days", Int(requestDays)),
                                              ("error_logs_days", Int(logDays))], now, false, false);
      && c.table == CleanupDownloadRequests(t, now, requestDays, false).table
      && c.logs == CleanupErrorLogs(logs, now, logDays, false).0
  {
    var opts: PhpArray := [("download_requests_days", Int(requestDays)), ("error_logs_days", Int(logDays))];
    assert opts[0].0 != opts[1].0;
    assert UniqueKeys(opts);
    FullCleanupOverride(t, logs, opts, now);
    assert HasKey(opts, "download_requests_days") && HasKey(opts, "error_logs_days");
    assert Lookup(opts, "error_logs_days") == Int(logDays);
  }
}
