/**
 * staff/views.py: the staff list's filters and pages, the detail and public
 * verification views that each log one lookup, the create and edit views, and
 * the sticker download's file name. Templates, messages, authentication
 * decorators and the PDF renderer are outside the model.
 */
module Views {
  import opened Wrappers
  import opened Text
  import opened Utils
  import opened Models

  // ---------------------------------------------------------------------
  // Order-preserving selection

  /** The elements of `s` that satisfy `p`, in their order in `s`. */
  function Keep<T(!new)>(s: seq<T>, p: T -> bool): (r: seq<T>)
    ensures |r| <= |s|
    decreases |s|
  {
    if s == [] then []
    else
      assert s == [s[0]] + s[1..];
      (if p(s[0]) then [s[0]] else []) + Keep(s[1..], p)
  }

  /** Selection keeps an element exactly when the sequence holds it and it satisfies the condition. */
  lemma {:induction false} KeepMembers<T(!new)>(s: seq<T>, p: T -> bool)
    ensures forall x :: x in Keep(s, p) <==> x in s && p(x)
    decreases |s|
  {
    if s != [] {
      KeepMembers(s[1..], p);
      assert s == [s[0]] + s[1..];
    }
  }

  /** Selection keeps every copy of a satisfying element and no copy of any other. */
  lemma {:induction false} KeepCounts<T(!new)>(s: seq<T>, p: T -> bool)
    ensures forall x :: multiset(Keep(s, p))[x] == if p(x) then multiset(s)[x] else 0
    decreases |s|
  {
    if s != [] {
      KeepCounts(s[1..], p);
      assert s == [s[0]] + s[1..];
    }
  }

  /** `a` is `b` with some elements removed and the others in their order. */
  ghost predicate IsSubsequence<T>(a: seq<T>, b: seq<T>)
    decreases |b|
  {
    a == [] ||
    (|b| > 0 && ((a[0] == b[0] && IsSubsequence(a[1..], b[1..])) || IsSubsequence(a, b[1..])))
  }

  lemma {:induction false} KeepIsSubsequence<T(!new)>(s: seq<T>, p: T -> bool)
    ensures IsSubsequence(Keep(s, p), s)
    decreases |s|
  {
    if s != [] {
      KeepIsSubsequence(s[1..], p);
      var rest := Keep(s[1..], p);
      if p(s[0]) {
        assert Keep(s, p) == [s[0]] + rest;
        assert ([s[0]] + rest)[1..] == rest;
      } else {
        assert Keep(s, p) == rest;
      }
    }
  }

  /** Selecting by two conditions in turn is selecting once by both. */
  lemma {:induction false} KeepBoth<T(!new)>(s: seq<T>, p: T -> bool, q: T -> bool, pq: T -> bool)
    requires forall x :: pq(x) == (p(x) && q(x))
    ensures Keep(Keep(s, p), q) == Keep(s, pq)
    decreases |s|
  {
    if s != [] {
      KeepBoth(s[1..], p, q, pq);
      var head := if p(s[0]) then [s[0]] else [];
      KeepConcat(head, Keep(s[1..], p), q);
    }
  }

  lemma {:induction false} KeepConcat<T(!new)>(a: seq<T>, b: seq<T>, p: T -> bool)
    ensures Keep(a + b, p) == Keep(a, p) + Keep(b, p)
    decreases |a|
  {
    if a != [] {
      var ab := a + b;
      assert ab[0] == a[0] && ab[1..] == a[1..] + b;
      KeepConcat(a[1..], b, p);
    } else {
      assert a + b == b;
    }
  }

  /** A condition that holds everywhere selects everything. */
  lemma {:induction false} KeepEverything<T(!new)>(s: seq<T>, p: T -> bool)
    requires forall x :: p(x)
    ensures Keep(s, p) == s
    decreases |s|
  {
    if s != [] {
      KeepEverything(s[1..], p);
      assert s == [s[0]] + s[1..];
    }
  }

  /** Two conditions that agree everywhere select the same elements. */
  lemma {:induction false} KeepSame<T(!new)>(s: seq<T>, p: T -> bool, q: T -> bool)
    requires forall x :: p(x) == q(x)
    ensures Keep(s, p) == Keep(s, q)
    decreases |s|
  {
    if s != [] {
      KeepSame(s[1..], p, q);
    }
  }

  // ---------------------------------------------------------------------
  // The staff list

  /** The free-text condition: the query occurs, ignoring case, in one of four fields. */
  predicate TextMatches(r: StaffRecord, q: string)
    ensures q == "" ==> TextMatches(r, q)
    ensures TextMatches(r, q) ==>
      |q| <= |r.staffId| || |q| <= |r.firstName| || |q| <= |r.lastName| || |q| <= |r.email|
  {
    NoRoomNoMatch(Lower(r.staffId), Lower(q));
    NoRoomNoMatch(Lower(r.firstName), Lower(q));
    NoRoomNoMatch(Lower(r.lastName), Lower(q));
    NoRoomNoMatch(Lower(r.email), Lower(q));
    ContainsIgnoreCase(r.staffId, q) || ContainsIgnoreCase(r.firstName, q) ||
    ContainsIgnoreCase(r.lastName, q) || ContainsIgnoreCase(r.email, q)
  }

  /** Reference reading of the free-text condition, by substring occurrence. */
  lemma TextMatchesIffOccurs(r: StaffRecord, q: string)
    ensures TextMatches(r, q) <==>
      OccursIn(Lower(q), Lower(r.staffId)) || OccursIn(Lower(q), Lower(r.firstName)) ||
      OccursIn(Lower(q), Lower(r.lastName)) || OccursIn(Lower(q), Lower(r.email))
  {
    ContainsIffOccurs(Lower(r.staffId), Lower(q));
    ContainsIffOccurs(Lower(r.firstName), Lower(q));
    ContainsIffOccurs(Lower(r.lastName), Lower(q));
    ContainsIffOccurs(Lower(r.email), Lower(q));
  }

  /** The list's request parameters, each "" when absent. */
  datatype ListQuery = ListQuery(q: string, department: string, status: string)

  /** A record meets every non-empty filter; an empty one constrains nothing. */
  predicate Selected(r: StaffRecord, lq: ListQuery)
  {
    (lq.q == "" || TextMatches(r, lq.q)) &&
    (lq.department == "" || DepartmentCode(r.department) == lq.department) &&
    (lq.status == "" || StatusCode(r.status) == lq.status)
  }

  /** The list view's filter chain: the text filter, then the department, then the status. */
  function StaffList(rows: seq<StaffRecord>, lq: ListQuery): (r: seq<StaffRecord>)
    ensures |r| <= |rows|
    ensures forall x :: x in r ==> x in rows && Selected(x, lq)
  {
    KeepMembers(rows, (r: StaffRecord) => TextMatches(r, lq.q));
    var byText := if lq.q != "" then Keep(rows, (r: StaffRecord) => TextMatches(r, lq.q)) else rows;
    KeepMembers(byText, (r: StaffRecord) => DepartmentCode(r.department) == lq.department);
    var byDepartment := if lq.department != "" then
      Keep(byText, (r: StaffRecord) => DepartmentCode(r.department) == lq.department) else byText;
    KeepMembers(byDepartment, (r: StaffRecord) => StatusCode(r.status) == lq.status);
    if lq.status != "" then Keep(byDepartment, (r: StaffRecord) => StatusCode(r.status) == lq.status)
    else byDepartment
  }

  /** The chain keeps exactly the records that meet every filter, in table order. */
  lemma {:induction false} StaffListIsSelection(rows: seq<StaffRecord>, lq: ListQuery)
    ensures StaffList(rows, lq) == Keep(rows, (r: StaffRecord) => Selected(r, lq))
  {
    var textOk := (r: StaffRecord) => lq.q == "" || TextMatches(r, lq.q);
    var deptOk := (r: StaffRecord) => lq.department == "" || DepartmentCode(r.department) == lq.department;
    var statusOk := (r: StaffRecord) => lq.status == "" || StatusCode(r.status) == lq.status;
    var textDeptOk := (r: StaffRecord) => textOk(r) && deptOk(r);
    var byText := if lq.q != "" then Keep(rows, (r: StaffRecord) => TextMatches(r, lq.q)) else rows;
    if lq.q != "" {
      KeepSame(rows, (r: StaffRecord) => TextMatches(r, lq.q), textOk);
    } else {
      KeepEverything(rows, textOk);
    }
    assert byText == Keep(rows, textOk);
    var byDepartment := if lq.department != "" then
      Keep(byText, (r: StaffRecord) => DepartmentCode(r.department) == lq.department) else byText;
    if lq.department != "" {
      KeepSame(byText, (r: StaffRecord) => DepartmentCode(r.department) == lq.department, deptOk);
    } else {
      KeepEverything(byText, deptOk);
    }
    KeepBoth(rows, textOk, deptOk, textDeptOk);
    assert byDepartment == Keep(rows, textDeptOk);
    if lq.status != "" {
      KeepSame(byDepartment, (r: StaffRecord) => StatusCode(r.status) == lq.status, statusOk);
    } else {
      KeepEverything(byDepartment, statusOk);
    }
    KeepBoth(rows, textDeptOk, statusOk, (r: StaffRecord) => Selected(r, lq));
  }

  /**
   * The list holds a record exactly when the table does and it meets every
   * non-empty filter, as often as the table holds it, and in the table's
   * newest-first order.
   */
  lemma StaffListExact(rows: seq<StaffRecord>, lq: ListQuery)
    ensures forall r :: r in StaffList(rows, lq) <==> r in rows && Selected(r, lq)
    ensures forall r :: multiset(StaffList(rows, lq))[r] == if Selected(r, lq) then multiset(rows)[r] else 0
    ensures IsSubsequence(StaffList(rows, lq), rows)
  {
    StaffListIsSelection(rows, lq);
    KeepMembers(rows, (r: StaffRecord) => Selected(r, lq));
    KeepCounts(rows, (r: StaffRecord) => Selected(r, lq));
    KeepIsSubsequence(rows, (r: StaffRecord) => Selected(r, lq));
  }

  /** No parameters, no filtering: the whole table in its order. */
  lemma StaffListUnfiltered(rows: seq<StaffRecord>)
    ensures StaffList(rows, ListQuery("", "", "")) == rows
  {
  }

  lemma KeepPair<T(!new)>(a: T, b: T, p: T -> bool)
    ensures Keep([a, b], p) == (if p(a) then [a] else []) + (if p(b) then [b] else [])
  {
    assert [a, b][1..] == [b] && [b][1..] == [];
  }

  /** Records for the worked case: A is an active medical record "S1", B a suspended lab record "S2". */
  predicate ExamplePair(a: StaffRecord, b: StaffRecord)
  {
    a.staffId == "S1" && a.department == Medical && a.status == Active &&
    a.firstName == "Ada" && a.lastName == "Obi" && a.email == "" &&
    b.staffId == "S2" && b.department == Lab && b.status == Suspended
  }

  /** Filtering the worked case by department medical gives A alone. */
  lemma ExampleByDepartment(a: StaffRecord, b: StaffRecord)
    requires ExamplePair(a, b)
    ensures StaffList([a, b], ListQuery("", "medical", "")) == [a]
  {
    KeepPair(a, b, (r: StaffRecord) => DepartmentCode(r.department) == "medical");
  }

  /** Searching the worked case for "s2" gives B alone. */
  lemma ExampleByText(a: StaffRecord, b: StaffRecord)
    requires ExamplePair(a, b)
    ensures StaffList([a, b], ListQuery("s2", "", "")) == [b]
    ensures StaffList([a, b], ListQuery("S2", "", "")) == [b]
  {
    assert Lower("s2") == "s2" && Lower("S2") == "s2" && Lower("S1") == "s1";
    assert Lower("Ada") == "ada" && Lower("Obi") == "obi";
    assert !("s2" <= "s1") by { assert "s1"[1] != "s2"[1]; }
    assert "s1"[1..] == "1";
    NoRoomNoMatch("1", "s2");
    FirstCharAbsent("ada", "s2");
    FirstCharAbsent("obi", "s2");
    FirstCharAbsent("", "s2");
    assert Lower("") == "";
    assert !TextMatches(a, "s2");
    assert TextMatches(b, "s2");
    KeepPair(a, b, (r: StaffRecord) => TextMatches(r, "s2"));
    assert Lower("S2") == Lower("s2");
    KeepSame([a, b], (r: StaffRecord) => TextMatches(r, "S2"), (r: StaffRecord) => TextMatches(r, "s2"));
  }

  /** Department medical together with status suspended matches neither record of the worked case. */
  lemma ExampleByDepartmentAndStatus(a: StaffRecord, b: StaffRecord)
    requires ExamplePair(a, b)
    ensures StaffList([a, b], ListQuery("", "medical", "suspended")) == []
  {
    KeepPair(a, b, (r: StaffRecord) => DepartmentCode(r.department) == "medical");
    assert [a][1..] == [];
  }

  const PageSize: nat := 20

  /** Page `k` (counting from 0) of a list: the next `PageSize` items after `k` full pages. */
  function Page<T>(items: seq<T>, k: nat): (r: seq<T>)
    ensures |r| <= PageSize
    ensures |r| == if k * PageSize >= |items| then 0
                   else if |items| - k * PageSize < PageSize then |items| - k * PageSize
                   else PageSize
    ensures forall j :: 0 <= j < |r| ==> r[j] == items[k * PageSize + j]
  {
    var lo := if k * PageSize < |items| then k * PageSize else |items|;
    var hi := if lo + PageSize < |items| then lo + PageSize else |items|;
    items[lo..hi]
  }

  /** Item `i` of a list is item `i % PageSize` of page `i / PageSize`, so every item is on exactly one page. */
  lemma ItemOnItsPage<T>(items: seq<T>, i: nat)
    requires i < |items|
    ensures i % PageSize < |Page(items, i / PageSize)|
    ensures Page(items, i / PageSize)[i % PageSize] == items[i]
  {
    assert i == (i / PageSize) * PageSize + i % PageSize;
  }

  /** The number of pages the paginator offers: one for an empty list. */
  function PageCount(n: nat): (c: nat)
    ensures c >= 1
    ensures n == 0 ==> c == 1
    ensures n > 0 ==> (c - 1) * PageSize < n <= c * PageSize
  {
    if n == 0 then 1 else (n + PageSize - 1) / PageSize
  }

  /** One page of the staff list. */
  function StaffListPage(rows: seq<StaffRecord>, lq: ListQuery, k: nat): (r: seq<StaffRecord>)
    ensures var n := |StaffList(rows, lq)|;
      |r| == if k * PageSize >= n then 0 else if n - k * PageSize < PageSize then n - k * PageSize else PageSize
    ensures forall j :: 0 <= j < |r| ==> r[j] == StaffList(rows, lq)[k * PageSize + j]
    ensures forall x :: x in r ==> x in rows && Selected(x, lq)
  {
    Page(StaffList(rows, lq), k)
  }

  // ---------------------------------------------------------------------
  // Verification views

  /** A request as the views see it: the authenticated operator, if any, and the META map. */
  datatype Request = Request(user: Option<UserId>, meta: map<string, string>)

  datatype ViewError =
    | NotFound
      /** The form is redisplayed with its errors; nothing is written. */
    | FormInvalid
    | ServerError

  const UserAgentHeader := "HTTP_USER_AGENT"
  const MaxUserAgent: nat := 500

  /** The User-Agent header, or "" when the request has none. */
  function UserAgent(meta: map<string, string>): (ua: string)
    ensures UserAgentHeader in meta ==> ua == meta[UserAgentHeader]
    ensures UserAgentHeader !in meta ==> ua == ""
  {
    if UserAgentHeader in meta then meta[UserAgentHeader] else ""
  }

  /**
   * The log can store the request's client address: there is one and it is
   * not empty. An empty address is stored as NULL, which the required
   * `ip_address` column refuses.
   */
  predicate HasAddress(meta: map<string, string>)
  {
    ClientIp(meta).Some? && ClientIp(meta).value != ""
  }

  /** The log entry a lookup of `rec` by `req` creates. */
  function NewLogEntry(rec: StaffRecord, req: Request, ip: string, now: int): (e: LogEntry)
    ensures e.staffUuid == rec.uuid && e.ipAddress == ip && e.verifiedAt == now
    ensures e.verifiedBy.Some? <==> req.user.Some?
    ensures req.user.Some? ==> e.verifiedBy == req.user
    ensures |e.userAgent| <= MaxUserAgent && e.userAgent <= UserAgent(req.meta)
    ensures |UserAgent(req.meta)| <= MaxUserAgent ==> e.userAgent == UserAgent(req.meta)
    ensures |UserAgent(req.meta)| > MaxUserAgent ==> |e.userAgent| == MaxUserAgent
  {
    LogEntry(rec.uuid, req.user, ip, Truncate(UserAgent(req.meta), MaxUserAgent), now)
  }

  /** The verify page's verdict: active, and no expiry date or not past it. */
  function IsValid(r: StaffRecord, today: Date): (b: bool)
    ensures b <==> r.status == Active && (r.dateExpiry.None? || today <= r.dateExpiry.value)
  {
    r.status == Active && !IsExpired(r, today)
  }

  /** The verify page and the badge colour agree. */
  lemma ValidIffSuccessClass(r: StaffRecord, today: Date)
    ensures IsValid(r, today) <==> StatusDisplayClass(r, today) == "success"
  {
  }

  datatype VerifyPage = VerifyPage(staff: StaffRecord, isValid: bool, entry: LogEntry)

  /**
   * The public verification view: look the uuid up, then log the lookup, then
   * answer with the record and its verdict. An unknown uuid is answered before
   * anything is logged; a request with no client address cannot be logged
   * (the address column is required) and fails without logging.
   */
  method VerifyStaff(db: Database, u: Uuid, req: Request, today: Date, now: int)
    returns (r: Result<VerifyPage, ViewError>)
    requires db.Valid()
    modifies db`logs
    ensures db.Valid()
    ensures Find(db.staff, u).None? ==> r == Err(NotFound) && db.logs == old(db.logs)
    ensures Find(db.staff, u).Some? && !HasAddress(req.meta) ==>
      r == Err(ServerError) && db.logs == old(db.logs)
    ensures Find(db.staff, u).Some? && HasAddress(req.meta) ==>
      var rec := Find(db.staff, u).value;
      var e := NewLogEntry(rec, req, ClientIp(req.meta).value, now);
      r == Ok(VerifyPage(rec, IsValid(rec, today), e)) && db.logs == old(db.logs) + [e]
  {
    var found := Find(db.staff, u);
    if found.None? {
      return Err(NotFound);
    }
    var rec := found.value;
    var ip := ClientIp(req.meta);
    if ip.None? || ip.value == "" {
      return Err(ServerError);
    }
    var e := NewLogEntry(rec, req, ip.value, now);
    db.CreateLog(e);
    return Ok(VerifyPage(rec, IsValid(rec, today), e));
  }

  function Reverse<T>(s: seq<T>): (r: seq<T>)
    ensures |r| == |s|
    ensures forall i :: 0 <= i < |s| ==> r[i] == s[|s| - 1 - i]
  {
    if s == [] then [] else Reverse(s[1..]) + [s[0]]
  }

  const RecentCount: nat := 10

  /** The first `n` items of a reversed sequence are its last `n` items, latest first. */
  lemma LatestFirst<T>(s: seq<T>, n: nat)
    ensures var r := Truncate(Reverse(s), n);
      |r| == (if |s| < n then |s| else n) &&
      (forall j :: 0 <= j < |r| ==> r[j] == s[|s| - 1 - j]) &&
      (forall x :: x in r ==> x in s)
  {
    var r := Truncate(Reverse(s), n);
    forall x | x in r ensures x in s {
      var j :| 0 <= j < |r| && r[j] == x;
      assert x == s[|s| - 1 - j];
    }
  }

  /** The log entries for one staff member, in log order. */
  function EntriesFor(logs: seq<LogEntry>, u: Uuid): (r: seq<LogEntry>)
    ensures forall e :: e in r <==> e in logs && e.staffUuid == u
    ensures forall e :: multiset(r)[e] == if e.staffUuid == u then multiset(logs)[e] else 0
    ensures IsSubsequence(r, logs)
  {
    KeepMembers(logs, (e: LogEntry) => e.staffUuid == u);
    KeepCounts(logs, (e: LogEntry) => e.staffUuid == u);
    KeepIsSubsequence(logs, (e: LogEntry) => e.staffUuid == u);
    Keep(logs, (e: LogEntry) => e.staffUuid == u)
  }

  /** Logging one more entry for `u` puts it last among `u`'s entries. */
  lemma EntriesForAppend(logs: seq<LogEntry>, e: LogEntry)
    ensures EntriesFor(logs + [e], e.staffUuid) == EntriesFor(logs, e.staffUuid) + [e]
  {
    KeepConcat(logs, [e], (x: LogEntry) => x.staffUuid == e.staffUuid);
  }

  /** The latest `RecentCount` log entries for one staff member, newest first. */
  function RecentLogs(logs: seq<LogEntry>, u: Uuid): (r: seq<LogEntry>)
    ensures var mine := EntriesFor(logs, u);
      |r| == (if |mine| < RecentCount then |mine| else RecentCount) &&
      forall j :: 0 <= j < |r| ==> r[j] == mine[|mine| - 1 - j]
    ensures forall e :: e in r ==> e in logs && e.staffUuid == u
  {
    var mine := EntriesFor(logs, u);
    LatestFirst(mine, RecentCount);
    Truncate(Reverse(mine), RecentCount)
  }

  /** Right after an entry is logged it heads its staff member's recent entries. */
  lemma NewEntryIsMostRecent(logs: seq<LogEntry>, e: LogEntry)
    ensures |RecentLogs(logs + [e], e.staffUuid)| > 0
    ensures RecentLogs(logs + [e], e.staffUuid)[0] == e
  {
    EntriesForAppend(logs, e);
  }

  datatype DetailPage = DetailPage(staff: StaffRecord, recent: seq<LogEntry>, entry: LogEntry)

  /**
   * The operator's detail view: look the uuid up, log the lookup exactly as
   * the public view does, and show the record with its recent entries. The
   * recent entries are read when the page is rendered, after the new entry
   * was created, so the new entry is the first of them.
   */
  method StaffDetail(db: Database, u: Uuid, req: Request, now: int)
    returns (r: Result<DetailPage, ViewError>)
    requires db.Valid()
    modifies db`logs
    ensures db.Valid()
    ensures Find(db.staff, u).None? ==> r == Err(NotFound) && db.logs == old(db.logs)
    ensures Find(db.staff, u).Some? && !HasAddress(req.meta) ==>
      r == Err(ServerError) && db.logs == old(db.logs)
    ensures Find(db.staff, u).Some? && HasAddress(req.meta) ==>
      var rec := Find(db.staff, u).value;
      var e := NewLogEntry(rec, req, ClientIp(req.meta).value, now);
      r == Ok(DetailPage(rec, RecentLogs(db.logs, u), e)) && db.logs == old(db.logs) + [e]
    ensures r.Ok? ==> |r.value.recent| > 0 && r.value.recent[0] == r.value.entry
  {
    var found := Find(db.staff, u);
    if found.None? {
      return Err(NotFound);
    }
    var rec := found.value;
    var ip := ClientIp(req.meta);
    if ip.None? || ip.value == "" {
      return Err(ServerError);
    }
    var e := NewLogEntry(rec, req, ip.value, now);
    db.CreateLog(e);
    NewEntryIsMostRecent(old(db.logs), e);
    return Ok(DetailPage(rec, RecentLogs(db.logs, u), e));
  }

  // ---------------------------------------------------------------------
  // Create and edit

  /** What a save becomes in the view: a clash is a form error, a failed image a server error. */
  function SaveResult(o: SaveOutcome, rec: StaffRecord): (r: Result<StaffRecord, ViewError>)
    ensures o == Saved <==> r == Ok(rec)
    ensures o == DuplicateStaffId <==> r == Err(FormInvalid)
    ensures o == QrGenerationFailed <==> r == Err(ServerError)
  {
    match o
    case Saved => Ok(rec)
    case DuplicateStaffId => Err(FormInvalid)
    case QrGenerationFailed => Err(ServerError)
  }

  /** The record a successful save writes: `rec` with its code-image path filled in if it had none. */
  function AfterSave(rec: StaffRecord, encodeOk: bool): (n: StaffRecord)
    ensures n.uuid == rec.uuid
    ensures rec.qrCode != "" ==> n == rec
    ensures rec.qrCode == "" && encodeOk ==> n == rec.(qrCode := QrRelativePath(rec.uuid))
    ensures rec.qrCode == "" && !encodeOk ==> n == rec
  {
    if rec.qrCode == "" && encodeOk then rec.(qrCode := QrRelativePath(rec.uuid)) else rec
  }

  /** A record saved once has its image path; saving it again generates nothing and changes nothing. */
  lemma SecondSaveKeepsImage(rec: StaffRecord, encodeOk: bool)
    requires rec.qrCode == ""
    ensures AfterSave(rec, true).qrCode != ""
    ensures AfterSave(AfterSave(rec, true), encodeOk) == AfterSave(rec, true)
  {
  }

  /**
   * The create view with a valid form: a new record under a fresh uuid is
   * saved (and gets its code image).
   */
  method StaffCreate(db: Database, u: Uuid, f: StaffForm, c: Settings, encodeOk: bool)
    returns (r: Result<StaffRecord, ViewError>)
    requires db.Valid() && HasHost(c)
    requires u !in Uuids(db.staff)
    modifies db
    ensures db.Valid() && db.logs == old(db.logs)
    ensures var n := NewRecord(u, f);
      if StaffIdTaken(old(db.staff), n) then
        r == Err(FormInvalid) && db.staff == old(db.staff) && db.images == old(db.images)
      else
        var saved := AfterSave(n, encodeOk);
        r == (if encodeOk then Ok(saved) else Err(ServerError)) &&
        db.staff == [saved] + old(db.staff) &&
        db.images == (if encodeOk then old(db.images)[QrRelativePath(u) := VerificationUrl(c, u)]
                      else old(db.images))
    ensures r.Ok? ==> r.value.uuid == u && r.value.status == f.status
  {
    var s := new Staff.Create(u, f);
    var o := s.Save(db, c, encodeOk);
    r := SaveResult(o, s.Record());
  }

  /**
   * The edit view with a valid form: the stored record is loaded, the form's
   * fields are written over it (its uuid and code image stay), and it is saved.
   */
  method StaffEdit(db: Database, u: Uuid, f: StaffForm, c: Settings, encodeOk: bool)
    returns (r: Result<StaffRecord, ViewError>)
    requires db.Valid() && HasHost(c)
    modifies db
    ensures db.Valid() && db.logs == old(db.logs)
    ensures Find(old(db.staff), u).None? ==>
      r == Err(NotFound) && db.staff == old(db.staff) && db.images == old(db.images)
    ensures Find(old(db.staff), u).Some? ==>
      var n := WithForm(Find(old(db.staff), u).value, f);
      if StaffIdTaken(old(db.staff), n) then
        r == Err(FormInvalid) && db.staff == old(db.staff) && db.images == old(db.images)
      else
        var saved := AfterSave(n, encodeOk);
        var generated := n.qrCode == "" && encodeOk;
        r == (if n.qrCode == "" && !encodeOk then Err(ServerError) else Ok(saved)) &&
        db.staff == Upsert(old(db.staff), saved) &&
        db.images == (if generated then old(db.images)[QrRelativePath(u) := VerificationUrl(c, u)]
                      else old(db.images))
    ensures r.Ok? ==> r.value.uuid == u && r.value.status == f.status
  {
    var found := Find(db.staff, u);
    if found.None? {
      return Err(NotFound);
    }
    var s := new Staff.Load(found.value);
    s.Assign(f);
    var o := s.Save(db, c, encodeOk);
    r := SaveResult(o, s.Record());
  }

  // ---------------------------------------------------------------------
  // Sticker download

  function StickerFilename(staffId: string): (name: string)
    ensures |name| == |staffId| + 15
    ensures name[..11] == "qr_sticker_"
    ensures name[11..|name| - 4] == staffId
    ensures name[|name| - 4..] == ".pdf"
  {
    "qr_sticker_" + staffId + ".pdf"
  }

  /** Distinct staff ids give distinct sticker file names. */
  lemma {:induction false} StickerFilenameInjective(a: string, b: string)
    requires StickerFilename(a) == StickerFilename(b)
    ensures a == b
  {
    FramedEqual("qr_sticker_", a, b, ".pdf");
  }

  /**
   * The sticker download's Content-Disposition header, or the error it gives:
   * not found for an unknown uuid, a server error when the renderer fails.
   */
  function StickerDisposition(rows: seq<StaffRecord>, u: Uuid, renderOk: bool): (r: Result<string, ViewError>)
    ensures Find(rows, u).None? ==> r == Err(NotFound)
    ensures Find(rows, u).Some? && !renderOk ==> r == Err(ServerError)
    ensures Find(rows, u).Some? && renderOk ==>
      r == Ok("inline; filename=\"" + StickerFilename(Find(rows, u).value.staffId) + "\"")
  {
    match Find(rows, u)
    case None => Err(NotFound)
    case Some(rec) =>
      if renderOk then Ok("inline; filename=\"" + StickerFilename(rec.staffId) + "\"")
      else Err(ServerError)
  }
}
