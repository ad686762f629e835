/** The paged list of submissions for moderators: internal/database/admin_submissions.go. */
module AdminSubmissions {
  import opened Wrappers
  import opened Models
  import opened Selection
  import opened Strings
  import opened Database
  import opened Like

  const DEFAULT_PAGE_SIZE := 50
  const MAX_PAGE_SIZE := 100

  /** One row of the joined query: a pipeline, its student, its benchmark result and its ban. */
  datatype Submission = Submission(pipeline: Pipeline, user: Option<User>, benchmark: Option<BenchmarkResult>, banned: bool)
  {
    function Login(): string {
      if user.Some? then user.value.gitlabLogin else if benchmark.Some? then benchmark.value.gitlabLogin else ""
    }

    function FullName(): string {
      if user.Some? then user.value.FullName() else ""
    }
  }

  /** lower stands for the database's LOWER, lowerSearch for the search text in lower case. */
  datatype Filters = Filters(kind: string, group: string, task: string, lowerSearch: string, state: string, page: int, pageSize: int, lower: string -> string)
  {
    predicate KeepsKind(row: Submission) {
      && (kind == "regular" ==> row.benchmark.None?)
      && (kind == "leaderboard" ==> row.benchmark.Some?)
      && (group != "" ==> row.user.Some? && row.user.value.groupName == group)
      && (task != "" ==> row.pipeline.task == task)
      && (state == "active" ==> !row.banned)
      && (state == "banned" ==> row.banned)
    }

    /** The condition on both names that the query sends to the database. */
    predicate KeepsSearch(row: Submission) {
      var pattern := SearchPattern(lowerSearch);
      lowerSearch != "" ==> LikeResult(lower(row.Login()), pattern) == Some(true) || LikeResult(lower(row.FullName()), pattern) == Some(true)
    }

    predicate Keeps(row: Submission) {
      KeepsKind(row) && KeepsSearch(row)
    }
  }

  /** The search keeps a row exactly if its login or name contains the text; it never fails. */
  lemma SearchKeeps(filters: Filters, row: Submission)
    ensures filters.KeepsSearch(row) <==>
              Contains(filters.lower(row.Login()), filters.lowerSearch) || Contains(filters.lower(row.FullName()), filters.lowerSearch)
  {
    SearchIsContains(filters.lower(row.Login()), filters.lowerSearch);
    SearchIsContains(filters.lower(row.FullName()), filters.lowerSearch);
    assert filters.lowerSearch == "" ==> HasPrefix(filters.lower(row.Login())[0..], filters.lowerSearch);
  }

  /** Latest first, then the greater id. */
  predicate Later(a: Submission, b: Submission) {
    a.pipeline.startedAt > b.pipeline.startedAt || (a.pipeline.startedAt == b.pipeline.startedAt && a.pipeline.id > b.pipeline.id)
  }

  // The join

  predicate Owns(user: User, pipeline: Pipeline) {
    user.project == Some(pipeline.project)
  }

  /** A pipeline with one of its students, or with none if there is none, and what is known of it. */
  ghost predicate IsJoined(t: Tables, row: Submission) {
    var id := row.pipeline.id;
    && id in t.pipelines && t.pipelines[id] == row.pipeline
    && row.benchmark == (if id in t.benchmarks then Some(t.benchmarks[id]) else None)
    && (row.banned <==> id in t.bans)
    && (if row.user.Some?
        then row.user.value in t.users.Values && Owns(row.user.value, row.pipeline)
        else forall login :: login in t.users ==> !Owns(t.users[login], row.pipeline))
  }

  /** No two students have repositories that give the project of one pipeline. */
  ghost predicate OneStudentEach(t: Tables) {
    forall id, a, b ::
      id in t.pipelines && a in t.users && b in t.users && Owns(t.users[a], t.pipelines[id]) && Owns(t.users[b], t.pipelines[id]) ==> a == b
  }

  function JoinedRow(t: Tables, id: int, user: Option<User>): Submission
    requires id in t.pipelines
  {
    Submission(t.pipelines[id], user, if id in t.benchmarks then Some(t.benchmarks[id]) else None, id in t.bans)
  }

  /** The join lists a pipeline once exactly if no two students share a pipeline's project. */
  lemma JoinedOnce(t: Tables)
    requires t.Valid()
    ensures (forall x, y :: IsJoined(t, x) && IsJoined(t, y) && x.pipeline.id == y.pipeline.id ==> x == y) <==> OneStudentEach(t)
  {
    if OneStudentEach(t) {
      forall x, y | IsJoined(t, x) && IsJoined(t, y) && x.pipeline.id == y.pipeline.id
        ensures x == y
      {
        JoinedSame(t, x, y);
      }
    }
    if forall x, y :: IsJoined(t, x) && IsJoined(t, y) && x.pipeline.id == y.pipeline.id ==> x == y {
      forall id, a, b | id in t.pipelines && a in t.users && b in t.users && Owns(t.users[a], t.pipelines[id]) && Owns(t.users[b], t.pipelines[id])
        ensures a == b
      {
        assert t.users[a] in t.users.Values && t.users[b] in t.users.Values;
        assert IsJoined(t, JoinedRow(t, id, Some(t.users[a]))) && IsJoined(t, JoinedRow(t, id, Some(t.users[b])));
      }
    }
  }

  lemma JoinedUser(t: Tables, row: Submission)
    requires t.Valid() && IsJoined(t, row)
    ensures row.user.Some? ==> row.user.value.gitlabLogin in t.users && t.users[row.user.value.gitlabLogin] == row.user.value
  {
    if row.user.Some? {
      var login := KeyOf(t.users, row.user.value);
    }
  }

  lemma JoinedSame(t: Tables, x: Submission, y: Submission)
    requires t.Valid() && OneStudentEach(t) && IsJoined(t, x) && IsJoined(t, y) && x.pipeline.id == y.pipeline.id
    ensures x == y
  {
    JoinedUser(t, x);
    JoinedUser(t, y);
  }

  // The result

  /** The result of the query without limit and offset: ties of the order come in any order. */
  ghost predicate IsResult(list: seq<Submission>, t: Tables, filters: Filters) {
    && (forall row :: row in list <==> IsJoined(t, row) && filters.Keeps(row))
    && Distinct(list, Itself) && Sorted(list, Later)
  }

  ghost predicate NoTies(list: seq<Submission>) {
    forall x, y :: x in list && y in list && x.pipeline.id == y.pipeline.id ==> x == y
  }

  ghost predicate OnlyResult(list: seq<Submission>, t: Tables, filters: Filters) {
    forall other :: IsResult(other, t, filters) ==> other == list
  }

  lemma LaterOrder()
    ensures StrictWeakOrder(Later)
  {
  }

  lemma NoTiesStrict(list: seq<Submission>, t: Tables, filters: Filters)
    requires IsResult(list, t, filters) && NoTies(list)
    ensures StrictlySorted(list, Later)
  {
    forall i, j | 0 <= i < j < |list|
      ensures Later(list[i], list[j])
    {
      assert Itself(list[i]) != Itself(list[j]) && list[i] in list && list[j] in list;
      assert !Later(list[j], list[i]);
    }
  }

  function Swapped<T>(list: seq<T>, i: nat, j: nat): seq<T>
    requires i < j < |list|
  {
    list[i := list[j]][j := list[i]]
  }

  /** Two tied rows can as well come the other way round. */
  lemma SwappedResult(list: seq<Submission>, t: Tables, filters: Filters, i: nat, j: nat)
    requires IsResult(list, t, filters) && i < j < |list| && list[i].pipeline.id == list[j].pipeline.id
    ensures IsResult(Swapped(list, i, j), t, filters) && Swapped(list, i, j) != list
  {
    var other := Swapped(list, i, j);
    assert list[i] in list && list[j] in list;
    assert list[i].pipeline == list[j].pipeline;
    forall k | 0 <= k < |list|
      ensures other[k].pipeline == list[k].pipeline
    {
    }
    forall row
      ensures row in other <==> row in list
    {
      SwappedRows(list, i, j, row);
    }
    forall a, b | 0 <= a < b < |other|
      ensures Itself(other[a]) != Itself(other[b])
    {
      var x, y := if a == i then j else if a == j then i else a, if b == i then j else if b == j then i else b;
      assert other[a] == list[x] && other[b] == list[y] && x != y;
      assert Itself(list[x]) != Itself(list[y]) by {
        if x < y {
        } else {
          assert Itself(list[y]) != Itself(list[x]);
        }
      }
    }
    assert Itself(list[i]) != Itself(list[j]);
  }

  lemma SwappedRows<T>(list: seq<T>, i: nat, j: nat, row: T)
    requires i < j < |list|
    ensures row in Swapped(list, i, j) <==> row in list
  {
    var other := Swapped(list, i, j);
    assert other[i] == list[j] && other[j] == list[i];
    if row in list {
      var k :| 0 <= k < |list| && list[k] == row;
      assert other[if k == i then j else if k == j then i else k] == row;
    }
  }

  lemma NoTiesOnly(list: seq<Submission>, t: Tables, filters: Filters)
    requires IsResult(list, t, filters) && NoTies(list)
    ensures OnlyResult(list, t, filters)
  {
    forall other | IsResult(other, t, filters)
      ensures other == list
    {
      NoTiesStrict(list, t, filters);
      NoTiesStrict(other, t, filters);
      LaterOrder();
      StrictlySortedUnique(list, other, Later);
    }
  }

  lemma TiesSwap(list: seq<Submission>, t: Tables, filters: Filters)
    requires IsResult(list, t, filters) && !NoTies(list)
    ensures !OnlyResult(list, t, filters)
  {
    var x, y :| x in list && y in list && x.pipeline.id == y.pipeline.id && x != y;
    var i :| 0 <= i < |list| && list[i] == x;
    var j :| 0 <= j < |list| && list[j] == y;
    SwappedResult(list, t, filters, if i < j then i else j, if i < j then j else i);
  }

  /**
   * Separate requests see pages of one list exactly if no pipeline is listed twice; otherwise
   * the order leaves a choice.
   */
  lemma ResultUnique(list: seq<Submission>, t: Tables, filters: Filters)
    requires IsResult(list, t, filters)
    ensures OnlyResult(list, t, filters) <==> NoTies(list)
  {
    if NoTies(list) {
      NoTiesOnly(list, t, filters);
    } else {
      TiesSwap(list, t, filters);
    }
  }

  // What the list shows

  /** What the filters ask for: the search text occurs in the login or in the full name. */
  ghost predicate Selects(filters: Filters, row: Submission) {
    && (filters.kind == "regular" ==> row.benchmark == None)
    && (filters.kind == "leaderboard" ==> row.benchmark != None)
    && (filters.state == "active" ==> !row.banned)
    && (filters.state == "banned" ==> row.banned)
    && (filters.task == "" || row.pipeline.task == filters.task)
    && (filters.group == "" || (row.user != None && row.user.value.groupName == filters.group))
    && (var login := if row.user != None then row.user.value.gitlabLogin else if row.benchmark != None then row.benchmark.value.gitlabLogin else "";
        var name := if row.user != None then row.user.value.firstName + " " + row.user.value.lastName else "";
        Contains(filters.lower(login), filters.lowerSearch) || Contains(filters.lower(name), filters.lowerSearch))
  }

  /** A pipeline of the table with its benchmark result and its ban, and a student of its project if it has one. */
  ghost predicate Describes(t: Tables, row: Submission) {
    var p := row.pipeline;
    && p.id in t.pipelines && t.pipelines[p.id] == p
    && (row.banned <==> p.id in t.bans)
    && (row.benchmark == None <==> p.id !in t.benchmarks) && (row.benchmark != None ==> row.benchmark == Some(t.benchmarks[p.id]))
    && (row.user == None ==> forall login :: login in t.users ==> t.users[login].project != Some(p.project))
    && (row.user != None ==> row.user.value in t.users.Values && row.user.value.project == Some(p.project))
  }

  /** The list holds exactly the joined rows that the filters ask for, latest first and then the greater id. */
  lemma ListedRows(list: seq<Submission>, t: Tables, filters: Filters, row: Submission)
    requires t.Valid() && IsResult(list, t, filters)
    ensures row in list <==> Describes(t, row) && Selects(filters, row)
    ensures forall i, j :: 0 <= i < j < |list| ==>
              || list[j].pipeline.startedAt < list[i].pipeline.startedAt
              || (list[j].pipeline.startedAt == list[i].pipeline.startedAt && list[j].pipeline.id <= list[i].pipeline.id)
  {
    SearchKeeps(filters, row);
    assert IsJoined(t, row) <==> Describes(t, row);
    forall i, j | 0 <= i < j < |list|
      ensures !Later(list[j], list[i])
    {
    }
  }

  lemma OneStudentNoTies(list: seq<Submission>, t: Tables, filters: Filters)
    requires t.Valid() && OneStudentEach(t) && IsResult(list, t, filters)
    ensures OnlyResult(list, t, filters)
  {
    JoinedOnce(t);
    ResultUnique(list, t, filters);
  }

  /** A choice shows: with one row a page the same row is on two pages of two requests. */
  lemma TiedPages(list: seq<Submission>, t: Tables, filters: Filters, i: nat, j: nat)
    requires IsResult(list, t, filters) && i < j < |list| && list[i].pipeline.id == list[j].pipeline.id
    ensures var other := Swapped(list, i, j);
            IsResult(other, t, filters) && PageOf(list, i + 1, 1) == PageOf(other, j + 1, 1) == [list[i]]
  {
    SwappedResult(list, t, filters, i, j);
  }

  // Pages

  function TotalPages(total: nat, pageSize: nat): (pages: nat)
    requires 0 < pageSize
    ensures 1 <= pages
  {
    var pages := (total + pageSize - 1) / pageSize;
    if pages == 0 then 1 else pages
  }

  function Clamp(x: int, low: int, high: int): int
    requires low <= high
  {
    if x < low then low else if high < x then high else x
  }

  function Min(a: nat, b: nat): nat {
    if a < b then a else b
  }

  /** Offset and limit. */
  function PageOf<T>(list: seq<T>, page: nat, pageSize: nat): seq<T>
    requires 1 <= page
  {
    var rest := list[Min(|list|, (page - 1) * pageSize)..];
    rest[..Min(|rest|, pageSize)]
  }

  /** The pages 1 to n, one after another. */
  function FirstPages<T>(list: seq<T>, n: nat, pageSize: nat): seq<T> {
    if n == 0 then [] else FirstPages(list, n - 1, pageSize) + PageOf(list, n, pageSize)
  }

  lemma {:induction false} FirstPagesAre<T>(list: seq<T>, n: nat, pageSize: nat)
    ensures FirstPages(list, n, pageSize) == list[..Min(|list|, n * pageSize)]
  {
    if n > 0 {
      FirstPagesAre(list, n - 1, pageSize);
      var start := (n - 1) * pageSize;
      assert n * pageSize == start + pageSize;
    }
  }

  lemma EnoughPages(total: nat, pageSize: nat)
    requires 0 < pageSize
    ensures total <= TotalPages(total, pageSize) * pageSize
    ensures 0 < total ==> (TotalPages(total, pageSize) - 1) * pageSize < total
  {
    var up := total + pageSize - 1;
    var pages := up / pageSize;
    assert up == pages * pageSize + up % pageSize;
    if pages == 0 {
      assert up < pageSize;
    } else {
      assert (pages - 1) * pageSize == pages * pageSize - pageSize;
    }
  }

  /** Reading page after page gives the whole list, everything once and in order. */
  lemma AllPages<T>(list: seq<T>, pageSize: nat)
    requires 0 < pageSize
    ensures FirstPages(list, TotalPages(|list|, pageSize), pageSize) == list
  {
    EnoughPages(|list|, pageSize);
    FirstPagesAre(list, TotalPages(|list|, pageSize), pageSize);
  }

  /** No page in range is empty unless the list is, and only the last one can be short. */
  lemma PagesFull<T>(list: seq<T>, page: nat, pageSize: nat)
    requires 0 < pageSize && 1 <= page <= TotalPages(|list|, pageSize)
    ensures list != [] ==> PageOf(list, page, pageSize) != []
    ensures page < TotalPages(|list|, pageSize) ==> |PageOf(list, page, pageSize)| == pageSize
  {
    EnoughPages(|list|, pageSize);
    var last := TotalPages(|list|, pageSize) - 1;
    if page - 1 < last {
      ProductRises(page, last, pageSize);
      assert page * pageSize == (page - 1) * pageSize + pageSize;
      EmptyHasOnePage(pageSize);
    }
  }

  lemma EmptyHasOnePage(pageSize: nat)
    requires 0 < pageSize
    ensures TotalPages(0, pageSize) == 1
  {
  }

  lemma ProductRises(a: nat, b: nat, k: nat)
    requires a <= b
    ensures a * k <= b * k
  {
  }

  datatype Page = Page(items: seq<Submission>, page: int, pageSize: int, total: int, totalPages: int)

  method NormalizePagination(page: int, pageSize: int) returns (p: int, size: int)
    ensures 1 <= p && 1 <= size <= 100
    ensures 1 <= page ==> p == page
    ensures 1 <= pageSize <= 100 ==> size == pageSize
    ensures page < 1 ==> p == 1
    ensures pageSize < 1 ==> size == 50
    ensures 100 < pageSize ==> size == 100
  {
    p, size := page, pageSize;
    if p < 1 {
      p := 1;
    }
    if size < 1 {
      size := DEFAULT_PAGE_SIZE;
    }
    if size > MAX_PAGE_SIZE {
      size := MAX_PAGE_SIZE;
    }
  }

  /** The joined rows, in any order. */
  method Join(db: DataBase) returns (rows: seq<Submission>)
    requires db.Valid()
    ensures Distinct(rows, Itself) && forall row :: row in rows <==> IsJoined(db.View(), row)
  {
    rows := [];
    ghost var t := db.View();
    var rest := db.pipelines.Keys;
    while rest != {}
      invariant rest <= db.pipelines.Keys && Distinct(rows, Itself)
      invariant forall row :: row in rows <==> IsJoined(t, row) && row.pipeline.id !in rest
      decreases rest
    {
      var id: int := Pick(rest);
      var more := JoinOne(db, id);
      JoinedApart(rows, more);
      rest := rest - {id};
      rows := rows + more;
    }
  }

  lemma JoinedApart(rows: seq<Submission>, more: seq<Submission>)
    requires Distinct(rows, Itself) && Distinct(more, Itself) && forall row :: row in rows ==> row !in more
    ensures Distinct(rows + more, Itself)
  {
    forall i, j | 0 <= i < j < |rows + more|
      ensures Itself((rows + more)[i]) != Itself((rows + more)[j])
    {
      if i < |rows| <= j {
        assert rows[i] in rows && more[j - |rows|] in more;
      } else if j < |rows| {
        assert Itself(rows[i]) != Itself(rows[j]);
      } else {
        assert Itself(more[i - |rows|]) != Itself(more[j - |rows|]);
      }
    }
  }

  /** One pipeline with each of its students. */
  method JoinOne(db: DataBase, id: int) returns (rows: seq<Submission>)
    requires db.Valid() && id in db.pipelines
    ensures Distinct(rows, Itself) && forall row :: row in rows <==> IsJoined(db.View(), row) && row.pipeline.id == id
  {
    ghost var t := db.View();
    var pipeline := db.pipelines[id];
    rows := [];
    var rest := db.users.Keys;
    while rest != {}
      invariant rest <= db.users.Keys && Distinct(rows, Itself)
      invariant forall row :: row in rows <==>
                  IsJoined(t, row) && row.pipeline.id == id && row.user.Some? && row.user.value.gitlabLogin !in rest
      decreases rest
    {
      var login := Pick(rest);
      rest := rest - {login};
      var user := db.users[login];
      if Owns(user, pipeline) {
        var row := JoinedRow(db.View(), id, Some(user));
        assert user in db.users.Values && IsJoined(t, row) && row !in rows;
        rows := rows + [row];
      }
    }
    forall login | login in t.users && Owns(t.users[login], pipeline)
      ensures rows != []
    {
      assert t.users[login] in t.users.Values && IsJoined(t, JoinedRow(t, id, Some(t.users[login])));
    }
    if rows == [] {
      rows := [JoinedRow(db.View(), id, None)];
    } else {
      assert rows[0] in rows;
      ghost var login := KeyOf(t.users, rows[0].user.value);
      assert Owns(t.users[login], pipeline);
    }
  }

  /** The database's answer to the query, in order. */
  method Query(db: DataBase, filters: Filters) returns (list: seq<Submission>)
    requires db.Valid()
    ensures IsResult(list, db.View(), filters)
  {
    var rows := Join(db);
    list := [];
    LaterOrder();
    for i := 0 to |rows|
      invariant Sorted(list, Later) && Distinct(list, Itself)
      invariant forall row :: row in list <==> row in rows[..i] && filters.Keeps(row)
    {
      assert rows[..i + 1] == rows[..i] + [rows[i]];
      assert forall k :: 0 <= k < i ==> Itself(rows[k]) != Itself(rows[i]);
      if filters.Keeps(rows[i]) {
        list := InsertNew(list, rows[i], Later, Itself);
      }
    }
    assert rows[..|rows|] == rows;
  }

  method CountPages(total: nat, pageSize: nat) returns (pages: nat)
    requires 0 < pageSize
    ensures pages == TotalPages(total, pageSize)
  {
    pages := (total + pageSize - 1) / pageSize;
    if pages == 0 {
      pages := 1;
    }
  }

  /** The requested page of an ordered result, moved into range. */
  method ListAdminSubmissions(db: DataBase, filters: Filters) returns (result: Page, ghost list: seq<Submission>)
    requires db.Valid()
    ensures IsResult(list, db.View(), filters) && result.total == |list|
    ensures 1 <= result.pageSize <= MAX_PAGE_SIZE && result.totalPages == TotalPages(|list|, result.pageSize)
    ensures 1 <= filters.pageSize <= MAX_PAGE_SIZE ==> result.pageSize == filters.pageSize
    ensures result.page == Clamp(filters.page, 1, result.totalPages)
    ensures result.items == PageOf(list, result.page, result.pageSize)
    ensures list != [] ==> result.items != []
  {
    var page, pageSize := NormalizePagination(filters.page, filters.pageSize);
    var found := Query(db, filters);
    list := found;
    var total := |found|;
    var totalPages := CountPages(total, pageSize);
    if page > totalPages {
      page := totalPages;
    }
    PagesFull(found, page, pageSize);
    result := Page(PageOf(found, page, pageSize), page, pageSize, total, totalPages);
  }
}
