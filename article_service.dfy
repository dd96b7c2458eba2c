/**
 * The article service over an in-memory article table.
 *
 * The ORM's `article` table is a map from id to `Article`. Every row carries a
 * creation stamp taken from a strictly increasing clock, so "order by
 * createdAt descending" names exactly one arrangement of any set of rows.
 * Each state-changing operation is a pure step function (result, new table)
 * implemented by a method of `ArticleTable` that updates the map in place.
 */
module ArticleService {
  import opened Common
  import opened Strings

  /** `config.pagination.maxLimit`. */
  const MaxLimit: nat := 100
  /** The defaults written in the destructuring of `getArticles`. */
  const DefaultPage: nat := 1
  const DefaultLimit: nat := 10

  datatype Status = Draft | Published

  datatype Article = Article(
    id: Id,
    title: string,
    content: string,
    imageUrl: Option<string>,
    status: Status,
    authorId: Id,
    createdAt: nat)

  const NotFound := AppError(404, "Article not found")
  const EditDenied := AppError(403, "Access Denied: You can only edit articles that you have authored.")
  const DeleteDenied := AppError(403, "Only admins can delete articles")
  const DeletedMessage := "Article deleted successfully"

  /** Every row is stored under its own id, and no two rows share a creation stamp. */
  ghost predicate WellFormed(rows: map<Id, Article>) {
    && (forall id | id in rows :: rows[id].id == id)
    && (forall i, j | i in rows && j in rows && i != j :: rows[i].createdAt != rows[j].createdAt)
  }

  /** All stamps in the table were issued before `clock`. */
  ghost predicate StampedBefore(rows: map<Id, Article>, clock: nat) {
    forall id | id in rows :: rows[id].createdAt < clock
  }

  lemma ValueIsRow(rows: map<Id, Article>, a: Article)
    requires WellFormed(rows) && a in rows.Values
    ensures a.id in rows && rows[a.id] == a
  {
    var id :| id in rows && rows[id] == a;
  }

  // ---------------------------------------------------------------- pagination

  /** `Math.max(1, parseInt(page))`, with `page` defaulting to 1. */
  function PageNumber(page: Option<nat>): (p: nat)
    ensures p >= 1
  {
    var requested := if page.Some? then page.value else DefaultPage;
    if requested < 1 then 1 else requested
  }

  /** `Math.min(parseInt(limit), maxLimit)`, with `limit` defaulting to 10; there is no lower clamp. */
  function LimitNumber(limit: Option<nat>): (l: nat)
    ensures l <= MaxLimit
  {
    var requested := if limit.Some? then limit.value else DefaultLimit;
    if requested < MaxLimit then requested else MaxLimit
  }

  /** A requested page of at least 1 and a limit of at most `MaxLimit` pass through unchanged. */
  lemma ClampsKeepSaneRequests(page: nat, limit: nat)
    ensures page >= 1 ==> PageNumber(Some(page)) == page
    ensures PageNumber(Some(0)) == 1 && PageNumber(None) == 1
    ensures limit <= MaxLimit ==> LimitNumber(Some(limit)) == limit
    ensures limit > MaxLimit ==> LimitNumber(Some(limit)) == MaxLimit
    ensures LimitNumber(None) == 10
  {
  }

  /** `Math.ceil(total / limit)` for a positive limit. */
  function CeilDiv(total: nat, limit: nat): (q: nat)
    requires limit > 0
    ensures total <= q * limit
    ensures q > 0 ==> (q - 1) * limit < total
    decreases total
  {
    if total == 0 then 0
    else if total <= limit then 1
    else
      var rest := CeilDiv(total - limit, limit);
      assert (rest + 1) * limit == rest * limit + limit;
      1 + rest
  }

  /**
   * `totalPages` as the JSON response carries it. With a limit of 0 the quotient
   * is `Infinity` or `NaN`, which `JSON.stringify` writes as `null`: `None` here.
   */
  function TotalPages(total: nat, limit: nat): (r: Option<nat>)
    ensures r.None? <==> limit == 0
    ensures r.Some? ==> total <= r.value * limit && (r.value > 0 ==> (r.value - 1) * limit < total)
  {
    if limit == 0 then None else Some(CeilDiv(total, limit))
  }

  /** `skip = (pageNum - 1) * limitNum`. */
  function Skip(page: nat, limit: nat): nat
    requires page >= 1
  {
    (page - 1) * limit
  }

  function Min(a: nat, b: nat): nat {
    if a < b then a else b
  }

  /** What `skip` and `take` select from an ordered result. */
  function Window<T>(s: seq<T>, skip: nat, take: nat): (w: seq<T>)
    ensures |w| == if skip >= |s| then 0 else Min(take, |s| - skip)
    ensures forall i | 0 <= i < |w| :: skip + i < |s| && w[i] == s[skip + i]
  {
    if skip >= |s| then [] else s[skip..Min(skip + take, |s|)]
  }

  // ----------------------------------------------------------------- filtering

  /** The query `getArticles` receives, with `page` and `limit` already parsed. */
  datatype ListQuery = ListQuery(
    page: Option<nat>,
    limit: Option<nat>,
    status: Option<Status>,
    search: Option<string>)

  /** The `where` object: an exact status, and a term the title OR the content must contain. */
  datatype Where = Where(status: Option<Status>, search: Option<string>)

  predicate Matches(w: Where, a: Article) {
    && (w.status.Some? ==> a.status == w.status.value)
    && (w.search.Some? ==> Contains(a.title, w.search.value) || Contains(a.content, w.search.value))
  }

  /** The `where` that `getArticles` builds: each clause is added only for a truthy parameter. */
  function WhereOf(q: ListQuery): Where {
    Where(q.status, if q.search.Some? && q.search.value != "" then q.search else None)
  }

  /**
   * The filter means what the query says: a given status is matched exactly and
   * a given term must occur in the title or the content. An empty search term
   * is falsy and adds no clause, which is the same as requiring it to occur.
   */
  lemma FilterMeaning(q: ListQuery, a: Article)
    ensures Matches(WhereOf(q), a) <==>
              && (q.status.Some? ==> a.status == q.status.value)
              && (q.search.Some? ==> Contains(a.title, q.search.value) || Contains(a.content, q.search.value))
  {
    ContainsEmpty(a.title);
  }

  /** Without a status and a search term every article matches. */
  lemma NoFilterMatchesAll(q: ListQuery, a: Article)
    requires q.status.None? && (q.search.None? || q.search.value == "")
    ensures Matches(WhereOf(q), a)
  {
  }

  ghost function Matching(rows: map<Id, Article>, w: Where): set<Article> {
    set a | a in rows.Values && Matches(w, a)
  }

  // ------------------------------------------------------------------ ordering

  /** Strictly newest first: `orderBy: { createdAt: 'desc' }` with distinct stamps. */
  ghost predicate NewestFirst(s: seq<Article>) {
    forall i, j | 0 <= i < j < |s| :: s[i].createdAt > s[j].createdAt
  }

  ghost predicate DistinctStamps(s: set<Article>) {
    forall a, b | a in s && b in s && a != b :: a.createdAt != b.createdAt
  }

  ghost predicate IsNewest(a: Article, s: set<Article>) {
    a in s && forall b | b in s :: b.createdAt <= a.createdAt
  }

  lemma {:induction false} NewestExists(s: set<Article>)
    requires s != {}
    ensures exists a :: IsNewest(a, s)
    decreases |s|
  {
    var x :| x in s;
    if s - {x} == {} {
      assert s == {x};
      assert IsNewest(x, s);
    } else {
      NewestExists(s - {x});
      var y :| IsNewest(y, s - {x});
      if x.createdAt <= y.createdAt {
        assert IsNewest(y, s);
      } else {
        assert IsNewest(x, s);
      }
    }
  }

  /** The rows of `s` arranged newest first; the arrangement is unique (NewestFirstUnique). */
  ghost function SortNewestFirst(s: set<Article>): (r: seq<Article>)
    requires DistinctStamps(s)
    ensures NewestFirst(r)
    ensures forall a :: a in r <==> a in s
    ensures |r| == |s|
    decreases |s|
  {
    if s == {} then []
    else
      NewestExists(s);
      var a :| IsNewest(a, s);
      var rest := SortNewestFirst(s - {a});
      PrependNewest(a, s, rest);
      [a] + rest
  }

  lemma PrependNewest(a: Article, s: set<Article>, rest: seq<Article>)
    requires DistinctStamps(s) && IsNewest(a, s)
    requires NewestFirst(rest) && |rest| == |s - {a}|
    requires forall b :: b in rest <==> b in s - {a}
    ensures NewestFirst([a] + rest)
    ensures forall b :: b in [a] + rest <==> b in s
    ensures |[a] + rest| == |s|
  {
    var r := [a] + rest;
    forall i, j | 0 <= i < j < |r| ensures r[i].createdAt > r[j].createdAt {
      if i == 0 {
        assert r[j] == rest[j - 1] && rest[j - 1] in rest;
        assert r[j] in s && r[j] != a;
      } else {
        assert r[i] == rest[i - 1] && r[j] == rest[j - 1];
      }
    }
  }

  /** Two newest-first sequences with the same elements are equal. */
  lemma {:induction false} NewestFirstUnique(s: seq<Article>, t: seq<Article>)
    requires NewestFirst(s) && NewestFirst(t)
    requires forall a :: a in s <==> a in t
    ensures s == t
    decreases |s|
  {
    if s == [] {
      assert forall k | 0 <= k < |t| :: t[k] in t;
    } else {
      assert t != [] by { assert s[0] in t; }
      SameHead(s, t);
      SameTail(s, t);
      NewestFirstUnique(s[1..], t[1..]);
      assert s == [s[0]] + s[1..] && t == [t[0]] + t[1..];
    }
  }

  lemma SameHead(s: seq<Article>, t: seq<Article>)
    requires NewestFirst(s) && NewestFirst(t) && s != [] && t != []
    requires forall a :: a in s <==> a in t
    ensures s[0] == t[0]
  {
    assert s[0] in t && t[0] in s;
    var k :| 0 <= k < |t| && t[k] == s[0];
    var m :| 0 <= m < |s| && s[m] == t[0];
    assert k > 0 ==> t[0].createdAt > s[0].createdAt;
    assert m > 0 ==> s[0].createdAt > t[0].createdAt;
  }

  lemma SameTail(s: seq<Article>, t: seq<Article>)
    requires NewestFirst(s) && NewestFirst(t) && s != [] && t != [] && s[0] == t[0]
    requires forall a :: a in s <==> a in t
    ensures NewestFirst(s[1..]) && NewestFirst(t[1..])
    ensures forall a :: a in s[1..] <==> a in t[1..]
  {
    forall a | a in s[1..] ensures a in t[1..] {
      TailElement(s, t, a);
    }
    forall a | a in t[1..] ensures a in s[1..] {
      TailElement(t, s, a);
    }
    forall i, j | 0 <= i < j < |s[1..]| ensures s[1..][i].createdAt > s[1..][j].createdAt {
      assert s[1..][i] == s[i + 1] && s[1..][j] == s[j + 1];
    }
    forall i, j | 0 <= i < j < |t[1..]| ensures t[1..][i].createdAt > t[1..][j].createdAt {
      assert t[1..][i] == t[i + 1] && t[1..][j] == t[j + 1];
    }
  }

  lemma TailElement(s: seq<Article>, t: seq<Article>, a: Article)
    requires NewestFirst(s) && s != [] && t != [] && s[0] == t[0]
    requires forall b :: b in s <==> b in t
    requires a in s[1..]
    ensures a in t[1..]
  {
    var i :| 0 <= i < |s[1..]| && s[1..][i] == a;
    assert s[i + 1] == a && s[0].createdAt > a.createdAt;
    assert a in s;
    var k :| 0 <= k < |t| && t[k] == a;
    assert k != 0;
    assert t[1..][k - 1] == a;
  }

  /** Inserting one more row into a newest-first sequence at its place. */
  function InsertByStamp(s: seq<Article>, a: Article): (r: seq<Article>)
    requires NewestFirst(s)
    requires forall b | b in s :: b.createdAt != a.createdAt
    ensures NewestFirst(r)
    ensures forall b :: b in r <==> b in s || b == a
    ensures |r| == |s| + 1
    decreases |s|
  {
    if s == [] || a.createdAt > s[0].createdAt then
      [a] + s
    else
      var rest := InsertByStamp(s[1..], a);
      assert forall j | 0 <= j < |rest| :: s[0].createdAt > rest[j].createdAt by {
        forall j | 0 <= j < |rest| ensures s[0].createdAt > rest[j].createdAt {
          assert rest[j] in rest;
          if rest[j] != a {
            assert rest[j] in s[1..];
            var i :| 0 <= i < |s[1..]| && s[1..][i] == rest[j];
            assert rest[j] == s[i + 1];
          }
        }
      }
      [s[0]] + rest
  }

  lemma MatchingHasDistinctStamps(rows: map<Id, Article>, w: Where)
    requires WellFormed(rows)
    ensures DistinctStamps(Matching(rows, w))
  {
    forall a, b | a in Matching(rows, w) && b in Matching(rows, w) && a != b
      ensures a.createdAt != b.createdAt
    {
      ValueIsRow(rows, a);
      ValueIsRow(rows, b);
    }
  }

  /** The matching rows as `findMany` orders them before `skip` and `take`. */
  ghost function OrderedMatching(rows: map<Id, Article>, w: Where): (r: seq<Article>)
    requires WellFormed(rows)
    ensures NewestFirst(r) && |r| == |Matching(rows, w)|
    ensures forall a :: a in r <==> a in rows.Values && Matches(w, a)
  {
    MatchingHasDistinctStamps(rows, w);
    SortNewestFirst(Matching(rows, w))
  }

  // ------------------------------------------------------------------- listing

  datatype Pagination = Pagination(page: nat, limit: nat, total: nat, totalPages: Option<nat>)
  datatype ArticleList = ArticleList(articles: seq<Article>, pagination: Pagination)

  /** What `getArticles` returns for a table and a query. */
  ghost function ListSpec(rows: map<Id, Article>, q: ListQuery): ArticleList
    requires WellFormed(rows)
  {
    var page := PageNumber(q.page);
    var limit := LimitNumber(q.limit);
    var w := WhereOf(q);
    var total := |Matching(rows, w)|;
    ArticleList(
      Window(OrderedMatching(rows, w), Skip(page, limit), limit),
      Pagination(page, limit, total, TotalPages(total, limit)))
  }

  /**
   * The promises of `getArticles`: the page number is at least 1, the limit at
   * most `MaxLimit`, the page holds at most `limit` rows, which are the rows of
   * the newest-first matching sequence starting at `skip = (page-1)*limit`, and
   * `total` counts all matching rows whatever the page.
   */
  lemma ListProperties(rows: map<Id, Article>, q: ListQuery)
    requires WellFormed(rows)
    ensures var r := ListSpec(rows, q);
      && r.pagination.page >= 1
      && r.pagination.limit <= MaxLimit
      && |r.articles| <= r.pagination.limit
      && r.pagination.total == |Matching(rows, WhereOf(q))|
      && NewestFirst(r.articles)
      && (forall i | 0 <= i < |r.articles| ::
            && r.articles[i] in rows.Values
            && Matches(WhereOf(q), r.articles[i])
            && r.articles[i] == OrderedMatching(rows, WhereOf(q))[Skip(r.pagination.page, r.pagination.limit) + i])
  {
    var w := WhereOf(q);
    var o := OrderedMatching(rows, w);
    var page, limit := PageNumber(q.page), LimitNumber(q.limit);
    var skip := Skip(page, limit);
    var r := ListSpec(rows, q);
    assert r.articles == Window(o, skip, limit);
    assert r.pagination.page == page && r.pagination.limit == limit;
    WindowOfNewestFirst(o, skip, limit);
    forall i | 0 <= i < |r.articles|
      ensures r.articles[i] in rows.Values && Matches(w, r.articles[i]) && r.articles[i] == o[skip + i]
    {
      assert r.articles[i] in o;
    }
  }

  lemma WindowOfNewestFirst(o: seq<Article>, skip: nat, take: nat)
    requires NewestFirst(o)
    ensures NewestFirst(Window(o, skip, take))
    ensures forall i | 0 <= i < |Window(o, skip, take)| :: Window(o, skip, take)[i] in o
  {
    var w := Window(o, skip, take);
    forall i, j | 0 <= i < j < |w| ensures w[i].createdAt > w[j].createdAt {
      assert w[i] == o[skip + i] && w[j] == o[skip + j];
    }
  }

  /**
   * With a positive limit, page `p` is non-empty exactly when `p` is within
   * `totalPages`; for example 25 rows with limit 10 give 3 pages, the last of 5 rows.
   */
  lemma PagesCoverMatches(rows: map<Id, Article>, q: ListQuery)
    requires WellFormed(rows)
    requires LimitNumber(q.limit) > 0
    ensures var r := ListSpec(rows, q);
      r.pagination.totalPages.Some? &&
      (|r.articles| > 0 <==> r.pagination.page <= r.pagination.totalPages.value)
  {
    var p, l := PageNumber(q.page), LimitNumber(q.limit);
    var t := |Matching(rows, WhereOf(q))|;
    PageNonEmptyIff(p, l, t, CeilDiv(t, l));
  }

  /** Page `p` starts before the end of `t` rows exactly when `p` is at most `ceil(t / l)`. */
  lemma PageNonEmptyIff(p: nat, l: nat, t: nat, n: nat)
    requires p >= 1 && l > 0
    requires t <= n * l && (n > 0 ==> (n - 1) * l < t)
    ensures (p - 1) * l < t <==> p <= n
  {
    if p <= n {
      MulMono(p - 1, n - 1, l);
    } else {
      MulMono(n, p - 1, l);
    }
  }

  lemma MulMono(a: nat, b: nat, l: nat)
    requires a <= b
    ensures a * l <= b * l
  {
    assert b * l == a * l + (b - a) * l;
  }

  lemma TwentyFiveRowsInPagesOfTen()
    ensures TotalPages(25, 10) == Some(3)
    ensures forall s: seq<Article> | |s| == 25 ::
      |Window(s, 0, 10)| == 10 && |Window(s, 20, 10)| == 5 && |Window(s, 30, 10)| == 0
  {
  }

  // -------------------------------------------------------- single-row access

  datatype NewArticle = NewArticle(
    title: string,
    content: string,
    imageUrl: Option<string>,
    status: Option<Status>,
    authorId: Id)

  /** The row `createArticle` inserts: `status` defaults to DRAFT. */
  function Created(input: NewArticle, id: Id, stamp: nat): (a: Article)
    ensures a.id == id && a.authorId == input.authorId && a.createdAt == stamp
    ensures a.title == input.title && a.content == input.content && a.imageUrl == input.imageUrl
    ensures a.status == if input.status.None? then Draft else input.status.value
  {
    Article(id, input.title, input.content, input.imageUrl,
            if input.status.Some? then input.status.value else Draft,
            input.authorId, stamp)
  }

  /** The fields the update payload may carry; a missing field is left as it is. */
  datatype ArticleUpdate = ArticleUpdate(title: Option<string>, content: Option<string>, status: Option<Status>)

  const NoChange := ArticleUpdate(None, None, None)

  function Pick<T>(given: Option<T>, current: T): T {
    if given.Some? then given.value else current
  }

  /** A partial update (`prisma.article.update` with `undefined` fields ignored). */
  function ApplyUpdate(a: Article, u: ArticleUpdate): (b: Article)
    ensures b.id == a.id && b.authorId == a.authorId && b.createdAt == a.createdAt
    ensures b.imageUrl == a.imageUrl
    ensures u.title.Some? ==> b.title == u.title.value
    ensures u.title.None? ==> b.title == a.title
    ensures u.content.Some? ==> b.content == u.content.value
    ensures u.content.None? ==> b.content == a.content
    ensures u.status.Some? ==> b.status == u.status.value
    ensures u.status.None? ==> b.status == a.status
  {
    a.(title := Pick(u.title, a.title), content := Pick(u.content, a.content), status := Pick(u.status, a.status))
  }

  /** Two updates in a row equal one update where the later payload's fields win. */
  function Then(u: ArticleUpdate, v: ArticleUpdate): ArticleUpdate {
    ArticleUpdate(
      if v.title.Some? then v.title else u.title,
      if v.content.Some? then v.content else u.content,
      if v.status.Some? then v.status else u.status)
  }

  lemma UpdateAlgebra(a: Article, u: ArticleUpdate, v: ArticleUpdate)
    ensures ApplyUpdate(a, NoChange) == a
    ensures ApplyUpdate(ApplyUpdate(a, u), u) == ApplyUpdate(a, u)
    ensures ApplyUpdate(ApplyUpdate(a, u), v) == ApplyUpdate(a, Then(u, v))
  {
  }

  /** The ownership-or-admin rule. */
  predicate CanEdit(a: Article, userId: Id, role: Role) {
    a.authorId == userId || role == Admin
  }

  /** `getArticleById`. */
  function FindById(rows: map<Id, Article>, id: Id): (r: Result<Article>)
    ensures r.Ok? <==> id in rows
    ensures r.Ok? ==> r.value == rows[id]
    ensures r.Err? ==> r.error == NotFound
  {
    if id in rows then Ok(rows[id]) else Err(NotFound)
  }

  /** `createArticle`: one new row under a fresh id; every other row is untouched. */
  function CreateStep(rows: map<Id, Article>, clock: nat, input: NewArticle, id: Id)
    : (out: (Article, map<Id, Article>))
    requires id !in rows
    ensures out.1.Keys == rows.Keys + {id} && out.1[id] == out.0
    ensures forall k | k in rows :: out.1[k] == rows[k]
    ensures out.0 == Created(input, id, clock)
  {
    var a := Created(input, id, clock);
    (a, rows[id := a])
  }

  /**
   * `updateArticle`: a missing id fails 404 and an actor who is neither the
   * author nor an admin fails 403, both leaving the table as it was; otherwise
   * only the row under `id` changes, to the partial update of the old row.
   */
  function UpdateStep(rows: map<Id, Article>, id: Id, userId: Id, role: Role, u: ArticleUpdate)
    : (out: (Result<Article>, map<Id, Article>))
    ensures id !in rows ==> out == (Err(NotFound), rows)
    ensures id in rows && !CanEdit(rows[id], userId, role) ==> out == (Err(EditDenied), rows)
    ensures out.0.Ok? <==> id in rows && CanEdit(rows[id], userId, role)
    ensures out.0.Ok? ==> out.0.value == ApplyUpdate(rows[id], u) && out.1 == rows[id := out.0.value]
    ensures out.1.Keys == rows.Keys && forall k | k in rows && k != id :: out.1[k] == rows[k]
  {
    if id !in rows then (Err(NotFound), rows)
    else if !CanEdit(rows[id], userId, role) then (Err(EditDenied), rows)
    else
      var b := ApplyUpdate(rows[id], u);
      (Ok(b), rows[id := b])
  }

  /**
   * `deleteArticle`: the role check comes first, so a non-admin is refused
   * whether or not the id exists; an admin deleting an existing id removes
   * exactly that row.
   */
  function DeleteStep(rows: map<Id, Article>, id: Id, role: Role)
    : (out: (Result<string>, map<Id, Article>))
    ensures role != Admin ==> out == (Err(DeleteDenied), rows)
    ensures role == Admin && id !in rows ==> out == (Err(NotFound), rows)
    ensures out.0.Ok? <==> role == Admin && id in rows
    ensures out.0.Ok? ==> out.0.value == DeletedMessage
    ensures out.0.Err? ==> out.1 == rows
    ensures out.1.Keys == if out.0.Ok? then rows.Keys - {id} else rows.Keys
    ensures forall k | k in out.1 :: out.1[k] == rows[k]
  {
    if role != Admin then (Err(DeleteDenied), rows)
    else if id !in rows then (Err(NotFound), rows)
    else (Ok(DeletedMessage), rows - {id})
  }

  /** Every step keeps the table well formed and stamped before the clock. */
  lemma StepsPreserveInvariant(rows: map<Id, Article>, clock: nat, input: NewArticle, id: Id,
                               userId: Id, role: Role, u: ArticleUpdate)
    requires WellFormed(rows) && StampedBefore(rows, clock)
    ensures id !in rows ==> (WellFormed(CreateStep(rows, clock, input, id).1)
                             && StampedBefore(CreateStep(rows, clock, input, id).1, clock + 1))
    ensures WellFormed(UpdateStep(rows, id, userId, role, u).1)
    ensures StampedBefore(UpdateStep(rows, id, userId, role, u).1, clock)
    ensures WellFormed(DeleteStep(rows, id, role).1)
    ensures StampedBefore(DeleteStep(rows, id, role).1, clock)
  {
  }

  /** Reading back: a created row is found under its id, a deleted one is not. */
  lemma ReadBack(rows: map<Id, Article>, clock: nat, input: NewArticle, id: Id, other: Id)
    requires id !in rows && other != id
    ensures FindById(CreateStep(rows, clock, input, id).1, id) == Ok(Created(input, id, clock))
    ensures FindById(CreateStep(rows, clock, input, id).1, other) == FindById(rows, other)
    ensures DeleteStep(CreateStep(rows, clock, input, id).1, id, Admin) == (Ok(DeletedMessage), rows)
  {
    var after := CreateStep(rows, clock, input, id).1;
    assert after - {id} == rows;
  }

  // ------------------------------------------------------------------ the table

  class ArticleTable {
    var articles: map<Id, Article>
    var clock: nat

    ghost predicate Valid()
      reads this
    {
      WellFormed(articles) && StampedBefore(articles, clock)
    }

    constructor ()
      ensures Valid() && articles == map[] && clock == 0
    {
      articles := map[];
      clock := 0;
    }

    /** `prisma.article.findMany({ where, skip, take, orderBy: { createdAt: 'desc' } })`. */
    method FindMany(w: Where, skip: nat, take: nat) returns (page: seq<Article>)
      requires Valid()
      ensures page == Window(OrderedMatching(articles, w), skip, take)
    {
      MatchingHasDistinctStamps(articles, w);
      var pending := articles.Values;
      var ordered: seq<Article> := [];
      while pending != {}
        invariant pending <= articles.Values
        invariant NewestFirst(ordered)
        invariant forall a :: a in ordered <==> a in Matching(articles, w) && a !in pending
        decreases |pending|
      {
        var a :| a in pending;
        if Matches(w, a) {
          ordered := InsertByStamp(ordered, a);
        }
        pending := pending - {a};
      }
      NewestFirstUnique(ordered, OrderedMatching(articles, w));
      page := Window(ordered, skip, take);
    }

    /** `prisma.article.count({ where })`. */
    method Count(w: Where) returns (n: nat)
      requires Valid()
      ensures n == |Matching(articles, w)|
    {
      var pending := articles.Values;
      n := 0;
      while pending != {}
        invariant pending <= articles.Values
        invariant n == |Matching(articles, w) - pending|
        decreases |pending|
      {
        var a :| a in pending;
        if Matches(w, a) {
          assert Matching(articles, w) - (pending - {a}) == (Matching(articles, w) - pending) + {a};
          n := n + 1;
        } else {
          assert Matching(articles, w) - (pending - {a}) == Matching(articles, w) - pending;
        }
        pending := pending - {a};
      }
    }

    /** `getArticles`: builds `where` clause by clause, then fetches the page and the count. */
    method GetArticles(q: ListQuery) returns (r: ArticleList)
      requires Valid()
      ensures r == ListSpec(articles, q)
    {
      var pageNum := PageNumber(q.page);
      var limitNum := LimitNumber(q.limit);
      var skip := Skip(pageNum, limitNum);

      var w := Where(None, None);
      if q.status.Some? {
        w := w.(status := q.status);
      }
      if q.search.Some? && q.search.value != "" {
        w := w.(search := q.search);
      }

      var found := FindMany(w, skip, limitNum);
      var total := Count(w);
      r := ArticleList(found, Pagination(pageNum, limitNum, total, TotalPages(total, limitNum)));
    }

    /** `getArticleById`. */
    method GetArticleById(id: Id) returns (r: Result<Article>)
      requires Valid()
      ensures r == FindById(articles, id)
      ensures r.Ok? ==> r.value.id == id
    {
      if id in articles {
        r := Ok(articles[id]);
      } else {
        r := Err(NotFound);
      }
    }

    /** `createArticle`; `id` is the fresh UUID the database generates. */
    method CreateArticle(input: NewArticle, id: Id) returns (a: Article)
      requires Valid() && id !in articles
      modifies this
      ensures Valid()
      ensures (a, articles) == CreateStep(old(articles), old(clock), input, id)
      ensures clock == old(clock) + 1
    {
      a := Created(input, id, clock);
      articles := articles[id := a];
      clock := clock + 1;
    }

    /** `updateArticle`. */
    method UpdateArticle(id: Id, userId: Id, role: Role, u: ArticleUpdate) returns (r: Result<Article>)
      requires Valid()
      modifies this
      ensures Valid() && clock == old(clock)
      ensures (r, articles) == UpdateStep(old(articles), id, userId, role, u)
    {
      if id !in articles {
        r := Err(NotFound);
        return;
      }
      var article := articles[id];
      if article.authorId != userId && role != Admin {
        r := Err(EditDenied);
        return;
      }
      var updated := ApplyUpdate(article, u);
      articles := articles[id := updated];
      r := Ok(updated);
    }

    /** `deleteArticle`. */
    method DeleteArticle(id: Id, role: Role) returns (r: Result<string>)
      requires Valid()
      modifies this
      ensures Valid() && clock == old(clock)
      ensures (r, articles) == DeleteStep(old(articles), id, role)
    {
      if role != Admin {
        r := Err(DeleteDenied);
        return;
      }
      if id !in articles {
        r := Err(NotFound);
        return;
      }
      articles := articles - {id};
      r := Ok(DeletedMessage);
    }
  }
}
