/**
 * The article request schemas as predicates over a request. Keys a schema
 * does not name are never a reason to reject: the body schemas pass them
 * through and the others strip them.
 */
module ArticleValidator {
  import opened Common
  import opened Schema
  import opened Strings
  import ArticleService

  const Statuses: set<string> := {"DRAFT", "PUBLISHED"}
  const TitleMin: nat := 3
  const TitleMax: nat := 200
  const ContentMin: nat := 10

  /** `createArticleSchema`. */
  predicate CreateArticleSchema(req: Request) {
    && RequiredString(req.body, "title", TitleMin, Some(TitleMax))
    && RequiredString(req.body, "content", ContentMin, None)
    && OptionalOneOf(req.body, "status", Statuses)
  }

  /** `updateArticleSchema`: the create constraints, each field optional, and a UUID id. */
  predicate UpdateArticleSchema(req: Request) {
    && HasUuidId(req)
    && OptionalString(req.body, "title", TitleMin, Some(TitleMax))
    && OptionalString(req.body, "content", ContentMin, None)
    && OptionalOneOf(req.body, "status", Statuses)
  }

  /** `getArticleSchema`. */
  predicate GetArticleSchema(req: Request) {
    HasUuidId(req)
  }

  /** `deleteArticleSchema`. */
  predicate DeleteArticleSchema(req: Request) {
    HasUuidId(req)
  }

  /** `getArticlesSchema`. */
  predicate GetArticlesSchema(req: Request) {
    && OptionalDigits(req.query, "page")
    && OptionalDigits(req.query, "limit")
    && OptionalOneOf(req.query, "status", Statuses)
    && OptionalString(req.query, "search", 0, None)
  }

  /** What an accepted create body guarantees about its fields. */
  lemma CreateBounds(req: Request)
    requires CreateArticleSchema(req)
    ensures 3 <= |req.body["title"].s| <= 200
    ensures |req.body["content"].s| >= 10
    ensures "status" in req.body ==> req.body["status"] in {Str("DRAFT"), Str("PUBLISHED")}
  {
  }

  /** Every title the schema accepts, and only those, has between 3 and 200 characters. */
  lemma TitleBoundsExact(req: Request, title: string)
    requires RequiredString(req.body, "content", ContentMin, None) && "status" !in req.body
    ensures CreateArticleSchema(req.(body := req.body["title" := Str(title)])) <==> 3 <= |title| <= 200
  {
  }

  /** Any body create accepts, update accepts too; the empty body is a valid update. */
  lemma UpdateIsOptionalCreate(req: Request)
    requires HasUuidId(req)
    ensures CreateArticleSchema(req) ==> UpdateArticleSchema(req)
    ensures UpdateArticleSchema(req.(body := map[]))
  {
  }

  /** Get, update and delete reject a request whose id is not UUID-shaped. */
  lemma IdMustBeUuid(req: Request)
    requires !HasUuidId(req)
    ensures !GetArticleSchema(req) && !UpdateArticleSchema(req) && !DeleteArticleSchema(req)
  {
  }

  /** An unnamed body key never changes the verdict (`.passthrough()`). */
  lemma ExtraBodyKeysIgnored(req: Request, key: string, v: Value)
    requires key !in {"title", "content", "status"}
    ensures CreateArticleSchema(req.(body := req.body[key := v])) == CreateArticleSchema(req)
    ensures UpdateArticleSchema(req.(body := req.body[key := v])) == UpdateArticleSchema(req)
  {
  }

  /** A status outside the enumeration is rejected everywhere it is accepted at all. */
  lemma StatusEnum(req: Request, s: string)
    requires s !in Statuses
    ensures !CreateArticleSchema(req.(body := req.body["status" := Str(s)]))
    ensures !UpdateArticleSchema(req.(body := req.body["status" := Str(s)]))
    ensures !GetArticlesSchema(req.(query := req.query["status" := Str(s)]))
  {
  }

  // -------------------------------------------- from a valid query to the service

  function StatusOf(s: string): (r: ArticleService.Status)
    requires s in Statuses
    ensures r == ArticleService.Draft <==> s == "DRAFT"
  {
    if s == "DRAFT" then ArticleService.Draft else ArticleService.Published
  }

  function DigitsParam(f: Fields, key: string): Option<nat>
    requires OptionalDigits(f, key)
  {
    if key in f then Some(DecimalValue(f[key].s)) else None
  }

  /** The arguments `getArticles` receives for an accepted query, `parseInt` applied to page and limit. */
  function ListQueryOf(req: Request): (q: ArticleService.ListQuery)
    requires GetArticlesSchema(req)
    ensures q.page.Some? <==> "page" in req.query
    ensures q.limit.Some? <==> "limit" in req.query
    ensures q.status.Some? <==> "status" in req.query
    ensures q.search.Some? <==> "search" in req.query
    ensures "page" in req.query ==> q.page == Some(DecimalValue(req.query["page"].s))
    ensures "limit" in req.query ==> q.limit == Some(DecimalValue(req.query["limit"].s))
    ensures "status" in req.query ==> q.status == Some(StatusOf(req.query["status"].s))
    ensures "search" in req.query ==> q.search == Some(req.query["search"].s)
  {
    ArticleService.ListQuery(
      DigitsParam(req.query, "page"),
      DigitsParam(req.query, "limit"),
      if "status" in req.query then Some(StatusOf(req.query["status"].s)) else None,
      if "search" in req.query then Some(req.query["search"].s) else None)
  }

  /**
   * `?limit=0` passes validation and reaches the service as a limit of 0:
   * the page is empty and `totalPages` is not a number.
   */
  lemma ZeroLimitAccepted(rows: map<Id, ArticleService.Article>)
    requires ArticleService.WellFormed(rows)
    ensures var req := Request(map[], map["limit" := Str("0")], map[]);
      && GetArticlesSchema(req)
      && ListQueryOf(req).limit == Some(0)
      && ArticleService.LimitNumber(ListQueryOf(req).limit) == 0
      && ArticleService.ListSpec(rows, ListQueryOf(req)).articles == []
      && ArticleService.ListSpec(rows, ListQueryOf(req)).pagination.totalPages.None?
  {
    var req := Request(map[], map["limit" := Str("0")], map[]);
    assert "0"[..0] == [];
  }

  /** A printed page number survives validation and parsing unchanged. */
  lemma PrintedPageRoundTrip(n: nat)
    ensures var req := Request(map[], map["page" := Str(Decimal(n))], map[]);
      GetArticlesSchema(req) && ListQueryOf(req).page == Some(n)
  {
    DecimalRoundTrip(n);
  }
}
