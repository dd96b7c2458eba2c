/**
 * The centralized error handler: an ordered classification of whatever was
 * thrown into a status code and a uniform failure body. Logging to the
 * console is left out.
 */
module ErrorHandler {
  import opened Common
  import opened Strings
  import ArticleService
  import AuthService

  /** One step of a validation issue's path: an object key or an array index. */
  datatype PathItem = Key(name: string) | Index(i: nat)

  /** A validation issue as the schema library records it. */
  datatype Issue = Issue(path: seq<PathItem>, message: string)

  /**
   * The thrown value, by the properties the handler looks at:
   * `zodIssues` is present exactly when the value is a ZodError; `code` and
   * `metaTarget` are the ORM's error code and `meta.target`; `statusCode` is
   * the field services attach.
   */
  datatype Thrown = Thrown(
    zodIssues: Option<seq<Issue>>,
    code: Option<string>,
    metaTarget: Option<seq<string>>,
    statusCode: Option<nat>,
    message: string)

  const UniqueViolation := "P2002"
  const RecordMissing := "P2025"

  function SegmentText(p: PathItem): string {
    match p
    case Key(k) => k
    case Index(i) => Decimal(i)
  }

  /** `path.join('.')`. */
  function JoinPath(path: seq<PathItem>): string
    decreases |path|
  {
    if |path| == 0 then ""
    else if |path| == 1 then SegmentText(path[0])
    else SegmentText(path[0]) + "." + JoinPath(path[1..])
  }

  /** Joining a longer path appends one separator and the last segment. */
  lemma {:induction false} JoinPathSnoc(path: seq<PathItem>, last: PathItem)
    requires path != []
    ensures JoinPath(path + [last]) == JoinPath(path) + "." + SegmentText(last)
    decreases |path|
  {
    if |path| == 1 {
      assert path + [last] == [path[0], last];
      assert [path[0], last][1..] == [last];
    } else {
      assert (path + [last])[1..] == path[1..] + [last];
      JoinPathSnoc(path[1..], last);
    }
  }

  lemma JoinExamples()
    ensures JoinPath([Key("body"), Key("title")]) == "body.title"
    ensures JoinPath([Key("query"), Key("page")]) == "query.page"
    ensures JoinPath([Key("items"), Index(0)]) == "items.0"
    ensures JoinPath([]) == ""
  {
    assert [Key("body"), Key("title")][1..] == [Key("title")];
    assert [Key("query"), Key("page")][1..] == [Key("page")];
    assert [Key("items"), Index(0)][1..] == [Index(0)];
  }

  function FieldErrorOf(issue: Issue): FieldError {
    FieldError(JoinPath(issue.path), issue.message)
  }

  /** `err.errors.map(e => ({ field: e.path.join('.'), message: e.message }))`. */
  function FieldErrors(issues: seq<Issue>): (r: seq<FieldError>)
    ensures |r| == |issues|
    ensures forall i | 0 <= i < |issues| ::
      r[i].field == JoinPath(issues[i].path) && r[i].message == issues[i].message
    decreases |issues|
  {
    if issues == [] then [] else [FieldErrorOf(issues[0])] + FieldErrors(issues[1..])
  }

  /** `err.meta?.target?.[0] || 'unknown'`: a missing or empty first target reads "unknown". */
  function DuplicateField(target: Option<seq<string>>): (f: string)
    ensures f != ""
    ensures target.Some? && |target.value| > 0 && target.value[0] != "" ==> f == target.value[0]
    ensures !(target.Some? && |target.value| > 0 && target.value[0] != "") ==> f == "unknown"
  {
    if target.Some? && |target.value| > 0 && target.value[0] != "" then target.value[0] else "unknown"
  }

  /** `if (err.statusCode)`: absent and 0 are both falsy. */
  predicate HasStatus(err: Thrown) {
    err.statusCode.Some? && err.statusCode.value != 0
  }

  /** `errorHandler(err, req, res, next)`, with `nodeEnv` the value of `NODE_ENV`. */
  function Handle(err: Thrown, nodeEnv: Option<string>): (r: Response)
    ensures !r.body.success
    ensures r.body.errors.Some? <==> err.zodIssues.Some?
    ensures r.body.field.Some? ==> r.status == 409
    ensures r.body.error.Some? ==> r.status == 500 && nodeEnv == Some("development")
  {
    if err.zodIssues.Some? then
      Response(400, Body(false, "Validation error", Some(FieldErrors(err.zodIssues.value)), None, None))
    else if err.code == Some(UniqueViolation) then
      Response(409, Body(false, "A record with this value already exists.", None,
                         Some(DuplicateField(err.metaTarget)), None))
    else if err.code == Some(RecordMissing) then
      Failure(404, "Record not found.")
    else if HasStatus(err) then
      Failure(err.statusCode.value, err.message)
    else
      Response(500, Body(false, "Internal server error", None, None,
                         if nodeEnv == Some("development") then Some(err.message) else None))
  }

  /**
   * The branches are tried in a fixed order: a validation error wins over any
   * code or status it might also carry, an ORM code over a status, and a
   * status over the catch-all.
   */
  lemma Precedence(err: Thrown, nodeEnv: Option<string>)
    ensures err.zodIssues.Some? ==>
      Handle(err, nodeEnv) == Response(400, Body(false, "Validation error",
                                                 Some(FieldErrors(err.zodIssues.value)), None, None))
    ensures err.zodIssues.None? && err.code == Some(UniqueViolation) ==>
      Handle(err, nodeEnv) == Response(409, Body(false, "A record with this value already exists.", None,
                                                 Some(DuplicateField(err.metaTarget)), None))
    ensures err.zodIssues.None? && err.code == Some(RecordMissing) ==>
      Handle(err, nodeEnv) == Failure(404, "Record not found.")
    ensures err.zodIssues.None? && err.code != Some(UniqueViolation) && err.code != Some(RecordMissing)
            && HasStatus(err) ==>
      Handle(err, nodeEnv) == Failure(err.statusCode.value, err.message)
  {
  }

  /** Lower-priority properties never change the answer of a higher-priority branch. */
  lemma LowerBranchesIgnored(err: Thrown, code: Option<string>, statusCode: Option<nat>, nodeEnv: Option<string>)
    ensures err.zodIssues.Some? ==>
      Handle(err.(code := code, statusCode := statusCode), nodeEnv) == Handle(err, nodeEnv)
    ensures err.zodIssues.None? && err.code in {Some(UniqueViolation), Some(RecordMissing)} ==>
      Handle(err.(statusCode := statusCode), nodeEnv) == Handle(err, nodeEnv)
  {
  }

  /** The catch-all shows the underlying message only in development. */
  lemma InternalErrorsHidden(err: Thrown, nodeEnv: Option<string>)
    requires err.zodIssues.None? && err.code != Some(UniqueViolation) && err.code != Some(RecordMissing)
    requires !HasStatus(err)
    ensures Handle(err, nodeEnv).status == 500
    ensures Handle(err, nodeEnv).body.message == "Internal server error"
    ensures Handle(err, nodeEnv).body.error == if nodeEnv == Some("development") then Some(err.message) else None
  {
  }

  /** A service error as it reaches the handler: a plain error with a message and a status. */
  function FromAppError(e: AppError): (t: Thrown)
    ensures t.zodIssues.None? && t.code.None? && t.metaTarget.None?
    ensures t.statusCode == Some(e.statusCode) && t.message == e.message
  {
    Thrown(None, None, None, Some(e.statusCode), e.message)
  }

  /** Every error the services throw is answered with its own status and message, in any environment. */
  lemma ServiceErrorsEchoed(e: AppError, nodeEnv: Option<string>)
    requires e in {ArticleService.NotFound, ArticleService.EditDenied, ArticleService.DeleteDenied,
                   AuthService.EmailTaken, AuthService.InvalidCredentials}
    ensures Handle(FromAppError(e), nodeEnv) == Failure(e.statusCode, e.message)
    ensures Handle(FromAppError(e), nodeEnv).status in {401, 403, 404, 409}
  {
  }
}
