/**
 * The global exception filter: turns whatever a handler threw into a Problem Details body
 * (RFC 7807) and writes it with the `application/problem+json` media type registered in
 * section 6.1 of RFC 7807.
 */
module HttpExceptionFilter {
  import opened Wrappers
  import opened Strings
  import opened ProblemDetails
  import opened Exceptions

  const ProblemJson: string := "application/problem+json"

  /** The statuses both tables name. */
  const KnownStatuses: set<int> := {400, 401, 403, 404, 409, 500}

  /** `getTypeFromStatus`: the known statuses, else 'error'. */
  function TypeFromStatus(status: int): (t: string)
    ensures t == "error" <==> status !in KnownStatuses
  {
    if status == 400 then "validation-error"
    else if status == 401 then "unauthorized"
    else if status == 403 then "forbidden"
    else if status == 404 then "not-found"
    else if status == 409 then "conflict"
    else if status == 500 then "internal-server-error"
    else "error"
  }

  /** `getTitleFromStatus`: the known statuses, else 'Error'. */
  function TitleFromStatus(status: int): (t: string)
    ensures t == "Error" <==> status !in KnownStatuses
    ensures |t| > 0 && 'A' <= t[0] <= 'Z'
  {
    if status == 400 then "Validation Error"
    else if status == 401 then "Unauthorized"
    else if status == 403 then "Forbidden"
    else if status == 404 then "Not Found"
    else if status == 409 then "Conflict"
    else if status == 500 then "Internal Server Error"
    else "Error"
  }

  /** Turns a kebab-case problem type into its title: dashes become spaces, words are capitalised. */
  function Titleize(s: string): string {
    seq(|s|, i requires 0 <= i < |s| =>
      if s[i] == '-' then ' '
      else if i == 0 || s[i - 1] == '-' then UpperChar(s[i])
      else s[i])
  }

  lemma TitleizeValidationError()
    ensures Titleize("validation-error") == "Validation Error"
  {
  }

  lemma TitleizeUnauthorized()
    ensures Titleize("unauthorized") == "Unauthorized"
  {
  }

  lemma TitleizeForbidden()
    ensures Titleize("forbidden") == "Forbidden"
  {
  }

  lemma TitleizeNotFound()
    ensures Titleize("not-found") == "Not Found"
  {
  }

  lemma TitleizeConflict()
    ensures Titleize("conflict") == "Conflict"
  {
  }

  lemma TitleizeInternalServerError()
    ensures Titleize("internal-server-error") == "Internal Server Error"
  {
  }

  lemma TitleizeError()
    ensures Titleize("error") == "Error"
  {
  }

  /** The two tables agree entry by entry: each title is the capitalised form of its type. */
  lemma TitleMatchesType(status: int)
    ensures TitleFromStatus(status) == Titleize(TypeFromStatus(status))
  {
    if status == 400 {
      TitleizeValidationError();
    } else if status == 401 {
      TitleizeUnauthorized();
    } else if status == 403 {
      TitleizeForbidden();
    } else if status == 404 {
      TitleizeNotFound();
    } else if status == 409 {
      TitleizeConflict();
    } else if status == 500 {
      TitleizeInternalServerError();
    } else {
      TitleizeError();
    }
  }

  /** JavaScript truthiness of a member value: an array is truthy even when it is empty. */
  predicate Truthy(v: Value) {
    match v
    case Str(t) => t != ""
    case Num(n) => n != 0
    case Cents(c) => c != 0
    case Bool(b) => b
    case Null => false
    case Arr(_) => true
  }

  /** A response object that already has the RFC 7807 shape (both `type` and `title`). */
  predicate HasProblemShape(r: Response) {
    r.Object? && "type" in r.fields && "title" in r.fields
  }

  /** The detail of a converted exception: the response string, else its truthy `message`, else a default. */
  function DetailOf(r: Response): Value {
    match r
    case Text(t) => Str(t)
    case Object(f) => if "message" in f && Truthy(f["message"]) then f["message"] else Str("An error occurred")
  }

  /** The body `catch` selects for an exception thrown while serving `url`. */
  function ProblemFor(exception: Thrown, url: string): (p: Fields)
    ensures "type" in p && "title" in p
    ensures exception.PlainError? ==> "status" in p && p["status"] == Num(500)
    ensures exception.HttpException? && !HasProblemShape(exception.response) ==>
      "status" in p && p["status"] == Num(exception.status) && "instance" in p && p["instance"] == Str(url)
  {
    match exception
    case HttpException(response, status) =>
      if HasProblemShape(response) then response.fields
      else Build(TypeFromStatus(status), TitleFromStatus(status), status, DetailOf(response), url, map[])
    case PlainError(_) =>
      Build("internal-server-error", "Internal Server Error", 500, Str("An unexpected error occurred"), url, map[])
  }

  /** The `status` member of a body, as `problemDetails.status` reads it (absent is `None`). */
  function StatusMember(body: Fields): Option<Value> {
    if "status" in body then Some(body["status"]) else None
  }

  /** The Express response object `catch` writes to. */
  class ServerResponse {
    var statusCode: Option<Value>
    var headers: map<string, string>
    var body: Option<Fields>

    constructor ()
      ensures statusCode == None && headers == map[] && body == None
    {
      statusCode := None;
      headers := map[];
      body := None;
    }
  }

  /** `catch`: select the body, then write status, content type and JSON body. */
  method Catch(exception: Thrown, url: string, response: ServerResponse)
    modifies response
    ensures response.body == Some(ProblemFor(exception, url))
    ensures response.statusCode == StatusMember(ProblemFor(exception, url))
    ensures response.headers == old(response.headers)["Content-Type" := ProblemJson]
  {
    var problemDetails := ProblemFor(exception, url);
    response.statusCode := StatusMember(problemDetails);
    response.headers := response.headers["Content-Type" := ProblemJson];
    response.body := Some(problemDetails);
  }

  /** Anything that is not an HttpException becomes a generic 500 problem at the request URL. */
  lemma UnknownErrorIsInternal(message: string, url: string)
    ensures var p := ProblemFor(PlainError(message), url);
      && p.Keys == StandardMembers
      && p["type"] == Str(ProblemTypeBase + "internal-server-error")
      && p["title"] == Str("Internal Server Error")
      && p["status"] == Num(500)
      && p["detail"] == Str("An unexpected error occurred")
      && p["instance"] == Str(url)
  {
    BuildWithoutExtensions("internal-server-error", "Internal Server Error", 500,
      Str("An unexpected error occurred"), url);
  }

  /** An HttpException whose response object has both `type` and `title` is written unchanged. */
  lemma ProblemShapedPassesThrough(fields: Fields, status: int, url: string)
    requires "type" in fields && "title" in fields
    ensures ProblemFor(HttpException(Object(fields), status), url) == fields
  {
  }

  /**
   * Any other HttpException is converted: type and title from the status tables, the status
   * itself, the detail from the response, and the request URL as instance.
   */
  lemma OtherHttpExceptionConverted(response: Response, status: int, url: string)
    requires !HasProblemShape(response)
    ensures var p := ProblemFor(HttpException(response, status), url);
      && p.Keys == StandardMembers
      && p["type"] == Str(ProblemTypeBase + TypeFromStatus(status))
      && p["title"] == Str(TitleFromStatus(status))
      && p["status"] == Num(status)
      && p["detail"] == DetailOf(response)
      && p["instance"] == Str(url)
      && StatusMember(p) == Some(Num(status))
  {
    BuildWithoutExtensions(TypeFromStatus(status), TitleFromStatus(status), status, DetailOf(response), url);
  }

  /**
   * The three withdrawal problems pass through, and the status written is the exception's own
   * HTTP status (409, 409 and 404), which equals the body's `status` member.
   */
  lemma WithdrawalProblemsWrittenWithTheirStatus(minimumAmount: int, balance: int, requested: int,
                                                  bankAccountId: string, url: string)
    ensures var e := MinimumAmountException(minimumAmount, requested);
      ProblemFor(e, url) == e.response.fields && StatusMember(ProblemFor(e, url)) == Some(Num(e.status))
    ensures var e := InsufficientFundsException(balance, requested);
      ProblemFor(e, url) == e.response.fields && StatusMember(ProblemFor(e, url)) == Some(Num(e.status))
    ensures var e := BankAccountNotFoundException(bankAccountId);
      ProblemFor(e, url) == e.response.fields && StatusMember(ProblemFor(e, url)) == Some(Num(e.status))
  {
    MinimumAmountProblem(minimumAmount, requested);
    InsufficientFundsProblem(balance, requested);
    BankAccountNotFoundProblem(bankAccountId);
  }

  /** The framework's not-found exception is converted with its message as the detail. */
  lemma NotFoundMessageBecomesDetail(message: string, url: string)
    requires message != ""
    ensures var p := ProblemFor(NotFoundException(message), url);
      && p["type"] == Str(ProblemTypeBase + "not-found")
      && p["title"] == Str("Not Found")
      && p["status"] == Num(404)
      && p["detail"] == Str(message)
  {
    var f := map["statusCode" := Num(404), "message" := Str(message), "error" := Str("Not Found")];
    assert "type" !in f by {
      assert f.Keys == {"statusCode", "message", "error"};
    }
    assert f["message"] == Str(message);
    OtherHttpExceptionConverted(Object(f), 404, url);
  }

  /**
   * A failed request validation throws a 400 whose `message` is the array of violated
   * constraints; the array, even an empty one, becomes the detail of a 'validation-error' problem.
   */
  lemma ValidationMessagesBecomeDetail(messages: seq<string>, url: string)
    ensures var items := seq(|messages|, i requires 0 <= i < |messages| => Str(messages[i]));
      var f := map["statusCode" := Num(400), "message" := Arr(items), "error" := Str("Bad Request")];
      var p := ProblemFor(HttpException(Object(f), 400), url);
      && p.Keys == StandardMembers
      && p["type"] == Str(ProblemTypeBase + "validation-error")
      && p["title"] == Str("Validation Error")
      && p["status"] == Num(400)
      && p["detail"] == Arr(items)
      && p["instance"] == Str(url)
  {
    var items := seq(|messages|, i requires 0 <= i < |messages| => Str(messages[i]));
    var f := map["statusCode" := Num(400), "message" := Arr(items), "error" := Str("Bad Request")];
    assert "type" !in f by {
      assert f.Keys == {"statusCode", "message", "error"};
    }
    assert f["message"] == Arr(items);
    OtherHttpExceptionConverted(Object(f), 400, url);
  }
}
