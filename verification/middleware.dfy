/** The HTTP middleware of internal/middleware.go. A request is abstract: its
    method, its `Authorization` header, its body as each of the two request
    records it may decode to (`None` when it is not valid JSON for that record),
    the `{item}` path value, and the values earlier middleware stored in its
    context. A handler maps a request to the response it writes. Each middleware
    is a pure check that either rejects with an error response or forwards a
    (possibly context-extended) request to the next handler. */
module Middleware {
  import opened Wrappers
  import opened Entities

  /** The context values the middleware chain attaches to a request. */
  datatype Context = Context(
    username: Option<string>,
    sendCoin: Option<SendCoinRequest>,
    authRequest: Option<AuthRequest>,
    buyItem: Option<string>)

  datatype Request = Request(
    verb: string,             // the HTTP method
    authorization: string,
    sendCoinBody: Option<SendCoinRequest>,
    authBody: Option<AuthRequest>,
    item: string,
    ctx: Context)

  /** The status and text a handler writes. */
  datatype Response = Response(status: int, body: string)

  type Handler = Request -> Response

  type Middleware = Handler -> Handler

  /** What one middleware decides about a request. */
  datatype Verdict = Reject(response: Response) | Forward(request: Request)

  /** The token validator's `(username, error)` answer; `failed` is a non-nil error. */
  datatype TokenResult = TokenResult(username: string, failed: bool)

  /** Signature verification and expiry checking of bearer tokens; left abstract. */
  type TokenValidator = string -> TokenResult

  const MethodGet := "GET"
  const MethodPost := "POST"
  const BearerPrefix := "Bearer "

  const StatusBadRequest := 400
  const StatusUnauthorized := 401
  const StatusMethodNotAllowed := 405

  /** Carries out a verdict: write the rejection, or call `next`. */
  function Respond(v: Verdict, next: Handler): Response
  {
    match v
    case Reject(resp) => resp
    case Forward(r) => next(r)
  }

  /** Lets only requests with method `allowed` through. */
  function MethodCheck(allowed: string, r: Request): (v: Verdict)
    ensures v.Forward? <==> r.verb == allowed
    ensures v.Forward? ==> v.request == r
    ensures v.Reject? ==> v.response == Response(StatusMethodNotAllowed, "Method not allowed")
  {
    if r.verb != allowed then Reject(Response(StatusMethodNotAllowed, "Method not allowed")) else Forward(r)
  }

  /** The token of an `Authorization: Bearer <token>` header; `None` for an
      empty header or one without the prefix. */
  function BearerToken(header: string): (t: Option<string>)
    ensures t.Some? <==> BearerPrefix <= header
    ensures t.Some? ==> BearerPrefix + t.value == header
  {
    if header == "" || !(BearerPrefix <= header) then None
    else
      assert header == header[..|BearerPrefix|] + header[|BearerPrefix|..];
      Some(header[|BearerPrefix|..])
  }

  /** Prefixing a token and parsing it back gives the token. */
  lemma BearerTokenRoundTrip(token: string)
    ensures BearerToken(BearerPrefix + token) == Some(token)
  {
  }

  /** Forwards a request only when it carries a bearer token the validator
      accepts with a non-empty username, recording that username in the context. */
  function AuthCheck(validate: TokenValidator, r: Request): (v: Verdict)
    ensures BearerToken(r.authorization).None? ==> v == Reject(Response(StatusUnauthorized, "Unauthorized"))
    ensures v.Forward? <==>
      && BearerToken(r.authorization).Some?
      && !validate(BearerToken(r.authorization).value).failed
      && validate(BearerToken(r.authorization).value).username != ""
    ensures v.Forward? ==>
      v.request == r.(ctx := r.ctx.(username := Some(validate(BearerToken(r.authorization).value).username)))
    ensures v.Reject? ==> v.response.status == StatusUnauthorized
  {
    match BearerToken(r.authorization)
    case None => Reject(Response(StatusUnauthorized, "Unauthorized"))
    case Some(token) =>
      var result := validate(token);
      if result.failed || result.username == "" then Reject(Response(StatusUnauthorized, "Invalid token"))
      else Forward(r.(ctx := r.ctx.(username := Some(result.username))))
  }

  /** Forwards a `/api/sendCoin` body only when it decodes, names a recipient
      and moves a positive amount. */
  function SendCoinCheck(r: Request): (v: Verdict)
    ensures v.Forward? <==> r.sendCoinBody.Some? && r.sendCoinBody.value.toUser != "" && r.sendCoinBody.value.amount > 0
    ensures v.Forward? ==> v.request == r.(ctx := r.ctx.(sendCoin := r.sendCoinBody))
    ensures v.Reject? ==> v.response.status == StatusBadRequest
  {
    match r.sendCoinBody
    case None => Reject(Response(StatusBadRequest, "Invalid JSON format"))
    case Some(req) =>
      if req.toUser == "" || req.amount <= 0 then Reject(Response(StatusBadRequest, "Invalid input data"))
      else Forward(r.(ctx := r.ctx.(sendCoin := Some(req))))
  }

  /** Forwards a purchase only when the `{item}` path value is non-empty. */
  function BuyItemCheck(r: Request): (v: Verdict)
    ensures v.Forward? <==> r.item != ""
    ensures v.Forward? ==> v.request == r.(ctx := r.ctx.(buyItem := Some(r.item)))
    ensures v.Reject? ==> v.response == Response(StatusBadRequest, "Invalid input data")
  {
    if r.item == "" then Reject(Response(StatusBadRequest, "Invalid input data"))
    else Forward(r.(ctx := r.ctx.(buyItem := Some(r.item))))
  }

  /** Forwards an `/api/auth` body only when it decodes with a non-empty
      username and password. */
  function AuthRequestCheck(r: Request): (v: Verdict)
    ensures v.Forward? <==> r.authBody.Some? && r.authBody.value.username != "" && r.authBody.value.password != ""
    ensures v.Forward? ==> v.request == r.(ctx := r.ctx.(authRequest := r.authBody))
    ensures v.Reject? ==> v.response.status == StatusBadRequest
  {
    match r.authBody
    case None => Reject(Response(StatusBadRequest, "Invalid JSON format"))
    case Some(req) =>
      if req.username == "" || req.password == "" then Reject(Response(StatusBadRequest, "Invalid input data"))
      else Forward(r.(ctx := r.ctx.(authRequest := Some(req))))
  }

  function GetMethodMiddleware(next: Handler): Handler
  {
    (r: Request) => Respond(MethodCheck(MethodGet, r), next)
  }

  function PostMethodMiddleware(next: Handler): Handler
  {
    (r: Request) => Respond(MethodCheck(MethodPost, r), next)
  }

  function AuthMiddleware(validate: TokenValidator, next: Handler): Handler
  {
    (r: Request) => Respond(AuthCheck(validate, r), next)
  }

  function ValidateSendCoinMiddleware(next: Handler): Handler
  {
    (r: Request) => Respond(SendCoinCheck(r), next)
  }

  function ValidateBuyItemMiddleware(next: Handler): Handler
  {
    (r: Request) => Respond(BuyItemCheck(r), next)
  }

  function ValdateAuthRequestMiddleware(next: Handler): Handler
  {
    (r: Request) => Respond(AuthRequestCheck(r), next)
  }

  /** Reference composition: `ms[0]` outermost, `h` innermost. */
  function Nest(h: Handler, ms: seq<Middleware>): Handler
  {
    if |ms| == 0 then h else ms[0](Nest(h, ms[1..]))
  }

  /** `ChainMiddleware`: wraps `handler` in the middlewares from the last to the
      first, so that the first one is outermost. */
  method ChainMiddleware(handler: Handler, middlewares: seq<Middleware>) returns (chained: Handler)
    ensures chained == Nest(handler, middlewares)
    ensures |middlewares| == 0 ==> chained == handler
    ensures |middlewares| > 0 ==> chained == middlewares[0](Nest(handler, middlewares[1..]))
  {
    chained := handler;
    var i := |middlewares|;
    while i > 0
      invariant 0 <= i <= |middlewares|
      invariant chained == Nest(handler, middlewares[i..])
    {
      i := i - 1;
      assert middlewares[i..][1..] == middlewares[i + 1..];
      chained := middlewares[i](chained);
    }
    assert middlewares[0..] == middlewares;
  }
}
