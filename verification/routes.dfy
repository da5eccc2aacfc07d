/** The four routes of delivery/http/http.go: each endpoint handler wrapped in
    its middleware chain. The endpoint handlers themselves are not part of this
    model and are parameters. For each route, a decision pipeline states which
    check runs first, and what reaches the handler. */
module Routes {
  import opened Wrappers
  import opened Middleware
  import Database
  import Repository

  /** GET, then a valid token, then a non-empty item. */
  function BuyItemPipeline(validate: TokenValidator, r: Request): (v: Verdict)
    ensures r.verb != MethodGet ==> v == Reject(Response(StatusMethodNotAllowed, "Method not allowed"))
    ensures r.verb == MethodGet && AuthCheck(validate, r).Reject? ==> v == AuthCheck(validate, r)
    ensures r.verb == MethodGet && AuthCheck(validate, r).Forward? && r.item == "" ==>
      v == Reject(Response(StatusBadRequest, "Invalid input data"))
    ensures v.Forward? <==> r.verb == MethodGet && AuthCheck(validate, r).Forward? && r.item != ""
    ensures v.Forward? ==>
      v.request == r.(ctx := r.ctx.(username := AuthCheck(validate, r).request.ctx.username, buyItem := Some(r.item)))
  {
    match MethodCheck(MethodGet, r)
    case Reject(resp) => Reject(resp)
    case Forward(r1) =>
      match AuthCheck(validate, r1)
      case Reject(resp) => Reject(resp)
      case Forward(r2) => BuyItemCheck(r2)
  }

  /** POST, then non-empty credentials; no token is asked for. */
  function AuthPipeline(r: Request): (v: Verdict)
    ensures r.verb != MethodPost ==> v == Reject(Response(StatusMethodNotAllowed, "Method not allowed"))
    ensures v.Forward? <==> r.verb == MethodPost && AuthRequestCheck(r).Forward?
    ensures r.verb == MethodPost ==> v == AuthRequestCheck(r)
  {
    match MethodCheck(MethodPost, r)
    case Reject(resp) => Reject(resp)
    case Forward(r1) => AuthRequestCheck(r1)
  }

  /** POST, then a valid body, and only then a valid token: a bad body is
      refused with 400 whatever the `Authorization` header says. */
  function SendCoinPipeline(validate: TokenValidator, r: Request): (v: Verdict)
    ensures r.verb != MethodPost ==> v == Reject(Response(StatusMethodNotAllowed, "Method not allowed"))
    ensures r.verb == MethodPost && SendCoinCheck(r).Reject? ==> v == SendCoinCheck(r)
    ensures r.verb == MethodPost && SendCoinCheck(r).Forward? && BearerToken(r.authorization).None? ==>
      v == Reject(Response(StatusUnauthorized, "Unauthorized"))
    ensures r.verb == MethodPost && SendCoinCheck(r).Forward? && AuthCheck(validate, r).Reject? ==>
      v == AuthCheck(validate, r)
    ensures v.Forward? <==> r.verb == MethodPost && SendCoinCheck(r).Forward? && AuthCheck(validate, r).Forward?
    ensures v.Forward? ==>
      v.request == r.(ctx := r.ctx.(sendCoin := r.sendCoinBody, username := AuthCheck(validate, r).request.ctx.username))
    ensures v.Forward? ==>
      && v.request.ctx.sendCoin == r.sendCoinBody
      && v.request.ctx.username == AuthCheck(validate, r).request.ctx.username
      && v.request.ctx.sendCoin.value.amount > 0
      && v.request.ctx.sendCoin.value.toUser != ""
  {
    match MethodCheck(MethodPost, r)
    case Reject(resp) => Reject(resp)
    case Forward(r1) =>
      match SendCoinCheck(r1)
      case Reject(resp) => Reject(resp)
      case Forward(r2) => AuthCheck(validate, r2)
  }

  /** GET, then a valid token; no body is looked at. */
  function InfoPipeline(validate: TokenValidator, r: Request): (v: Verdict)
    ensures r.verb != MethodGet ==> v == Reject(Response(StatusMethodNotAllowed, "Method not allowed"))
    ensures r.verb == MethodGet ==> v == AuthCheck(validate, r)
  {
    match MethodCheck(MethodGet, r)
    case Reject(resp) => Reject(resp)
    case Forward(r1) => AuthCheck(validate, r1)
  }

  /** The chain `GetMethod, Auth, ValidateBuyItem` around `h` behaves as `BuyItemPipeline`. */
  lemma BuyItemChainIsPipeline(validate: TokenValidator, h: Handler, r: Request)
    ensures Nest(h, [GetMethodMiddleware, (next: Handler) => AuthMiddleware(validate, next), ValidateBuyItemMiddleware])(r)
         == Respond(BuyItemPipeline(validate, r), h)
  {
    var ms: seq<Middleware> := [GetMethodMiddleware, (next: Handler) => AuthMiddleware(validate, next), ValidateBuyItemMiddleware];
    assert ms[1..][1..] == [ValidateBuyItemMiddleware];
    assert Nest(h, ms[1..][1..][1..]) == h;
    var inner := Nest(h, ms[1..][1..]);
    assert inner == ValidateBuyItemMiddleware(h);
    var middle := Nest(h, ms[1..]);
    assert middle == AuthMiddleware(validate, inner);
  }

  /** The chain `PostMethod, ValdateAuthRequest` around `h` behaves as `AuthPipeline`. */
  lemma AuthChainIsPipeline(h: Handler, r: Request)
    ensures Nest(h, [PostMethodMiddleware, ValdateAuthRequestMiddleware])(r) == Respond(AuthPipeline(r), h)
  {
    var ms: seq<Middleware> := [PostMethodMiddleware, ValdateAuthRequestMiddleware];
    assert ms[1..][1..] == [];
    assert Nest(h, ms[1..]) == ValdateAuthRequestMiddleware(h);
  }

  /** The chain `PostMethod, ValidateSendCoin, Auth` around `h` behaves as `SendCoinPipeline`. */
  lemma SendCoinChainIsPipeline(validate: TokenValidator, h: Handler, r: Request)
    ensures Nest(h, [PostMethodMiddleware, ValidateSendCoinMiddleware, (next: Handler) => AuthMiddleware(validate, next)])(r)
         == Respond(SendCoinPipeline(validate, r), h)
  {
    var ms: seq<Middleware> := [PostMethodMiddleware, ValidateSendCoinMiddleware, (next: Handler) => AuthMiddleware(validate, next)];
    assert ms[1..][1..][0] == (next: Handler) => AuthMiddleware(validate, next);
    assert Nest(h, ms[1..][1..][1..]) == h;
    var inner := Nest(h, ms[1..][1..]);
    assert inner == AuthMiddleware(validate, h);
    var middle := Nest(h, ms[1..]);
    assert middle == ValidateSendCoinMiddleware(inner);
  }

  /** The chain `GetMethod, Auth` around `h` behaves as `InfoPipeline`. */
  lemma InfoChainIsPipeline(validate: TokenValidator, h: Handler, r: Request)
    ensures Nest(h, [GetMethodMiddleware, (next: Handler) => AuthMiddleware(validate, next)])(r)
         == Respond(InfoPipeline(validate, r), h)
  {
    var ms: seq<Middleware> := [GetMethodMiddleware, (next: Handler) => AuthMiddleware(validate, next)];
    assert ms[1..][1..] == [];
    assert Nest(h, ms[1..]) == AuthMiddleware(validate, h);
  }

  /** The handlers registered for `/api/buy/{item}`, `/api/auth`, `/api/sendCoin` and `/api/info`. */
  datatype Mux = Mux(buy: Handler, auth: Handler, sendCoin: Handler, info: Handler)

  /** `SetupRoutes`: wraps each endpoint handler in its middleware chain. */
  method SetupRoutes(validate: TokenValidator, buyItem: Handler, auth: Handler, sendCoin: Handler, info: Handler)
    returns (mux: Mux)
    ensures forall r :: mux.buy(r) == Respond(BuyItemPipeline(validate, r), buyItem)
    ensures forall r :: mux.auth(r) == Respond(AuthPipeline(r), auth)
    ensures forall r :: mux.sendCoin(r) == Respond(SendCoinPipeline(validate, r), sendCoin)
    ensures forall r :: mux.info(r) == Respond(InfoPipeline(validate, r), info)
  {
    var withToken := (next: Handler) => AuthMiddleware(validate, next);
    var buy := ChainMiddleware(buyItem, [GetMethodMiddleware, withToken, ValidateBuyItemMiddleware]);
    var login := ChainMiddleware(auth, [PostMethodMiddleware, ValdateAuthRequestMiddleware]);
    var send := ChainMiddleware(sendCoin, [PostMethodMiddleware, ValidateSendCoinMiddleware, withToken]);
    var show := ChainMiddleware(info, [GetMethodMiddleware, withToken]);
    forall r ensures buy(r) == Respond(BuyItemPipeline(validate, r), buyItem) {
      BuyItemChainIsPipeline(validate, buyItem, r);
    }
    forall r ensures login(r) == Respond(AuthPipeline(r), auth) {
      AuthChainIsPipeline(auth, r);
    }
    forall r ensures send(r) == Respond(SendCoinPipeline(validate, r), sendCoin) {
      SendCoinChainIsPipeline(validate, sendCoin, r);
    }
    forall r ensures show(r) == Respond(InfoPipeline(validate, r), info) {
      InfoChainIsPipeline(validate, info, r);
    }
    mux := Mux(buy, login, send, show);
  }

  /** End to end: whatever the `/api/sendCoin` route lets through moves a
      positive amount, so the transfer it leads to cannot overdraw anyone. */
  lemma GatedTransferKeepsNonNegative(validate: TokenValidator, r: Request, s: Database.Store, faults: Database.Faults)
    requires SendCoinPipeline(validate, r).Forward?
    requires Database.AllNonNegative(s)
    ensures var fwd := SendCoinPipeline(validate, r).request;
      Database.AllNonNegative(Repository.SendCoin(s, faults, fwd.ctx.username.value, fwd.ctx.sendCoin.value.toUser, fwd.ctx.sendCoin.value.amount).store)
  {
  }
}
