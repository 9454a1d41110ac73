/** The request loop of the client (`core/src/client.rs`): retries on transient
failures, one refresh of the session token, reloads of the access token. */
module Retry {
  import opened Results

  const OK := 200
  const UNAUTHORIZED := 401
  const SERVICE_UNAVAILABLE := 503

  const SESSION_TOKEN_EXPIRED := 5101
  const SESSION_TOKEN_NOT_FOUND := 5103

  /** A response: its status, the error code in its body if there is one, and the tokens
  that its body brings, read as the answer to a refresh. */
  datatype Response = Response(status: nat, errorCode: Option<nat>, tokens: Result<nat>)

  /** What happens to a request: it, or the body of its response, is lost, which may be
  transient; or it is answered. */
  datatype Outcome =
    | LostRequest(transient: bool)
    | LostBody(transient: bool)
    | Answer(response: Response)

  datatype Kind = Query | Login | Heartbeat | SessionRefresh

  /** The authorization of a request: tokens are known by number. */
  datatype Credential = SessionToken(pair: nat) | RefreshToken(pair: nat) | Own(token: nat)

  datatype Sent = Sent(kind: Kind, auth: Option<Credential>)

  /** The world outside: what becomes of the n-th request sent, and the access token that
  the token file holds after it, if it can be read. */
  datatype Env = Env(outcomes: nat -> Outcome, tokenFile: nat -> Option<nat>)

  datatype Config = Config(retryCount: nat, canReload: bool)

  datatype Call = Call(kind: Kind, retry503: bool, refresh401: bool, reload401: bool)

  /** The session tokens of the client, and all requests that it has sent. */
  datatype ClientState = ClientState(tokens: Option<nat>, sent: seq<Sent>)

  datatype Attempt = Attempt(refreshed: bool, retries: nat, auth: Option<Credential>)

  /** The requests that one round of retries may send. */
  function Tries(c: Config): nat {
    if c.retryCount == 0 then 1 else c.retryCount
  }

  /** No try is left in this round; a retry count of zero still allows the first. */
  predicate Exhausted(c: Config, retries: nat) {
    retries >= if c.retryCount == 0 then 0 else c.retryCount - 1
  }

  predicate NeedsRefresh(response: Response) {
    response.errorCode == Some(SESSION_TOKEN_EXPIRED) || response.errorCode == Some(SESSION_TOKEN_NOT_FOUND)
  }

  datatype Verdict = Return(result: Result<Response>) | Again(auth: Option<Credential>) | Renew

  /** What the loop does about what became of request `i`. */
  function Judge(env: Env, c: Config, call: Call, hasTokens: bool, at: Attempt, i: nat): Verdict {
    match env.outcomes(i)
    case LostRequest(transient) =>
      if transient && !Exhausted(c, at.retries) then Again(at.auth) else Return(Err(Rejected))
    case LostBody(transient) =>
      if transient && !Exhausted(c, at.retries) then Again(at.auth) else Return(Err(Rejected))
    case Answer(response) =>
      if call.retry503 && response.status == SERVICE_UNAVAILABLE then
        if Exhausted(c, at.retries) then Return(Ok(response)) else Again(at.auth)
      else if response.status == UNAUTHORIZED then
        if hasTokens && call.refresh401 && NeedsRefresh(response) && !at.refreshed then Renew
        else if call.reload401 && c.canReload then
          if Exhausted(c, at.retries) then Return(Ok(response))
          else match env.tokenFile(i)
               case Some(token) => Again(Some(Own(token)))
               case None => Return(Err(Rejected))
        else Return(Ok(response))
      else Return(Ok(response))
  }

  const REFRESH_CALL := Call(SessionRefresh, true, false, false)

  /** The loop from one of its attempts on. */
  function Helper(env: Env, c: Config, call: Call, at: Attempt, st: ClientState): (Result<Response>, ClientState)
    requires at.retries < Tries(c)
    decreases call.refresh401, !at.refreshed, Tries(c) - at.retries, 1
  {
    var sent := st.(sent := st.sent + [Sent(call.kind, at.auth)]);
    match Judge(env, c, call, st.tokens.Some?, at, |st.sent|)
    case Return(r) => (r, sent)
    case Again(auth) => Helper(env, c, call, at.(retries := at.retries + 1, auth := auth), sent)
    case Renew =>
      var (r, renewed) := Refreshed(env, c, sent);
      match r
      case Err(e) => (Err(e), renewed)
      case Ok(_) => Helper(env, c, call, Attempt(true, 0, None), renewed)
  }

  /** `refresh_session_token`. */
  function Refreshed(env: Env, c: Config, st: ClientState): (Result<nat>, ClientState)
    requires st.tokens.Some?
    decreases REFRESH_CALL.refresh401, true, Tries(c), 2
  {
    var (r, after) := Helper(env, c, REFRESH_CALL, Attempt(false, 0, Some(RefreshToken(st.tokens.value))), st);
    match NewTokens(r)
    case Ok(pair) => (Ok(pair), after.(tokens := Some(pair)))
    case Err(e) => (Err(e), after)
  }

  /** The tokens that the response to a refresh brings. */
  function NewTokens(r: Result<Response>): Result<nat> {
    var response :- r;
    if response.status != OK then Err(Rejected) else response.tokens
  }

  // ---------------------------------------------------------------------------
  // Rounds of retries
  // ---------------------------------------------------------------------------

  /** Request `i` is answered with a 401 that says that the session token has expired or
  cannot be found, and the tokens may still be renewed. */
  predicate Renews(env: Env, call: Call, hasTokens: bool, refreshed: bool, i: nat) {
    && hasTokens && call.refresh401 && !refreshed
    && env.outcomes(i).Answer? && env.outcomes(i).response.status == 401
    && env.outcomes(i).response.errorCode in {Some(5101), Some(5103)}
  }

  /** A 401 is answered by reading the token file again. */
  predicate Reloads(env: Env, c: Config, call: Call, i: nat) {
    && call.reload401 && c.canReload
    && env.outcomes(i).Answer? && env.outcomes(i).response.status == 401
  }

  /** What became of request `i` is worth another try, if one is left. */
  predicate WorthRetrying(env: Env, c: Config, call: Call, i: nat) {
    || (!env.outcomes(i).Answer? && env.outcomes(i).transient)
    || (call.retry503 && env.outcomes(i).Answer? && env.outcomes(i).response.status == 503)
    || (Reloads(env, c, call, i) && env.tokenFile(i).Some?)
  }

  /** The authorization that the request after number `i` carries: the token read again, if
  `i` was answered by a reload, and otherwise what `i` carried. */
  function Carried(env: Env, c: Config, call: Call, i: nat, auth: Option<Credential>): Option<Credential> {
    if Reloads(env, c, call, i) && env.tokenFile(i).Some? then Some(Own(env.tokenFile(i).value)) else auth
  }

  /** `block` is one round, sent from number `i` on: every request but the last is worth
  retrying, the last is not or nothing is left, and none before it renews the tokens. */
  ghost predicate Round(env: Env, c: Config, call: Call, at: Attempt, hasTokens: bool, i: nat, block: seq<Sent>) {
    && 1 <= |block| && at.retries + |block| <= Tries(c)
    && block[0].auth == at.auth
    && (forall j :: 0 <= j < |block| ==> block[j].kind == call.kind)
    && (forall j :: 1 <= j < |block| ==> block[j].auth == Carried(env, c, call, i + j - 1, block[j - 1].auth))
    && (forall j :: i <= j < i + |block| - 1 ==>
          WorthRetrying(env, c, call, j) && !Renews(env, call, hasTokens, at.refreshed, j))
    && (at.retries + |block| == Tries(c) || !WorthRetrying(env, c, call, i + |block| - 1)
        || Renews(env, call, hasTokens, at.refreshed, i + |block| - 1))
  }

  /** The result of a round that ends with request `i`. */
  function RoundResult(env: Env, c: Config, call: Call, i: nat, exhausted: bool): Result<Response> {
    if !env.outcomes(i).Answer? then Err(Rejected)
    else if !exhausted && Reloads(env, c, call, i) && env.tokenFile(i).None? then Err(Rejected)
    else Ok(env.outcomes(i).response)
  }

  lemma {:induction false} JudgeSays(env: Env, c: Config, call: Call, hasTokens: bool, at: Attempt, i: nat)
    requires at.retries < Tries(c)
    ensures var exhausted := at.retries + 1 == Tries(c);
            var renews := Renews(env, call, hasTokens, at.refreshed, i);
            match Judge(env, c, call, hasTokens, at, i)
            case Again(auth) => !exhausted && WorthRetrying(env, c, call, i) && !renews
                                && auth == Carried(env, c, call, i, at.auth)
            case Renew => renews
            case Return(r) => !renews && (exhausted || !WorthRetrying(env, c, call, i))
                              && r == RoundResult(env, c, call, i, exhausted)
  {
  }

  /** The loop is one round, and then either its result or a renewal and another round. */
  lemma {:induction false} HelperRound(env: Env, c: Config, call: Call, at: Attempt, st: ClientState)
    returns (block: seq<Sent>)
    requires at.retries < Tries(c)
    ensures Round(env, c, call, at, st.tokens.Some?, |st.sent|, block)
    ensures Helper(env, c, call, at, st) == AfterRound(env, c, call, at, st, block)
    decreases Tries(c) - at.retries
  {
    hide Judge, Renews, WorthRetrying, RoundResult, Refreshed, AfterRound, Carried;
    var i := |st.sent|;
    var first := Sent(call.kind, at.auth);
    JudgeSays(env, c, call, st.tokens.Some?, at, i);
    match Judge(env, c, call, st.tokens.Some?, at, i)
    case Again(auth) =>
      var next := st.(sent := st.sent + [first]);
      var later := at.(retries := at.retries + 1, auth := auth);
      var more := HelperRound(env, c, call, later, next);
      block := [first] + more;
      RoundGrows(env, c, call, at, later, st, first, more);
    case _ =>
      block := [first];
      RoundEnds(env, c, call, at, st, first);
  }

  lemma {:induction false} RoundEnds(env: Env, c: Config, call: Call, at: Attempt, st: ClientState, first: Sent)
    requires at.retries < Tries(c) && first == Sent(call.kind, at.auth)
    requires !Judge(env, c, call, st.tokens.Some?, at, |st.sent|).Again?
    ensures Helper(env, c, call, at, st) == AfterRound(env, c, call, at, st, [first])
  {
    hide Refreshed;
    JudgeSays(env, c, call, st.tokens.Some?, at, |st.sent|);
    var sent := st.(sent := st.sent + [first]);
    assert |sent.sent| - 1 == |st.sent|;
    match Judge(env, c, call, st.tokens.Some?, at, |st.sent|)
    case Return(r) =>
      assert Helper(env, c, call, at, st) == (r, sent);
    case Renew =>
      var (r, renewed) := Refreshed(env, c, sent);
      assert Helper(env, c, call, at, st) ==
             if r.Err? then (Err(r.error), renewed) else Helper(env, c, call, Attempt(true, 0, None), renewed);
  }

  lemma {:induction false} RoundGrows(env: Env, c: Config, call: Call, at: Attempt, later: Attempt,
                                      st: ClientState, first: Sent, more: seq<Sent>)
    requires 1 <= |more| && later.refreshed == at.refreshed && later.retries == at.retries + 1
    ensures AfterRound(env, c, call, later, st.(sent := st.sent + [first]), more)
            == AfterRound(env, c, call, at, st, [first] + more)
  {
    hide Helper, Refreshed, Renews, RoundResult;
    assert st.sent + [first] + more == st.sent + ([first] + more);
  }

  /** What follows a round: its result, or a renewal and the loop from a fresh attempt. */
  function AfterRound(env: Env, c: Config, call: Call, at: Attempt, st: ClientState, block: seq<Sent>)
    : (Result<Response>, ClientState)
    requires 1 <= |block|
  {
    var sent := st.(sent := st.sent + block);
    var last := |sent.sent| - 1;
    if !Renews(env, call, st.tokens.Some?, at.refreshed, last) then
      (RoundResult(env, c, call, last, at.retries + |block| == Tries(c)), sent)
    else
      var (r, renewed) := Refreshed(env, c, sent);
      if r.Err? then (Err(r.error), renewed)
      else Helper(env, c, call, Attempt(true, 0, None), renewed)
  }

  // ---------------------------------------------------------------------------
  // The whole of a request
  // ---------------------------------------------------------------------------

  function Start(auth: Option<Credential>): Attempt {
    Attempt(false, 0, auth)
  }

  /** A call that cannot refresh is one round: it sends at most `Tries` requests, and
  leaves the tokens alone. */
  lemma {:induction false} PlainCall(env: Env, c: Config, call: Call, at: Attempt, st: ClientState)
    returns (block: seq<Sent>)
    requires at.retries < Tries(c) && !(call.refresh401 && st.tokens.Some? && !at.refreshed)
    ensures Round(env, c, call, at, st.tokens.Some?, |st.sent|, block)
    ensures Helper(env, c, call, at, st)
            == (RoundResult(env, c, call, |st.sent| + |block| - 1, at.retries + |block| == Tries(c)),
                st.(sent := st.sent + block))
  {
    hide Helper, Round;
    block := HelperRound(env, c, call, at, st);
    RoundSize(env, c, call, at, st.tokens.Some?, |st.sent|, block);
  }

  lemma {:induction false} RoundSize(env: Env, c: Config, call: Call, at: Attempt, hasTokens: bool, i: nat,
                                     block: seq<Sent>)
    requires Round(env, c, call, at, hasTokens, i, block)
    ensures 1 <= |block| && at.retries + |block| <= Tries(c)
  {
  }

  /** The tokens that a refresh with the last request `last` brings: those in its answer, if
  that is a 200. */
  function Brings(env: Env, last: nat): Result<nat> {
    match env.outcomes(last)
    case Answer(response) => if response.status == 200 then response.tokens else Err(Rejected)
    case _ => Err(Rejected)
  }

  /** A refresh is one round of refresh requests with the refresh token; it brings new
  tokens exactly when its last request is answered with them. */
  lemma {:induction false} RefreshCall(env: Env, c: Config, st: ClientState) returns (block: seq<Sent>)
    requires st.tokens.Some?
    ensures Round(env, c, Call(SessionRefresh, true, false, false), Start(Some(RefreshToken(st.tokens.value))), true,
                  |st.sent|, block)
    ensures var brings := Brings(env, |st.sent| + |block| - 1);
            Refreshed(env, c, st)
            == (brings, ClientState(if brings.Ok? then Some(brings.value) else st.tokens, st.sent + block))
  {
    hide Helper, Round;
    block := PlainCall(env, c, REFRESH_CALL, Start(Some(RefreshToken(st.tokens.value))), st);
    RoundSize(env, c, REFRESH_CALL, Start(Some(RefreshToken(st.tokens.value))), true, |st.sent|, block);
  }

  /** What a request may send: `a`, one round; if that ends with tokens to renew, `r`, one
  round of refresh requests; and if those bring tokens, `b`, one more round, whose first
  request carries no authorization at all. */
  ghost predicate Sends(env: Env, c: Config, call: Call, auth: Option<Credential>, st: ClientState,
                        a: seq<Sent>, r: seq<Sent>, b: seq<Sent>)
  {
    var has := st.tokens.Some?;
    var i := |st.sent|;
    && Round(env, c, call, Start(auth), has, i, a)
    && (r != [] <==> Renews(env, call, has, false, i + |a| - 1))
    && (r != [] ==> Round(env, c, REFRESH_CALL, Start(Some(RefreshToken(st.tokens.value))), true, i + |a|, r))
    && (b != [] <==> r != [] && Brings(env, i + |a| + |r| - 1).Ok?)
    && (b != [] ==> Round(env, c, call, Attempt(true, 0, None), true, i + |a| + |r|, b))
  }

  /** The result is that of the last round of the request itself; a refresh that brings
  nothing is an error. */
  function SendsResult(env: Env, c: Config, call: Call, st: ClientState, a: seq<Sent>, r: seq<Sent>, b: seq<Sent>)
    : Result<Response>
    requires a != [] && (b != [] ==> r != [])
  {
    if r == [] then RoundResult(env, c, call, |st.sent| + |a| - 1, |a| == Tries(c))
    else if b == [] then
      match Brings(env, |st.sent| + |a| + |r| - 1)
      case Err(e) => Err(e)
      case Ok(_) => Err(Rejected)
    else RoundResult(env, c, call, |st.sent| + |a| + |r| + |b| - 1, |b| == Tries(c))
  }

  lemma {:induction false} SendsOf(env: Env, c: Config, call: Call, auth: Option<Credential>, st: ClientState)
    returns (a: seq<Sent>, r: seq<Sent>, b: seq<Sent>)
    ensures Sends(env, c, call, auth, st, a, r, b)
    ensures Helper(env, c, call, Start(auth), st)
            == (SendsResult(env, c, call, st, a, r, b),
                ClientState(if b == [] then st.tokens else Some(Brings(env, |st.sent| + |a| + |r| - 1).value),
                            st.sent + a + r + b))
  {
    hide Helper, Round, RoundResult, Brings, Refreshed, WorthRetrying;
    r, b := [], [];
    a := HelperRound(env, c, call, Start(auth), st);
    RoundSize(env, c, call, Start(auth), st.tokens.Some?, |st.sent|, a);
    var sent := st.(sent := st.sent + a);
    if Renews(env, call, st.tokens.Some?, false, |sent.sent| - 1) {
      r := RefreshCall(env, c, sent);
      RoundSize(env, c, REFRESH_CALL, Start(Some(RefreshToken(st.tokens.value))), true, |sent.sent|, r);
      var (_, renewed) := Refreshed(env, c, sent);
      if Refreshed(env, c, sent).0.Ok? {
        b := PlainCall(env, c, call, Attempt(true, 0, None), renewed);
        RoundSize(env, c, call, Attempt(true, 0, None), true, |renewed.sent|, b);
      } else {
        assert renewed.sent + b == renewed.sent;
      }
    } else {
      assert sent.sent + r + b == sent.sent;
    }
  }

  /** None of the `n` requests from number `i` on was answered by a reload. */
  predicate NoReload(env: Env, c: Config, call: Call, i: nat, n: nat) {
    forall k :: i <= k < i + n ==> !ReloadsToken(env, c, call, k)
  }

  predicate ReloadsToken(env: Env, c: Config, call: Call, i: nat) {
    Reloads(env, c, call, i) && env.tokenFile(i).Some?
  }

  lemma {:induction false} BareAt(env: Env, c: Config, call: Call, at: Attempt, hasTokens: bool, i: nat,
                                  block: seq<Sent>, j: nat)
    requires Round(env, c, call, at, hasTokens, i, block) && at.auth == None && j < |block|
    ensures block[j].auth == None <==> NoReload(env, c, call, i, j)
    decreases j
  {
    hide Reloads, WorthRetrying, Renews;
    if j > 0 {
      BareAt(env, c, call, at, hasTokens, i, block, j - 1);
      assert block[j].auth == Carried(env, c, call, i + j - 1, block[j - 1].auth);
      assert NoReload(env, c, call, i, j) <==>
             NoReload(env, c, call, i, j - 1) && !ReloadsToken(env, c, call, i + j - 1);
    }
  }

  /** After a refresh, the requests that go out without authorization are exactly those
  before the first reload. */
  lemma {:induction false} BareAfterRefresh(env: Env, c: Config, call: Call, auth: Option<Credential>, st: ClientState,
                                            a: seq<Sent>, r: seq<Sent>, b: seq<Sent>)
    requires Sends(env, c, call, auth, st, a, r, b)
    ensures forall j :: 0 <= j < |b| ==>
              (b[j].auth == None <==> NoReload(env, c, call, |st.sent| + |a| + |r|, j))
  {
    hide Round, NoReload;
    forall j | 0 <= j < |b|
      ensures b[j].auth == None <==> NoReload(env, c, call, |st.sent| + |a| + |r|, j)
    {
      BareAt(env, c, call, Attempt(true, 0, None), true, |st.sent| + |a| + |r|, b, j);
    }
  }

  function Count(kind: Kind, sent: seq<Sent>): nat {
    if sent == [] then 0 else (if sent[0].kind == kind then 1 else 0) + Count(kind, sent[1..])
  }

  lemma {:induction false} CountAppend(kind: Kind, a: seq<Sent>, b: seq<Sent>)
    ensures Count(kind, a + b) == Count(kind, a) + Count(kind, b)
  {
    if a == [] {
      assert a + b == b;
    } else {
      CountAppend(kind, a[1..], b);
      assert (a + b)[1..] == a[1..] + b;
    }
  }

  lemma {:induction false} CountSame(kind: Kind, own: Kind, a: seq<Sent>)
    requires forall j :: 0 <= j < |a| ==> a[j].kind == own
    ensures Count(kind, a) == if kind == own then |a| else 0
  {
    if a != [] {
      CountSame(kind, own, a[1..]);
    }
  }

  /** The retry bound, for every sequence of outcomes: a request is sent at most twice
  `max(1, retry_count)` times, with at most `max(1, retry_count)` refresh requests, and
  a call that may not refresh stays within one round and sends none. */
  lemma {:induction false} SendsBounded(env: Env, c: Config, call: Call, auth: Option<Credential>, st: ClientState)
    requires call.kind != SessionRefresh
    ensures var (_, after) := Helper(env, c, call, Start(auth), st);
            var own := Count(call.kind, after.sent) - Count(call.kind, st.sent);
            var refreshes := Count(SessionRefresh, after.sent) - Count(SessionRefresh, st.sent);
            var most := if c.retryCount == 0 then 1 else c.retryCount;
            && st.sent <= after.sent
            && 1 <= own <= 2 * most && 0 <= refreshes <= most
            && |after.sent| - |st.sent| == own + refreshes
            && (refreshes == 0 ==> own <= most && after.tokens == st.tokens)
            && (!call.refresh401 || st.tokens.None? ==> refreshes == 0)
  {
    hide Helper, SendsResult, Brings, WorthRetrying;
    var a, r, b := SendsOf(env, c, call, auth, st);
    forall kind: Kind
      ensures Count(kind, st.sent + a + r + b)
              == Count(kind, st.sent) + Count(kind, a) + Count(kind, r) + Count(kind, b)
    {
      CountAppend(kind, st.sent + a + r, b);
      CountAppend(kind, st.sent + a, r);
      CountAppend(kind, st.sent, a);
    }
    CountSame(call.kind, call.kind, a);
    CountSame(SessionRefresh, call.kind, a);
    CountSame(call.kind, SessionRefresh, r);
    CountSame(SessionRefresh, SessionRefresh, r);
    CountSame(call.kind, call.kind, b);
    CountSame(SessionRefresh, call.kind, b);
  }

  /** A response that could be retried is given back only after a full round. */
  lemma {:induction false} GivesUpOnlyWhenExhausted(env: Env, c: Config, call: Call, auth: Option<Credential>,
                                                    st: ClientState)
    returns (a: seq<Sent>, r: seq<Sent>, b: seq<Sent>)
    ensures Sends(env, c, call, auth, st, a, r, b)
    ensures var (result, after) := Helper(env, c, call, Start(auth), st);
            result.Ok? ==>
              && after.sent != [] && env.outcomes(|after.sent| - 1) == Answer(result.value)
              && (WorthRetrying(env, c, call, |after.sent| - 1) ==>
                    |if b == [] then a else b| == if c.retryCount == 0 then 1 else c.retryCount)
  {
    hide Helper, WorthRetrying, Brings;
    a, r, b := SendsOf(env, c, call, auth, st);
  }

  /** What an answer to the first request of a call leads to. With session tokens, a 401 that
  may refresh is followed by a refresh if and only if its code is 5101 or 5103; a 503 that
  may be retried is followed by the same request if and only if a try is left; an answer
  with any other status is the result. */
  lemma {:induction false} FirstAnswer(env: Env, c: Config, call: Call, auth: Option<Credential>, st: ClientState)
    requires call.kind != SessionRefresh && env.outcomes(|st.sent|).Answer?
    ensures var answer := env.outcomes(|st.sent|).response;
            var (result, after) := Helper(env, c, call, Start(auth), st);
            var i := |st.sent|;
            && |after.sent| > i && after.sent[i] == Sent(call.kind, auth)
            && (st.tokens.Some? && call.refresh401 && answer.status == 401 ==>
                  (|after.sent| > i + 1 && after.sent[i + 1].kind == SessionRefresh
                   <==> answer.errorCode == Some(5101) || answer.errorCode == Some(5103)))
            && (call.retry503 && answer.status == 503 ==>
                  (|after.sent| > i + 1 <==> c.retryCount >= 2)
                  && (|after.sent| > i + 1 ==> after.sent[i + 1] == Sent(call.kind, auth)))
            && (answer.status != 401 && answer.status != 503 ==>
                  result == Ok(answer) && after == st.(sent := st.sent + [Sent(call.kind, auth)]))
  {
    hide Helper, Brings;
    var a, r, b := SendsOf(env, c, call, auth, st);
    var i := |st.sent|;
    var after := Helper(env, c, call, Start(auth), st).1;
    assert after.sent == st.sent + a + r + b;
    assert after.sent[i] == a[0];
    if |a| > 1 {
      assert after.sent[i + 1] == a[1];
      assert WorthRetrying(env, c, call, i);
    } else if r != [] {
      assert after.sent[i + 1] == r[0];
    }
    if r == [] {
      assert st.sent + a + r + b == st.sent + a;
    }
  }

  // ---------------------------------------------------------------------------
  // The client as the source holds it
  // ---------------------------------------------------------------------------

  class ApiClient {
    const env: Env
    const config: Config
    var tokens: Option<nat>
    var sent: seq<Sent>

    function State(): ClientState
      reads this
    {
      ClientState(tokens, sent)
    }

    constructor (env: Env, config: Config, tokens: Option<nat>)
      ensures this.env == env && this.config == config && State() == ClientState(tokens, [])
    {
      this.env, this.config, this.tokens, this.sent := env, config, tokens, [];
    }

    method Execute(kind: Kind, auth: Option<Credential>) returns (o: Outcome)
      modifies this
      ensures State() == old(State()).(sent := old(sent) + [Sent(kind, auth)])
      ensures o == env.outcomes(old(|sent|))
    {
      o := env.outcomes(|sent|);
      sent := sent + [Sent(kind, auth)];
    }

    /** The loop, with its counter that a refresh resets. */
    method QueryRequestHelper(call: Call, authorization: Option<Credential>) returns (r: Result<Response>)
      modifies this
      ensures (r, State()) == Helper(env, config, call, Start(authorization), old(State()))
      decreases call.refresh401, 1
    {
      hide Refreshed;
      var refreshed, retries, auth := false, 0, authorization;
      while true
        invariant retries < Tries(config)
        invariant Helper(env, config, call, Attempt(refreshed, retries, auth), State())
                  == Helper(env, config, call, Start(authorization), old(State()))
        decreases !refreshed, Tries(config) - retries
      {
        var i := |sent|;
        var outcome := Execute(call.kind, auth);
        match outcome
        case LostRequest(transient) =>
          if !transient || Exhausted(config, retries) {
            return Err(Rejected);
          }
          retries := retries + 1;
        case LostBody(transient) =>
          if !transient || Exhausted(config, retries) {
            return Err(Rejected);
          }
          retries := retries + 1;
        case Answer(response) =>
          if call.retry503 && response.status == SERVICE_UNAVAILABLE {
            if Exhausted(config, retries) {
              return Ok(response);
            }
            retries := retries + 1;
          } else if response.status == UNAUTHORIZED {
            auth := None;
            if tokens.Some? && call.refresh401 && NeedsRefresh(response) && !refreshed {
              var renewal := RefreshSessionToken(tokens.value);
              if renewal.Err? {
                return Err(renewal.error);
              }
              refreshed, retries := true, 0;
            } else if call.reload401 && config.canReload {
              if Exhausted(config, retries) {
                return Ok(response);
              }
              retries := retries + 1;
              match env.tokenFile(i)
              case Some(token) => auth := Some(Own(token));
              case None => return Err(Rejected);
            } else {
              return Ok(response);
            }
          } else {
            return Ok(response);
          }
      }
    }

    method RefreshSessionToken(pair: nat) returns (r: Result<nat>)
      requires tokens == Some(pair)
      modifies this
      ensures (r, State()) == Refreshed(env, config, old(State()))
      decreases REFRESH_CALL.refresh401, 2
    {
      hide Helper;
      var response := QueryRequestHelper(REFRESH_CALL, Some(RefreshToken(pair)));
      r := NewTokens(response);
      if r.Ok? {
        tokens := Some(r.value);
      }
    }
  }
}
